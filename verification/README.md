# Receipt Data Extractor — a verified model

Receipt Data Extractor turns photographs of receipts into JSON records. For each image
it sends one request to a vision-language model on the Groq service. The request holds
a fixed extraction policy, a JSON schema of seven receipt fields, and the image inlined
as a base64 data URL. It then recovers a JSON value from the reply: the whole reply if
it parses, otherwise the text from its first `{` to its last `}`. Each truthy result is
written to `<stem>.json`, named after the image. The batch mode collects every
`*.jpg`, `*.jpeg`, `*.png`, `*.gif` and `*.bmp` image of a directory, in lower-case and
in upper-case spelling, and counts its successes. A second program, the API-key tool,
views, sets and removes the `GROQ_API_KEY=` line of the `.env` file and masks the key
when it shows it.

The model is split into these modules:

- `Text`: Python's whitespace, `strip`/`rstrip`, character search and ASCII case mapping.
- `PathNames`: `os.path.basename`, `os.path.splitext`, `os.path.join` and `get_json_filename`.
- `Recovery`: the regular-expression brace span and the two-stage recovery of a reply.
- `Prompt`: the fixed policy, the schema value and `create_extraction_prompt`.
- `Extraction`: `extract_receipt_data` over a `World` record of external behaviour
  (environment, filesystem, service, JSON parser).
- `Batch`: the candidate list, the per-file loop of `process_all_receipts`, and the
  mode choice in `main`.
- `EnvFile`: the `.env` text as Python's text mode reads it (universal newlines, one
  line per `\n`) and writes it.
- `KeyTool`: masking, `view_api_key`, `set_api_key`, `remove_api_key` and the tool's `main`.

The loops of the source are methods with loop invariants, each proved equal to a
specification function: `Batch.CollectImageFiles`, `Batch.ProcessAllReceipts`,
`KeyTool.ViewApiKey`, `KeyTool.CollectOtherVars` and `KeyTool.WriteNonBlank`.
`KeyTool.SetApiKey` and `KeyTool.RemoveApiKey` are methods built on those loops, proved
equal to their own specification functions. The lemmas then prove what the source
promises about those functions.

Some behaviours of the code worth knowing:

- Extension matching works per case: only the all-lower-case and all-upper-case
  patterns are globbed, so `IMG.Jpg` is never found (`Batch.UnmatchedNameNeverListed`).
- Stage 1 returns any JSON value that parses, not only objects (`Recovery.RecoverSpec`).
- Stage 2 runs only after `json.JSONDecodeError`. Any other exception of the first
  parse reaches the outer handler and gives None (`Recovery.Recover`).
- Building the client and reading the image happen before the `try`, so their
  exceptions escape `extract_receipt_data` and end the whole batch (`Batch.BatchCrashes`).
- A key holding a line break is written as two lines, so a second `set` of that key
  keeps its tail as another variable and `view` no longer reads the key back; the
  properties of `set` are proved for keys without line breaks (`KeyTool.SetIdempotent`).
- Two images that differ only in their extension, such as `a.jpg` and `a.png`, or
  `a.jpg` and `a.JPG`, are both written to `a.json`: the later write replaces the
  earlier one, and the tally counts both (`Batch.OutputNamesCollide`).
- The key is the explicit argument, else `GROQ_API_KEY` from the environment after the
  optional `.env` loading (`Extraction.ClientKey`).

## Model

| member | source | states |
|---|---|---|
| Text.RStrip | manage_api_key.py:44 | `rstrip()` gives a prefix of the text, everything it drops is whitespace, and it ends in a non-whitespace character or is empty |
| Text.StripEmptyIffAllSpace | manage_api_key.py:50 | `strip()` is empty exactly when the text is all whitespace, which is when a value is skipped |
| Text.Lower | manage_api_key.py:91 | `lower()` keeps the length and lower-cases every character (ASCII) |
| PathNames.BaseName | receipt_extractor.py:137 | `basename` is the suffix after the last '/': it holds no '/', and it is the whole path or is preceded by '/' |
| PathNames.BaseNameUnique | receipt_extractor.py:137 | those properties pin the base name down: two suffixes with them are equal |
| PathNames.SplitExtRoot | receipt_extractor.py:137 | the `splitext` root is a prefix of the path |
| PathNames.StemSpec | receipt_extractor.py:137 | the root of a name without '/' is the name cut at its extension dot (the last '.', with a non-'.' before it), or the whole name when there is none |
| PathNames.JsonFileName | receipt_extractor.py:134-139 | an output name never holds '/' and always ends in ".json" |
| PathNames.JsonFileNameIgnoresDirectory | receipt_extractor.py:134-139 | the directory part of an image path never changes its output name |
| PathNames.JsonFileNameWithExtension | receipt_extractor.py:137-139 | a name with an extension dot at k is named `name[..k] + ".json"` |
| PathNames.JsonFileNameWithoutExtension | receipt_extractor.py:137-139 | a name without an extension dot is named `name + ".json"` |
| PathNames.JsonFileNameDropsLastExtension | receipt_extractor.py:137-139 | only the last extension goes: `stem.ext` is named `stem.json` ("a.tar.gz" gives "a.tar.json") |
| PathNames.JsonFileNameOfDotFile | receipt_extractor.py:137-139 | a name whose only '.' is its first character (".hidden") keeps it whole: `name + ".json"` |
| PathNames.JsonFileNameIdempotent | receipt_extractor.py:137-139 | naming an output after an output name gives the same name, when the stem holds a non-'.' character |
| PathNames.StemOfJsonName | receipt_extractor.py:137-139 | the stem of `stem + ".json"` is `stem` when it holds a non-'.' character |
| PathNames.JsonFileNameNotIdempotentOnEmptyStem | receipt_extractor.py:137-139 | a path ending in '/' is named ".json", and naming again appends ".json" once more |
| Recovery.BraceSpan | receipt_extractor.py:122 | the text from the first '{' to the last '}', when that '}' comes later: a brace-delimited part of the reply |
| Recovery.Recover | receipt_extractor.py:116-128 | stage 1, then stage 2 only after a decoding error; another exception of the first parse, or no span, gives nothing |
| Recovery.BraceSpanIsLeftmostLongestMatch | receipt_extractor.py:122-124 | the span exists exactly when some `\{[\s\S]*\}` match exists, and it is a match that contains every other match |
| Recovery.RecoverSpec | receipt_extractor.py:116-128 | a reply that parses is returned unchanged whatever its kind; otherwise a value comes only from parsing a brace match; with neither, nothing |
| Recovery.MatchAroundObject | receipt_extractor.py:122 | with no '{' before and no '}' after an object text, a match covering it is exactly it |
| Recovery.NoisyReplySpan | receipt_extractor.py:122-124 | prose without '{', one object text and a trailer without '}' have that object text as their span |
| Recovery.FirstOpenOfNoisyReply | receipt_extractor.py:122 | with no '{' in the prose, the first '{' of the reply is the object's |
| Recovery.LastCloseOfNoisyReply | receipt_extractor.py:122 | with no '}' in the trailer, the last '}' of the reply is the object's |
| Recovery.RecoverFromNoisyReply | receipt_extractor.py:116-124 | prose without '{', one object text and a trailer without '}' recover as that object text parses |
| Recovery.TwoObjectsMakeOneSpan | receipt_extractor.py:122 | for any prose without '{' before, and any trailer without '}' after, two objects with any text between them give one span running from the first object's '{' to the second object's '}', text between included |
| Prompt.CreateExtractionPrompt | receipt_extractor.py:22-30 | the prompt starts with the policy and is as long as policy, lead-in, rendering and closing sentence together |
| Prompt.ExtractionPrompt | receipt_extractor.py:87 | the prompt actually sent: the template around the fixed policy and schema |
| Prompt.PromptLayout | receipt_extractor.py:22-30 | the prompt is the policy, the fixed lead-in line, the schema rendering and the closing sentence, each at its place |
| Prompt.PromptDeterminesRendering | receipt_extractor.py:24-29 | equal prompts for one policy mean equal schema renderings |
| Prompt.SchemaWellFormed | receipt_extractor.py:44-81 | the seven field names are distinct, and the `required` list names the properties in order |
| Extraction.ClientKey | receipt_extractor.py:36 | an explicit non-empty key wins; a missing or empty one falls back to the environment |
| Extraction.ImageUrl | receipt_extractor.py:100 | the image URL is the fixed JPEG data-URL prefix followed by the base64 text, whatever the file's real format |
| Extraction.ImageUrlInjective | receipt_extractor.py:100 | two encoded images give the same URL exactly when they are equal |
| Extraction.ServiceReply | receipt_extractor.py:91-112 | the reply to the one chat-completion request, which carries the image URL; Extraction.ExtractFailuresBecomeNone states what each reply leads to |
| Extraction.ExtractReceiptData | receipt_extractor.py:32-132 | an extraction raises exactly when the client cannot be built or the image cannot be read |
| Extraction.ExtractFailuresBecomeNone | receipt_extractor.py:89-132 | past those two steps nothing escapes: a service failure, an unparsable reply without a span, and a span that does not parse give None; a value comes only from the reply or one of its brace matches |
| PathNames.Join | receipt_extractor.py:149 | `os.path.join(directory, pattern)`: the joined path ends in the second component |
| Text.Upper | receipt_extractor.py:150 | `ext.upper()` keeps the length and upper-cases every character (ASCII) |
| Batch.Glob | receipt_extractor.py:149-150 | a glob never lists more paths than the directory has names |
| Batch.GlobMembers | receipt_extractor.py:149-150 | a path is globbed exactly when it joins the directory to a listed name matching the pattern |
| Batch.CollectImageFiles | receipt_extractor.py:145-150 | the `extend` loop builds exactly the candidate list |
| Batch.CandidatesForSnoc | receipt_extractor.py:148-150 | one more pattern appends its lower-case matches and then its upper-case matches |
| Batch.CandidatesByExtension | receipt_extractor.py:145-150 | the list is, for jpg, jpeg, png, gif and bmp in order, the lower-case pattern's matches then the upper-case pattern's |
| Batch.PatternMatchMembers | receipt_extractor.py:149-150 | a path enters through one pattern exactly when its name ends in the lower-case or the upper-case extension |
| Batch.StarMatch | receipt_extractor.py:149-150 | a name matches a pattern `*` + literal when it ends in the literal, case-sensitively; Batch.StarMatchSuffix states it |
| Batch.StarMatchSuffix | receipt_extractor.py:149-150 | a pattern `*` + suffix matches exactly the names ending in that suffix |
| Batch.CandidateMembers | receipt_extractor.py:145-150 | a path is a candidate exactly when it joins the directory to a listed name with one of the ten accepted endings |
| Batch.JoinInjective | receipt_extractor.py:149 | joining one directory to names without '/' is one-to-one |
| Batch.UnmatchedNameNeverListed | receipt_extractor.py:145-150 | a name without an accepted ending, such as a mixed-case extension, never becomes a candidate |
| Batch.MixedCaseExtension | receipt_extractor.py:145-150 | "IMG_7.Jpg" has no accepted ending and "IMG_7.JPG" has one |
| Batch.Candidates | receipt_extractor.py:145-150 | `image_files`: for each pattern in order, its lower-case matches then its upper-case matches; its members are given by Batch.CandidateMembers |
| Batch.PatternMatches | receipt_extractor.py:149-150 | one pattern's `extend` pair: its own glob, then the glob of its upper-case form; its members are given by Batch.PatternMatchMembers |
| Batch.RunFrom | receipt_extractor.py:159-178 | the per-file loop from some file on; its outcome is given by Batch.RunFromCompletes and Batch.RunFromAborts |
| Batch.BatchOver | receipt_extractor.py:152-182 | `process_all_receipts` once the list is known: no images, a full pass, or a crash; given by Batch.BatchCompletes and Batch.BatchCrashes |
| Batch.ProcessAllReceipts | receipt_extractor.py:141-182 | the loop reports no images for an empty list, otherwise the run over the list: outputs, tally and total, or the file whose exception escaped |
| JsonValue.Truthy | receipt_extractor.py:165 | `if extracted_data:` and `if result:` (line 204): `None`, `false`, `0`, `""`, `[]` and `{}` are failures; Batch.RunFromStep and Batch.ProcessSingle use it |
| Batch.Attempts | receipt_extractor.py:163 | the batch and single modes call `extract_receipt_data` with no explicit key (also line 203); Batch.BatchCrashes and Batch.SingleAgreesWithBatch state its outcomes |
| Batch.Succeeds | receipt_extractor.py:165 | a file succeeds when its extraction returns a truthy value; Batch.SuccessMembers states which files do |
| Batch.Written | receipt_extractor.py:165-176 | a successful file adds one output named by `get_json_filename`, any other none; Batch.RunFromStep states it |
| Batch.RunFromStep | receipt_extractor.py:163-178 | a file that returns adds its output and one to the tally exactly when its result is truthy (so `{}` counts as a failure) |
| Batch.Successes | receipt_extractor.py:159-176 | there are never more outputs than files |
| Batch.SuccessMembers | receipt_extractor.py:163-176 | an output is written exactly for a listed file whose result is truthy, and holds that result |
| Batch.RunFromCompletes | receipt_extractor.py:159-178 | when nothing raises, every file is attempted in order, a falsy result does not stop the loop, and the writes are the successes in order with the tally counting them |
| Batch.RunFromAborts | receipt_extractor.py:160-163 | the first file that raises ends the loop, after the writes of the files before it |
| Batch.OutputNamesCollide | receipt_extractor.py:167-176 | two images of one directory whose names differ only in the extension both get the output name `stem.json`, so the later write replaces the earlier |
| Batch.BatchCompletes | receipt_extractor.py:152-182 | a full pass reports the successes in order, their number as the tally and the list length as the total, so the tally never exceeds the total |
| Batch.BatchCrashes | receipt_extractor.py:160-163 | the batch ends at the first escaped exception, keeping the earlier outputs |
| Batch.SingleAgreesWithBatch | receipt_extractor.py:198-214 | for the same extraction result, single-file mode ends as the batch over that one file does, and saves the same output under the same name |
| Batch.ProcessSingle | receipt_extractor.py:201-214 | single-file mode for an existing path: an escaped exception, a falsy result, or one saved output; related to the batch by Batch.SingleAgreesWithBatch |
| Batch.HasEnvKey | receipt_extractor.py:188 | `os.environ.get("GROQ_API_KEY")` is set and non-empty; Batch.ExtractorCli stops when it is not |
| Batch.ExtractorCli | receipt_extractor.py:184-219 | no non-empty key stops everything; with an argument only `argv[1]` is used, processed if it exists and reported missing otherwise; without one the batch runs on "." |
| EnvFile.ReadLines | manage_api_key.py:11-12 | the lines `for line in f` yields: universal-newline translation, then a cut after each "\n"; its shape is given by KeyTool.ReadLinesShape |
| EnvFile.Terminated | manage_api_key.py:49-51 | the text written by `f.write(f"{var}\n")` for each value in turn; read back by EnvFile.ReadTerminated |
| EnvFile.Translate | manage_api_key.py:11-12 | text mode leaves no "\r", and changes nothing in text without one |
| EnvFile.SplitLines | manage_api_key.py:12 | iteration yields lines that end in "\n" (all but maybe the last) and join back to the text |
| EnvFile.SplitConcat | manage_api_key.py:12 | well-formed lines are recovered from their concatenation |
| EnvFile.WithNewlines | manage_api_key.py:51 | each value is followed by "\n" |
| EnvFile.TerminatedConcat | manage_api_key.py:49-51 | the text written is the values each followed by "\n", joined |
| EnvFile.ReadTerminated | manage_api_key.py:47-51 | values without line breaks, written one per line, read back as those values each followed by "\n" |
| EnvFile.ReadCarriageReturns | manage_api_key.py:11-12 | "a\r\nb\rc" reads as "a\n", "b\n" and "c" |
| Text.Strip | manage_api_key.py:14 | `strip()`: both ends' whitespace removed; its emptiness is given by Text.StripEmptyIffAllSpace |
| KeyTool.IsKeyLine | manage_api_key.py:13 | a key line is one that starts with `GROQ_API_KEY=` as read, before any stripping; KeyTool.PrefixShape and KeyTool.KeyLineValue state its shape and value |
| KeyTool.KeyValue | manage_api_key.py:14 | `line.strip().split("=", 1)[1]`; its value is given by KeyTool.KeyLineValue |
| KeyTool.LinesOf | manage_api_key.py:10-12 | the lines of `.env` as text mode reads them, none when the file does not exist (also lines 40-42 and 59-66); KeyTool.ReadLinesShape states their shape |
| KeyTool.KeyViewOf | manage_api_key.py:6-32 | what `view_api_key` shows: the first key line's masked value, else a non-empty environment value masked, else no key |
| KeyTool.Kept | manage_api_key.py:39-51 | the values written back: other lines right-stripped, blank ones dropped; its members are given by KeyTool.KeptMembers |
| KeyTool.SetContent | manage_api_key.py:34-53 | the `.env` text after `set_api_key(k)`: the key line, then the kept values one per line |
| KeyTool.RemoveResult | manage_api_key.py:55-81 | `remove_api_key`: nothing without a file or without a key line, else the kept values one per line |
| KeyTool.Stars | manage_api_key.py:17 | `"*" * n` is n stars |
| KeyTool.Mask | manage_api_key.py:16-19 | the mask is as long as the key; above 8 characters it keeps the first and last four and stars the middle, otherwise it stars everything |
| KeyTool.MaskRevealsOnlyEnds | manage_api_key.py:16-19 | keys of one length that agree in their first and last four characters (or are at most 8 long) mask alike |
| KeyTool.PrefixShape | manage_api_key.py:13-14 | the prefix is 13 characters with its only '=' last, starting and ending in non-whitespace |
| KeyTool.RStripKeeps | manage_api_key.py:14 | stripping trailing whitespace keeps everything up to a non-whitespace character |
| KeyTool.KeyLineValue | manage_api_key.py:13-14 | the value of a key line is the line without trailing whitespace, minus the 13-character prefix; an '=' later in the value stays |
| KeyTool.FirstKeyLine | manage_api_key.py:12-13 | the index is the first key line, or -1 exactly when there is none |
| KeyTool.ViewApiKey | manage_api_key.py:6-32 | the scan with its early return reports exactly the specified view |
| KeyTool.ViewPriority | manage_api_key.py:9-21 | the first key line of `.env` decides, showing its masked value |
| KeyTool.ViewFallsBackToEnvironment | manage_api_key.py:23-32 | without a key line the environment decides, and an empty value counts as no key |
| KeyTool.OtherVars | manage_api_key.py:41-44 | never more values than lines |
| KeyTool.OtherVarsMembers | manage_api_key.py:42-44 | a collected value is the right-stripped form of a line that is not a key line |
| KeyTool.OtherVarsStep | manage_api_key.py:43-44 | one line adds nothing when it is a key line, else itself right-stripped |
| KeyTool.NonBlank | manage_api_key.py:49-51 | never more values than given |
| KeyTool.NonBlankMembers | manage_api_key.py:50 | the values written are exactly the given values that are not blank |
| KeyTool.NonBlankKeepsAll | manage_api_key.py:49-51 | values that are all non-blank are all written |
| KeyTool.NonBlankStep | manage_api_key.py:50-51 | one value is written when it is not blank and dropped otherwise |
| KeyTool.CollectOtherVars | manage_api_key.py:64-71 | the reading loop collects exactly the other values, and its flag is set exactly when some line is a key line |
| KeyTool.WriteNonBlank | manage_api_key.py:49-51 | the writing loop appends exactly the non-blank values, each with its "\n" |
| KeyTool.SetApiKey | manage_api_key.py:34-53 | the new `.env` text is the key line followed by the kept values, one per line |
| KeyTool.RemoveApiKey | manage_api_key.py:55-81 | no file and no key line leave the file alone; otherwise it is rewritten with the kept values only |
| KeyTool.ConcatExcludes | manage_api_key.py:12 | a character absent from the text is absent from each line |
| KeyTool.ReadLinesShape | manage_api_key.py:11-12 | the lines read are well split and hold no "\r" |
| KeyTool.StrippedLineIsClean | manage_api_key.py:43-44 | a read line that is not a key line, right-stripped, has no line break, is not a key line and has no trailing whitespace |
| KeyTool.OtherVarsClean | manage_api_key.py:41-44 | every collected value is clean in that sense |
| KeyTool.KeptClean | manage_api_key.py:39-51 | every value written back is clean and not blank |
| KeyTool.KeptMembers | manage_api_key.py:39-51 | the values written back are exactly the old lines that are not key lines, right-stripped and not blank |
| KeyTool.WrittenLine | manage_api_key.py:51 | a written clean value is not a key line, and right-stripping it gives the value back |
| KeyTool.OtherVarsOfWritten | manage_api_key.py:41-51 | reading back written clean values collects those values again |
| KeyTool.TerminatedCons | manage_api_key.py:48-51 | the written text of a first line and the rest is that line, "\n" and the rest's text |
| KeyTool.SetLines | manage_api_key.py:39-51 | after `set` with a key without line breaks, the file reads as the key line followed by the kept values, in their old order |
| KeyTool.SetExactlyOneKeyLine | manage_api_key.py:43-51 | after `set` with a key without line breaks, exactly one line, the first, starts with the prefix |
| KeyTool.KeptAfterSet | manage_api_key.py:39-51 | for a key without line breaks, `set` keeps the same other values |
| KeyTool.SetIdempotent | manage_api_key.py:34-51 | for a key without line breaks, `set` twice with that key leaves the same text as once |
| KeyTool.RStripSetLine | manage_api_key.py:48 | right-stripping the written key line strips only the key |
| KeyTool.SetKeyLineValue | manage_api_key.py:48 | the written key line is a key line whose value is the key, right-stripped |
| KeyTool.ViewAfterSet | manage_api_key.py:6-53 | after `set` with a key without line breaks, `view` shows the masked key from the file |
| KeyTool.RemoveLines | manage_api_key.py:64-79 | a rewrite leaves exactly the kept values, in order, and no key line |
| KeyTool.RemoveTwiceIsNoop | manage_api_key.py:55-81 | a second `remove` finds no key line and leaves the file alone |
| KeyTool.ViewAfterRemove | manage_api_key.py:6-81 | after a removal, `view` shows what it would show with no file |
| KeyTool.KeyToolCli | manage_api_key.py:83-104 | usage below two arguments; the command is lower-cased; `set` without a key only complains; the file changes only on `set` with a key or a `remove` that found a key line; anything else is an unknown command |

## Left out

- The Groq call itself: model name, `temperature`, `max_tokens` and `choices[0]`.
  Its reply is the field `complete` of `World`, which may fail.
- Extraction.ExtractReceiptData: `World` fixes one reply per image. The service samples
  its answer (`temperature=0.2`), so two requests with one image may get different
  replies; the model gives them the same one.
- Extraction.ExtractReceiptData: the service is asked with the image URL only, not the
  prompt text. The prompt is the same constant for every image, and
  `Prompt.ExtractionPrompt` models how it is built.
- The JSON grammar: `json.loads` is the parameter `parse`, which returns a value,
  `json.JSONDecodeError` or another exception, and `json.dumps` is the parameter `dumps`. The JSON written to an output file is the value itself
  (`Batch.Output`), not its text.
- Base64 encoding and reading image files: `encode` of `World`, which may fail.
- `glob`'s filesystem behaviour: the directory is taken literally (glob would read
  metacharacters in it as a pattern and collapse a doubled trailing '/'; `main` passes
  only "."), hidden-file skipping, duplicates on case-insensitive
  filesystems, and other path separators. A directory is its list of names, in the
  order the listing gives them.
- Batch.Output: an output records its image path and derives its file name from it,
  `get_json_filename(image)`. It does not model the file being written into the
  working directory.
- Failures while writing an output or `.env` file, an undecodable `.env` file, and a
  `.env` that is a directory. These exceptions would escape; the model has no such path.
- Loading `.env` into the environment with `python-dotenv` at start-up. It is a foreign
  library, and `envKey` of `World` is the environment after it.
- All console output: progress lines, emoji, the echo of parsed JSON and the summary line.
- Text.Lower, Text.Upper: only ASCII letters change case, while Python maps all of Unicode.
- Floating-point values in JSON are real numbers.

