/**
 * `process_all_receipts` and `main` of the extractor: the list of candidate images
 * (for each extension, the lower-case pattern's matches, then the upper-case
 * pattern's), the per-file loop that writes one output per truthy result and counts
 * the successes, and the choice between no key, one file and a whole directory.
 */
module Batch {
  import opened Wrappers
  import opened Text
  import opened JsonValue
  import opened PathNames
  import opened Extraction

  /** The glob patterns, in the order they are tried. */
  const ImagePatterns: seq<string> := ["*.jpg", "*.jpeg", "*.png", "*.gif", "*.bmp"]

  /** `fnmatch` of a name against a pattern of the form "*" followed by literal text. */
  predicate StarMatch(name: string, pattern: string) {
    |pattern| >= 1 && pattern[0] == '*' && EndsWith(name, pattern[1..])
  }

  /**
   * `glob.glob(os.path.join(directory, pattern))`: the matching names, joined to the directory, in listing order.
   * The directory is taken literally: no pattern characters in it, no collapsed trailing '/'.
   */
  function Glob(directory: string, names: seq<string>, pattern: string): (r: seq<string>)
    ensures |r| <= |names|
  {
    if names == [] then []
    else (if StarMatch(names[0], pattern) then [Join(directory, names[0])] else []) + Glob(directory, names[1..], pattern)
  }

  /** A path is globbed exactly when it joins the directory to a listed name that matches the pattern. */
  lemma {:induction false} GlobMembers(directory: string, names: seq<string>, pattern: string, p: string)
    ensures p in Glob(directory, names, pattern) <==> exists n :: n in names && StarMatch(n, pattern) && p == Join(directory, n)
  {
    if names != [] {
      GlobMembers(directory, names[1..], pattern, p);
      assert forall n :: n in names <==> n == names[0] || n in names[1..];
    }
  }

  /** What one pattern adds to the list: its own matches, then the matches of its upper-case form. */
  function PatternMatches(directory: string, names: seq<string>, pattern: string): seq<string> {
    Glob(directory, names, pattern) + Glob(directory, names, Upper(pattern))
  }

  /** The candidate list after the given patterns, tried in order. */
  function CandidatesFor(directory: string, names: seq<string>, patterns: seq<string>): seq<string>
    decreases |patterns|
  {
    if patterns == [] then []
    else
      CandidatesFor(directory, names, patterns[..|patterns| - 1])
        + PatternMatches(directory, names, patterns[|patterns| - 1])
  }

  /** `image_files` once all five patterns have been tried. */
  function Candidates(directory: string, names: seq<string>): seq<string> {
    CandidatesFor(directory, names, ImagePatterns)
  }

  /** The loop of `process_all_receipts` that builds `image_files` with `extend`. */
  method CollectImageFiles(directory: string, names: seq<string>) returns (imageFiles: seq<string>)
    ensures imageFiles == Candidates(directory, names)
  {
    imageFiles := [];
    for k := 0 to |ImagePatterns|
      invariant imageFiles == CandidatesFor(directory, names, ImagePatterns[..k])
    {
      var ext := ImagePatterns[k];
      imageFiles := imageFiles + Glob(directory, names, ext);
      imageFiles := imageFiles + Glob(directory, names, Upper(ext));
      assert ImagePatterns[..k + 1][..k] == ImagePatterns[..k];
    }
    assert ImagePatterns[..|ImagePatterns|] == ImagePatterns;
  }

  /** Trying one more pattern appends its lower-case matches and then its upper-case matches. */
  lemma CandidatesForSnoc(directory: string, names: seq<string>, patterns: seq<string>, p: string)
    ensures CandidatesFor(directory, names, patterns + [p])
      == CandidatesFor(directory, names, patterns) + PatternMatches(directory, names, p)
  {
    assert (patterns + [p])[..|patterns|] == patterns;
  }

  /** CandidatesFor over five patterns, unfolded. */
  lemma CandidatesForFive(directory: string, names: seq<string>, a: string, b: string, c: string, d: string, e: string)
    ensures CandidatesFor(directory, names, [a, b, c, d, e]) ==
      PatternMatches(directory, names, a) + PatternMatches(directory, names, b) + PatternMatches(directory, names, c)
      + PatternMatches(directory, names, d) + PatternMatches(directory, names, e)
  {
    var pm := (p: string) => PatternMatches(directory, names, p);
    assert CandidatesFor(directory, names, [a]) == pm(a) by {
      CandidatesForSnoc(directory, names, [], a);
      assert [] + [a] == [a];
    }
    assert CandidatesFor(directory, names, [a, b]) == pm(a) + pm(b) by {
      CandidatesForSnoc(directory, names, [a], b);
      assert [a] + [b] == [a, b];
    }
    assert CandidatesFor(directory, names, [a, b, c]) == pm(a) + pm(b) + pm(c) by {
      CandidatesForSnoc(directory, names, [a, b], c);
      assert [a, b] + [c] == [a, b, c];
    }
    assert CandidatesFor(directory, names, [a, b, c, d]) == pm(a) + pm(b) + pm(c) + pm(d) by {
      CandidatesForSnoc(directory, names, [a, b, c], d);
      assert [a, b, c] + [d] == [a, b, c, d];
    }
    CandidatesForSnoc(directory, names, [a, b, c, d], e);
    assert [a, b, c, d] + [e] == [a, b, c, d, e];
  }

  /** The upper-case forms of the five patterns, as `ext.upper()` gives them. */
  lemma UpperPatterns()
    ensures Upper("*.jpg") == "*.JPG" && Upper("*.jpeg") == "*.JPEG" && Upper("*.png") == "*.PNG"
    ensures Upper("*.gif") == "*.GIF" && Upper("*.bmp") == "*.BMP"
  {
  }

  /**
   * The candidate list spelled out: for ".jpg", ".jpeg", ".png", ".gif" and ".bmp" in
   * this order, the lower-case pattern's matches followed by the upper-case pattern's.
   */
  lemma CandidatesByExtension(directory: string, names: seq<string>)
    ensures Candidates(directory, names) ==
      PatternMatches(directory, names, "*.jpg") + PatternMatches(directory, names, "*.jpeg")
      + PatternMatches(directory, names, "*.png") + PatternMatches(directory, names, "*.gif")
      + PatternMatches(directory, names, "*.bmp")
    ensures PatternMatches(directory, names, "*.jpg") == Glob(directory, names, "*.jpg") + Glob(directory, names, "*.JPG")
    ensures PatternMatches(directory, names, "*.jpeg") == Glob(directory, names, "*.jpeg") + Glob(directory, names, "*.JPEG")
    ensures PatternMatches(directory, names, "*.png") == Glob(directory, names, "*.png") + Glob(directory, names, "*.PNG")
    ensures PatternMatches(directory, names, "*.gif") == Glob(directory, names, "*.gif") + Glob(directory, names, "*.GIF")
    ensures PatternMatches(directory, names, "*.bmp") == Glob(directory, names, "*.bmp") + Glob(directory, names, "*.BMP")
  {
    UpperPatterns();
    CandidatesForFive(directory, names, "*.jpg", "*.jpeg", "*.png", "*.gif", "*.bmp");
  }

  /** The endings the candidate list accepts: each extension all in lower case or all in upper case. */
  predicate HasImageSuffix(n: string) {
    || EndsWith(n, ".jpg") || EndsWith(n, ".JPG") || EndsWith(n, ".jpeg") || EndsWith(n, ".JPEG")
    || EndsWith(n, ".png") || EndsWith(n, ".PNG") || EndsWith(n, ".gif") || EndsWith(n, ".GIF")
    || EndsWith(n, ".bmp") || EndsWith(n, ".BMP")
  }

  lemma PatternMatchMembers(directory: string, names: seq<string>, pattern: string, p: string)
    ensures p in PatternMatches(directory, names, pattern) <==>
      exists n :: n in names && (StarMatch(n, pattern) || StarMatch(n, Upper(pattern))) && p == Join(directory, n)
  {
    GlobMembers(directory, names, pattern, p);
    GlobMembers(directory, names, Upper(pattern), p);
  }

  /** A pattern "*" + suffix matches exactly the names ending in that suffix. */
  lemma StarMatchSuffix(n: string, suffix: string)
    ensures StarMatch(n, "*" + suffix) <==> EndsWith(n, suffix)
  {
    assert ("*" + suffix)[1..] == suffix;
  }

  /** A path is a candidate exactly when it joins the directory to a listed name with an image ending. */
  lemma CandidateMembers(directory: string, names: seq<string>, p: string)
    ensures p in Candidates(directory, names) <==> exists n :: n in names && HasImageSuffix(n) && p == Join(directory, n)
  {
    CandidatesByExtension(directory, names);
    UpperPatterns();
    forall n ensures
      && (StarMatch(n, "*.jpg") <==> EndsWith(n, ".jpg")) && (StarMatch(n, "*.JPG") <==> EndsWith(n, ".JPG"))
      && (StarMatch(n, "*.jpeg") <==> EndsWith(n, ".jpeg")) && (StarMatch(n, "*.JPEG") <==> EndsWith(n, ".JPEG"))
      && (StarMatch(n, "*.png") <==> EndsWith(n, ".png")) && (StarMatch(n, "*.PNG") <==> EndsWith(n, ".PNG"))
      && (StarMatch(n, "*.gif") <==> EndsWith(n, ".gif")) && (StarMatch(n, "*.GIF") <==> EndsWith(n, ".GIF"))
      && (StarMatch(n, "*.bmp") <==> EndsWith(n, ".bmp")) && (StarMatch(n, "*.BMP") <==> EndsWith(n, ".BMP"))
    {
      assert "*.jpg" == "*" + ".jpg" && "*.JPG" == "*" + ".JPG";
      assert "*.jpeg" == "*" + ".jpeg" && "*.JPEG" == "*" + ".JPEG";
      assert "*.png" == "*" + ".png" && "*.PNG" == "*" + ".PNG";
      assert "*.gif" == "*" + ".gif" && "*.GIF" == "*" + ".GIF";
      assert "*.bmp" == "*" + ".bmp" && "*.BMP" == "*" + ".BMP";
      StarMatchSuffix(n, ".jpg"); StarMatchSuffix(n, ".JPG");
      StarMatchSuffix(n, ".jpeg"); StarMatchSuffix(n, ".JPEG");
      StarMatchSuffix(n, ".png"); StarMatchSuffix(n, ".PNG");
      StarMatchSuffix(n, ".gif"); StarMatchSuffix(n, ".GIF");
      StarMatchSuffix(n, ".bmp"); StarMatchSuffix(n, ".BMP");
    }
    PatternMatchMembers(directory, names, "*.jpg", p);
    PatternMatchMembers(directory, names, "*.jpeg", p);
    PatternMatchMembers(directory, names, "*.png", p);
    PatternMatchMembers(directory, names, "*.gif", p);
    PatternMatchMembers(directory, names, "*.bmp", p);
  }

  /** Joining a fixed directory to names without '/' is one-to-one. */
  lemma JoinInjective(directory: string, n: string, m: string)
    requires '/' !in n && '/' !in m
    requires Join(directory, n) == Join(directory, m)
    ensures n == m
  {
    var d := if directory == [] || directory[|directory| - 1] == '/' then directory else directory + "/";
    assert n != [] ==> n[0] != '/';
    assert m != [] ==> m[0] != '/';
    assert Join(directory, n) == d + n && Join(directory, m) == d + m;
    assert n == (d + n)[|d|..] && m == (d + m)[|d|..];
  }

  /**
   * A listed name whose ending is not one of the ten accepted ones, such as "IMG.Jpg" with
   * its mixed-case extension, never enters the candidate list.
   */
  lemma UnmatchedNameNeverListed(directory: string, names: seq<string>, n: string)
    requires forall m :: m in names ==> '/' !in m
    requires '/' !in n && !HasImageSuffix(n)
    ensures Join(directory, n) !in Candidates(directory, names)
  {
    CandidateMembers(directory, names, Join(directory, n));
    if Join(directory, n) in Candidates(directory, names) {
      var m :| m in names && HasImageSuffix(m) && Join(directory, n) == Join(directory, m);
      JoinInjective(directory, n, m);
      assert false;
    }
  }

  /** "IMG_7.Jpg" has no accepted ending, while "IMG_7.JPG" does. */
  lemma MixedCaseExtension()
    ensures !HasImageSuffix("IMG_7.Jpg")
    ensures HasImageSuffix("IMG_7.JPG")
  {
    var n := "IMG_7.Jpg";
    assert n[|n| - 4..] == ".Jpg";
    assert n[|n| - 5..] == "7.Jpg";
    assert "IMG_7.JPG"[5..] == ".JPG";
  }

  /** One output file: the image it comes from and the value `json.dump` writes into it. */
  datatype Output = Output(image: string, data: Json) {
    /** The file written: `get_json_filename(image)`, in the working directory. */
    function Name(): string {
      JsonFileName(image)
    }
  }

  /** Two images of one directory that differ only in their extension, such as `a.jpg` and
      `a.png` (or `a.jpg` and `a.JPG`), are written to the same output file, so the later
      write replaces the earlier one while the tally counts both. */
  lemma OutputNamesCollide(dir: string, stem: string, e1: string, e2: string, v: Json, w: Json)
    requires '/' !in stem && HasNonDot(stem)
    requires '/' !in e1 && '.' !in e1 && '/' !in e2 && '.' !in e2
    ensures Output(dir + "/" + stem + "." + e1, v).Name() == stem + ".json"
    ensures Output(dir + "/" + stem + "." + e2, w).Name() == stem + ".json"
  {
    assert dir + "/" + stem + "." + e1 == dir + "/" + (stem + "." + e1);
    assert dir + "/" + stem + "." + e2 == dir + "/" + (stem + "." + e2);
    JsonFileNameIgnoresDirectory(dir, stem + "." + e1);
    JsonFileNameIgnoresDirectory(dir, stem + "." + e2);
    JsonFileNameDropsLastExtension(stem, e1);
    JsonFileNameDropsLastExtension(stem, e2);
  }

  /** How the per-file loop ends: it went through every file, or an exception from one file ended it. */
  datatype Run = Finished(writes: seq<Output>, successes: nat) | Aborted(writes: seq<Output>, failedOn: string)

  /** `process_all_receipts(directory)`: no images, a full pass with its tally, or an escaped exception. */
  datatype BatchReport =
    | NoImages
    | Completed(writes: seq<Output>, successes: nat, total: nat)
    | Crashed(writes: seq<Output>, failedOn: string)

  /** `extract_receipt_data(image_path)` as the batch and single-file modes call it: with no explicit key. */
  function Attempts(w: World): string -> Outcome {
    path => ExtractReceiptData(w, path, None)
  }

  /** The extraction of `path` returns a value that Python treats as true. */
  predicate Succeeds(attempt: string -> Outcome, path: string) {
    attempt(path).Returned? && attempt(path).data.Some? && Truthy(attempt(path).data.value)
  }

  /** What one file adds to the outputs: its ".json" file when the extraction succeeds, nothing otherwise. */
  function Written(attempt: string -> Outcome, path: string): seq<Output> {
    if Succeeds(attempt, path) then [Output(path, attempt(path).data.value)] else []
  }

  /** The per-file loop from some point on, given what has been written and counted so far. */
  function RunFrom(attempt: string -> Outcome, files: seq<string>, writes: seq<Output>, successes: nat): Run
    decreases |files|
  {
    if files == [] then Finished(writes, successes)
    else if attempt(files[0]).Raised? then Aborted(writes, files[0])
    else RunFrom(attempt, files[1..], writes + Written(attempt, files[0]), successes + |Written(attempt, files[0])|)
  }

  /** `process_all_receipts` once the candidate list is known. */
  function BatchOver(attempt: string -> Outcome, files: seq<string>): BatchReport {
    if files == [] then NoImages
    else match RunFrom(attempt, files, [], 0)
      case Finished(writes, successes) => Completed(writes, successes, |files|)
      case Aborted(writes, path) => Crashed(writes, path)
  }

  /** `process_all_receipts(directory)`: build the list, then attempt every file, counting the truthy results. */
  method ProcessAllReceipts(w: World, directory: string) returns (report: BatchReport)
    ensures report == BatchOver(Attempts(w), Candidates(directory, w.listDir(directory)))
  {
    var imageFiles := CollectImageFiles(directory, w.listDir(directory));
    if imageFiles == [] {
      return NoImages;
    }
    ghost var attempt := Attempts(w);
    var writes: seq<Output> := [];
    var successfulCount: nat := 0;
    var i := 0;
    assert imageFiles[0..] == imageFiles;
    while i < |imageFiles|
      invariant 0 <= i <= |imageFiles|
      invariant RunFrom(attempt, imageFiles[i..], writes, successfulCount) == RunFrom(attempt, imageFiles, [], 0)
    {
      var imagePath := imageFiles[i];
      var extracted := ExtractReceiptData(w, imagePath, None);
      if extracted.Raised? {
        return Crashed(writes, imagePath);
      }
      RunFromStep(attempt, imageFiles, i, writes, successfulCount, extracted);
      if extracted.data.Some? && Truthy(extracted.data.value) {
        writes := writes + [Output(imagePath, extracted.data.value)];
        successfulCount := successfulCount + 1;
      }
      i := i + 1;
    }
    report := Completed(writes, successfulCount, |imageFiles|);
  }

  /** One turn of the loop over a file that returns: it writes and counts that file's output exactly when the result is truthy. */
  lemma RunFromStep(attempt: string -> Outcome, files: seq<string>, i: nat, writes: seq<Output>, successes: nat, e: Outcome)
    requires i < |files| && attempt(files[i]) == e && e.Returned?
    ensures e.data.Some? && Truthy(e.data.value) ==>
      (RunFrom(attempt, files[i..], writes, successes)
        == RunFrom(attempt, files[i + 1..], writes + [Output(files[i], e.data.value)], successes + 1))
    ensures !(e.data.Some? && Truthy(e.data.value)) ==>
      (RunFrom(attempt, files[i..], writes, successes) == RunFrom(attempt, files[i + 1..], writes, successes))
  {
    assert files[i..][0] == files[i] && files[i..][1..] == files[i + 1..];
    assert writes + [] == writes;
  }

  /** The outputs of the files of the list, in list order. */
  function Successes(attempt: string -> Outcome, files: seq<string>): (r: seq<Output>)
    ensures |r| <= |files|
  {
    if files == [] then [] else Written(attempt, files[0]) + Successes(attempt, files[1..])
  }

  /** An output is among the successes exactly when some file of the list succeeds with it. */
  lemma {:induction false} SuccessMembers(attempt: string -> Outcome, files: seq<string>, o: Output)
    ensures o in Successes(attempt, files) <==>
      exists f :: f in files && Succeeds(attempt, f) && o == Output(f, attempt(f).data.value)
  {
    if files != [] {
      SuccessMembers(attempt, files[1..], o);
      assert forall f :: f in files <==> f == files[0] || f in files[1..];
    }
  }

  /** No file of the list lets an exception escape. */
  predicate NoneRaise(attempt: string -> Outcome, files: seq<string>) {
    forall f :: f in files ==> attempt(f).Returned?
  }

  /** When no file raises, the loop writes exactly the successes, in order, and counts them. */
  lemma {:induction false} RunFromCompletes(attempt: string -> Outcome, files: seq<string>, writes: seq<Output>, successes: nat)
    requires NoneRaise(attempt, files)
    ensures RunFrom(attempt, files, writes, successes)
      == Finished(writes + Successes(attempt, files), successes + |Successes(attempt, files)|)
  {
    if files == [] {
      assert writes + [] == writes;
    } else {
      var f, rest := files[0], files[1..];
      assert f in files;
      assert forall g :: g in rest ==> g in files;
      var h := Written(attempt, f);
      RunFromCompletes(attempt, rest, writes + h, successes + |h|);
      assert writes + h + Successes(attempt, rest) == writes + (h + Successes(attempt, rest));
    }
  }

  /**
   * When the file at index k is the first to raise, the loop stops there, having written
   * the successes of the files before it.
   */
  lemma {:induction false} RunFromAborts(attempt: string -> Outcome, files: seq<string>, k: nat, writes: seq<Output>, successes: nat)
    requires k < |files| && NoneRaise(attempt, files[..k]) && attempt(files[k]).Raised?
    ensures RunFrom(attempt, files, writes, successes) == Aborted(writes + Successes(attempt, files[..k]), files[k])
  {
    if k == 0 {
      assert files[..0] == [];
      assert writes + [] == writes;
    } else {
      var before, rest := files[..k], files[1..];
      assert before[0] == files[0] && before[0] in before;
      assert rest[..k - 1] == before[1..] && rest[k - 1] == files[k];
      assert forall g :: g in before[1..] ==> g in before;
      var h := Written(attempt, files[0]);
      RunFromAborts(attempt, rest, k - 1, writes + h, successes + |h|);
      assert writes + h + Successes(attempt, before[1..]) == writes + (h + Successes(attempt, before[1..]));
    }
  }

  /**
   * A batch whose candidates all return: one output per truthy result, in list order,
   * a tally equal to the number of outputs, and a total equal to the number of
   * candidates, so the tally never exceeds the total.
   */
  lemma BatchCompletes(attempt: string -> Outcome, files: seq<string>)
    requires files != [] && NoneRaise(attempt, files)
    ensures BatchOver(attempt, files) == Completed(Successes(attempt, files), |Successes(attempt, files)|, |files|)
    ensures BatchOver(attempt, files).successes <= BatchOver(attempt, files).total
  {
    RunFromCompletes(attempt, files, [], 0);
  }

  /** The batch stops at the first candidate whose exception escapes, keeping what was written before it. */
  lemma BatchCrashes(attempt: string -> Outcome, files: seq<string>, k: nat)
    requires k < |files| && NoneRaise(attempt, files[..k]) && attempt(files[k]).Raised?
    ensures BatchOver(attempt, files) == Crashed(Successes(attempt, files[..k]), files[k])
  {
    RunFromAborts(attempt, files, k, [], 0);
  }

  /** Single-file mode: an escaped exception, a falsy result, or one saved output. */
  datatype SingleOutcome = SingleCrashed | SingleFailed | SingleSaved(output: Output)

  /** The single-file branch of `main` for a path that exists. */
  function ProcessSingle(attempt: string -> Outcome, imagePath: string): SingleOutcome {
    match attempt(imagePath)
    case Raised => SingleCrashed
    case Returned(data) =>
      if data.Some? && Truthy(data.value) then SingleSaved(Output(imagePath, data.value)) else SingleFailed
  }

  /** A file handled on its own ends as the batch over that one file does, and saves the same output under the same name. */
  lemma SingleAgreesWithBatch(attempt: string -> Outcome, imagePath: string)
    ensures ProcessSingle(attempt, imagePath).SingleCrashed? <==> BatchOver(attempt, [imagePath]) == Crashed([], imagePath)
    ensures ProcessSingle(attempt, imagePath).SingleFailed? <==> BatchOver(attempt, [imagePath]) == Completed([], 0, 1)
    ensures ProcessSingle(attempt, imagePath).SingleSaved? <==>
      BatchOver(attempt, [imagePath]) == Completed(Written(attempt, imagePath), 1, 1)
    ensures ProcessSingle(attempt, imagePath).SingleSaved? ==>
      Written(attempt, imagePath) == [ProcessSingle(attempt, imagePath).output]
  {
    var run := RunFrom(attempt, [imagePath], [], 0);
    assert [imagePath][0] == imagePath && [imagePath][1..] == [];
    if attempt(imagePath).Returned? {
      var h := Written(attempt, imagePath);
      assert run == RunFrom(attempt, [], [] + h, 0 + |h|);
      assert [] + h == h;
    }
  }

  /** What `main` of the extractor does. */
  datatype CliOutcome =
    | KeyMissing
    | FileNotFound(path: string)
    | SingleFile(outcome: SingleOutcome)
    | AllFiles(report: BatchReport)

  /** `os.environ.get("GROQ_API_KEY")` is set and non-empty. */
  predicate HasEnvKey(w: World) {
    w.envKey.Some? && w.envKey.value != ""
  }

  /**
   * `main`: without a key nothing is processed; with arguments only `argv[1]` is used,
   * processed when it exists and reported missing otherwise; without arguments the
   * batch runs on ".".
   */
  method ExtractorCli(w: World, argv: seq<string>) returns (outcome: CliOutcome)
    ensures outcome.KeyMissing? <==> !HasEnvKey(w)
    ensures HasEnvKey(w) && |argv| > 1 && w.pathExists(argv[1]) ==> outcome == SingleFile(ProcessSingle(Attempts(w), argv[1]))
    ensures HasEnvKey(w) && |argv| > 1 && !w.pathExists(argv[1]) ==> outcome == FileNotFound(argv[1])
    ensures HasEnvKey(w) && |argv| <= 1 ==> outcome == AllFiles(BatchOver(Attempts(w), Candidates(".", w.listDir("."))))
  {
    if !HasEnvKey(w) {
      return KeyMissing;
    }
    if |argv| > 1 {
      var imagePath := argv[1];
      if w.pathExists(imagePath) {
        outcome := SingleFile(ProcessSingle(Attempts(w), imagePath));
      } else {
        outcome := FileNotFound(imagePath);
      }
    } else {
      var report := ProcessAllReceipts(w, ".");
      outcome := AllFiles(report);
    }
  }
}
