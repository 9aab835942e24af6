/**
 * The API-key tool: masking a key for display, `view_api_key` (the first key line of
 * `.env`, else the environment), `set_api_key` (the key line first, then the other
 * lines right-stripped with blank ones dropped), `remove_api_key` (the other lines
 * only, and only when a key line was there) and the command dispatch of `main`.
 * The `.env` file is its text, or None when it does not exist.
 */
module KeyTool {
  import opened Wrappers
  import opened Text
  import opened EnvFile

  /** The prefix that marks the key line. */
  const KeyPrefix: string := "GROQ_API_KEY="

  /** `line.startswith("GROQ_API_KEY=")`. */
  predicate IsKeyLine(line: string) {
    KeyPrefix <= line
  }

  /** `"*" * n`. */
  function Stars(n: nat): (r: string)
    ensures |r| == n && forall i :: 0 <= i < n ==> r[i] == '*'
  {
    seq(n, _ => '*')
  }

  /**
   * The masked form of a key: as long as the key, keeping the first four and the last
   * four characters of a key longer than 8 and hiding every other character behind '*'.
   */
  function Mask(key: string): (m: string)
    ensures |m| == |key|
    ensures |key| > 8 ==> m[..4] == key[..4] && m[|key| - 4..] == key[|key| - 4..]
    ensures |key| > 8 ==> forall i :: 4 <= i < |key| - 4 ==> m[i] == '*'
    ensures |key| <= 8 ==> forall i :: 0 <= i < |key| ==> m[i] == '*'
  {
    if |key| > 8 then key[..4] + Stars(|key| - 8) + key[|key| - 4..] else Stars(|key|)
  }

  /** The mask tells apart only keys that differ in length or, beyond 8 characters, in their first or last four. */
  lemma MaskRevealsOnlyEnds(k1: string, k2: string)
    requires |k1| == |k2|
    requires |k1| > 8 ==> k1[..4] == k2[..4] && k1[|k1| - 4..] == k2[|k2| - 4..]
    ensures Mask(k1) == Mask(k2)
  {
    var m1, m2 := Mask(k1), Mask(k2);
    forall i | 0 <= i < |k1| ensures m1[i] == m2[i] {
      if |k1| > 8 && i < 4 {
        assert m1[i] == m1[..4][i] && m2[i] == m2[..4][i];
      } else if |k1| > 8 && i >= |k1| - 4 {
        assert m1[i] == m1[|k1| - 4..][i - (|k1| - 4)] && m2[i] == m2[|k1| - 4..][i - (|k1| - 4)];
      }
    }
  }

  /** `line.strip().split("=", 1)[1]` for a line that starts with the prefix. */
  function KeyValue(line: string): string
    requires IsKeyLine(line)
  {
    var s := Strip(line);
    var e := FirstIndexOf(s, '=');
    if e == -1 then [] else s[e + 1..]
  }

  /** The prefix holds exactly one '=', as its last character, and starts with a non-space. */
  lemma PrefixShape()
    ensures |KeyPrefix| == 13 && KeyPrefix[12] == '=' && '=' !in KeyPrefix[..12]
    ensures !IsSpace(KeyPrefix[0]) && !IsSpace(KeyPrefix[12])
  {
    assert KeyPrefix[..12] == "GROQ_API_KEY";
  }

  /** `rstrip()` keeps every character up to the last non-space one. */
  lemma RStripKeeps(s: string, i: nat)
    requires i < |s| && !IsSpace(s[i])
    ensures |RStrip(s)| > i && RStrip(s)[..i + 1] == s[..i + 1]
  {
  }

  /**
   * The value of a key line is the line with trailing whitespace removed, minus the
   * 13-character prefix; an '=' after the prefix stays in the value.
   */
  lemma KeyLineValue(line: string)
    requires IsKeyLine(line)
    ensures |RStrip(line)| >= |KeyPrefix| && KeyValue(line) == RStrip(line)[|KeyPrefix|..]
  {
    PrefixShape();
    var r := RStrip(line);
    assert line[..13] == KeyPrefix;
    RStripKeeps(line, 12);
    assert r[..13] == KeyPrefix;
    assert r[0] == KeyPrefix[0];
    assert Strip(line) == r;
    var e := FirstIndexOf(r, '=');
    assert r[..12] == KeyPrefix[..12];
    assert r[12] == '=';
    assert e == 12;
  }

  /** `for line in f: if line.startswith(...)`: the index of the first key line, or -1. */
  function FirstKeyLine(lines: seq<string>): (r: int)
    ensures -1 <= r < |lines|
    ensures r == -1 <==> forall j :: 0 <= j < |lines| ==> !IsKeyLine(lines[j])
    ensures 0 <= r ==> IsKeyLine(lines[r]) && forall j :: 0 <= j < r ==> !IsKeyLine(lines[j])
  {
    if lines == [] then -1
    else if IsKeyLine(lines[0]) then 0
    else
      var k := FirstKeyLine(lines[1..]);
      assert forall j :: 1 <= j < |lines| ==> lines[j] == lines[1..][j - 1];
      if k == -1 then -1 else k + 1
  }

  /** The lines of `.env`; a missing file has none. */
  function LinesOf(envFile: Option<string>): seq<string> {
    match envFile
    case None => []
    case Some(text) => ReadLines(text)
  }

  /** What `view_api_key` reports. */
  datatype KeyView = FromFile(masked: string) | FromEnvironment(masked: string) | NoKey

  /** The report of `view_api_key` for a `.env` file and a `GROQ_API_KEY` environment value. */
  function KeyViewOf(envFile: Option<string>, envVar: Option<string>): KeyView {
    var lines := LinesOf(envFile);
    var i := FirstKeyLine(lines);
    if i >= 0 then FromFile(Mask(KeyValue(lines[i])))
    else if envVar.Some? && envVar.value != "" then FromEnvironment(Mask(envVar.value))
    else NoKey
  }

  /**
   * `view_api_key`: the first key line of `.env` wins, and the environment is read only
   * when there is no such line.
   */
  method ViewApiKey(envFile: Option<string>, envVar: Option<string>) returns (view: KeyView)
    ensures view == KeyViewOf(envFile, envVar)
  {
    if envFile.Some? {
      var lines := ReadLines(envFile.value);
      var i := 0;
      while i < |lines|
        invariant 0 <= i <= |lines|
        invariant forall j :: 0 <= j < i ==> !IsKeyLine(lines[j])
      {
        if IsKeyLine(lines[i]) {
          assert FirstKeyLine(lines) == i;
          return FromFile(Mask(KeyValue(lines[i])));
        }
        i := i + 1;
      }
    }
    if envVar.Some? && envVar.value != "" {
      view := FromEnvironment(Mask(envVar.value));
    } else {
      view := NoKey;
    }
  }

  /**
   * The priority of `view_api_key`: the file's first key line decides, showing its
   * right-stripped value after the prefix, masked; otherwise a non-empty environment
   * value, masked; an empty or missing one counts as no key.
   */
  lemma ViewPriority(envFile: Option<string>, envVar: Option<string>, j: nat)
    requires j < |LinesOf(envFile)| && IsKeyLine(LinesOf(envFile)[j])
    requires forall m :: 0 <= m < j ==> !IsKeyLine(LinesOf(envFile)[m])
    ensures |RStrip(LinesOf(envFile)[j])| >= |KeyPrefix|
    ensures KeyViewOf(envFile, envVar) == FromFile(Mask(RStrip(LinesOf(envFile)[j])[|KeyPrefix|..]))
  {
    assert FirstKeyLine(LinesOf(envFile)) == j;
    KeyLineValue(LinesOf(envFile)[j]);
  }

  /** Without a key line the environment decides, and an empty value is no key. */
  lemma ViewFallsBackToEnvironment(envFile: Option<string>, envVar: Option<string>)
    requires forall j :: 0 <= j < |LinesOf(envFile)| ==> !IsKeyLine(LinesOf(envFile)[j])
    ensures KeyViewOf(envFile, envVar).FromEnvironment? <==> envVar.Some? && envVar.value != ""
    ensures KeyViewOf(envFile, envVar).FromEnvironment? ==> KeyViewOf(envFile, envVar).masked == Mask(envVar.value)
    ensures !KeyViewOf(envFile, envVar).FromFile?
  {
  }

  /** `other_vars`: every line that does not start with the prefix, right-stripped, in order. */
  function OtherVars(lines: seq<string>): (r: seq<string>)
    ensures |r| <= |lines|
  {
    if lines == [] then []
    else (if IsKeyLine(lines[0]) then [] else [RStrip(lines[0])]) + OtherVars(lines[1..])
  }

  /** The values that pass `if var.strip()`, in order. */
  function NonBlank(vs: seq<string>): (r: seq<string>)
    ensures |r| <= |vs|
  {
    if vs == [] then []
    else (if Strip(vs[0]) != "" then [vs[0]] else []) + NonBlank(vs[1..])
  }

  /** The lines that `set_api_key` and `remove_api_key` write back, without their "\n". */
  function Kept(envFile: Option<string>): seq<string> {
    NonBlank(OtherVars(LinesOf(envFile)))
  }

  /** The text of `.env` after `set_api_key(newKey)`. */
  function SetContent(envFile: Option<string>, newKey: string): string {
    KeyPrefix + newKey + "\n" + Terminated(Kept(envFile))
  }

  /** What `remove_api_key` does: nothing without a file or without a key line, otherwise a rewrite. */
  datatype RemoveOutcome = NoEnvFile | NoKeyInFile | KeyRemoved(content: string)

  /** The outcome of `remove_api_key`. */
  function RemoveResult(envFile: Option<string>): RemoveOutcome {
    if envFile.None? then NoEnvFile
    else if FirstKeyLine(LinesOf(envFile)) == -1 then NoKeyInFile
    else KeyRemoved(Terminated(Kept(envFile)))
  }

  /** One line of the reading loop: a key line adds nothing, any other line adds itself right-stripped. */
  lemma OtherVarsStep(lines: seq<string>, i: nat)
    requires i < |lines|
    ensures OtherVars(lines[i..]) == (if IsKeyLine(lines[i]) then [] else [RStrip(lines[i])]) + OtherVars(lines[i + 1..])
  {
    assert lines[i..][1..] == lines[i + 1..];
  }

  /** Appending one value and then the rest regroups freely. */
  lemma AppendOne(xs: seq<string>, x: string, rest: seq<string>)
    ensures xs + ([x] + rest) == xs + [x] + rest
  {
  }

  /** The reading loop shared by `set_api_key` and `remove_api_key`: collect the other lines, noting whether a key line was seen. */
  method CollectOtherVars(lines: seq<string>) returns (otherVars: seq<string>, found: bool)
    ensures otherVars == OtherVars(lines)
    ensures found <==> FirstKeyLine(lines) >= 0
  {
    otherVars := [];
    found := false;
    var i := 0;
    while i < |lines|
      invariant 0 <= i <= |lines|
      invariant otherVars + OtherVars(lines[i..]) == OtherVars(lines)
      invariant found <==> exists j :: 0 <= j < i && IsKeyLine(lines[j])
    {
      OtherVarsStep(lines, i);
      if IsKeyLine(lines[i]) {
        assert [] + OtherVars(lines[i + 1..]) == OtherVars(lines[i + 1..]);
        found := true;
      } else {
        AppendOne(otherVars, RStrip(lines[i]), OtherVars(lines[i + 1..]));
        otherVars := otherVars + [RStrip(lines[i])];
      }
      i := i + 1;
    }
    assert otherVars + [] == otherVars;
  }

  /** One value of `if var.strip()`: a non-blank value is kept, a blank one dropped. */
  lemma NonBlankStep(vars: seq<string>, j: nat)
    requires j < |vars|
    ensures NonBlank(vars[j..]) == (if Strip(vars[j]) != "" then [vars[j]] else []) + NonBlank(vars[j + 1..])
  {
    assert vars[j..][1..] == vars[j + 1..];
  }

  /** Writing a line after `r` and then the text `t` regroups freely. */
  lemma AppendLine(r: string, v: string, t: string)
    ensures r + (v + "\n" + t) == r + v + "\n" + t
  {
  }

  /** The writing loop shared by both: append each non-blank value and a "\n". */
  method WriteNonBlank(content: string, vars: seq<string>) returns (r: string)
    ensures r == content + Terminated(NonBlank(vars))
  {
    r := content;
    var j := 0;
    while j < |vars|
      invariant 0 <= j <= |vars|
      invariant r + Terminated(NonBlank(vars[j..])) == content + Terminated(NonBlank(vars))
    {
      NonBlankStep(vars, j);
      if Strip(vars[j]) != "" {
        TerminatedCons(vars[j], NonBlank(vars[j + 1..]));
        AppendLine(r, vars[j], Terminated(NonBlank(vars[j + 1..])));
        r := r + vars[j] + "\n";
      } else {
        assert [] + NonBlank(vars[j + 1..]) == NonBlank(vars[j + 1..]);
      }
      j := j + 1;
    }
    assert r + [] == r;
  }

  /** `set_api_key(newKey)`: the new text of `.env`. */
  method SetApiKey(envFile: Option<string>, newKey: string) returns (content: string)
    ensures content == SetContent(envFile, newKey)
  {
    var otherVars: seq<string> := [];
    if envFile.Some? {
      var lines := ReadLines(envFile.value);
      var found;
      otherVars, found := CollectOtherVars(lines);
    }
    content := WriteNonBlank(KeyPrefix + newKey + "\n", otherVars);
  }

  /** `remove_api_key()`: the file is rewritten only when a key line was found. */
  method RemoveApiKey(envFile: Option<string>) returns (outcome: RemoveOutcome)
    ensures outcome == RemoveResult(envFile)
  {
    if envFile.None? {
      return NoEnvFile;
    }
    var lines := ReadLines(envFile.value);
    var otherVars, found := CollectOtherVars(lines);
    if found {
      var content := WriteNonBlank("", otherVars);
      outcome := KeyRemoved(content);
    } else {
      outcome := NoKeyInFile;
    }
  }

  /** A value as the two commands write it back: no line break, not a key line, not ending in whitespace. */
  predicate Clean(v: string) {
    NoBreak(v) && !IsKeyLine(v) && (v == [] || !IsSpace(v[|v| - 1]))
  }

  /** A character absent from the joined lines is absent from each line. */
  lemma {:induction false} ConcatExcludes(lines: seq<string>, c: char)
    requires c !in Concat(lines)
    ensures forall l :: l in lines ==> c !in l
  {
    if lines != [] {
      ConcatExcludes(lines[1..], c);
      assert forall l :: l in lines ==> l == lines[0] || l in lines[1..];
    }
  }

  /** The lines read from any text are well split and hold no "\r". */
  lemma ReadLinesShape(text: string)
    ensures WellSplit(ReadLines(text))
    ensures forall l :: l in ReadLines(text) ==> '\r' !in l
  {
    ConcatExcludes(ReadLines(text), '\r');
  }

  /** Right-stripping a line read from a file that is not a key line gives a clean value. */
  lemma StrippedLineIsClean(line: string)
    requires IsLine(line) && '\r' !in line && !IsKeyLine(line)
    ensures Clean(RStrip(line))
  {
    var r := RStrip(line);
    forall p | 0 <= p < |r| ensures r[p] != '\n' {
      if p < |line| - 1 {
        assert line[..|line| - 1][p] == line[p];
      }
    }
  }

  /** Every collected value of lines read from a file is clean. */
  lemma {:induction false} OtherVarsClean(lines: seq<string>)
    requires forall l :: l in lines ==> IsLine(l) && '\r' !in l
    ensures forall v :: v in OtherVars(lines) ==> Clean(v)
  {
    if lines != [] {
      OtherVarsClean(lines[1..]);
      if !IsKeyLine(lines[0]) {
        StrippedLineIsClean(lines[0]);
      }
    }
  }

  /** The values `if var.strip()` lets through are exactly the non-blank ones. */
  lemma {:induction false} NonBlankMembers(vs: seq<string>, v: string)
    ensures v in NonBlank(vs) <==> v in vs && Strip(v) != ""
  {
    if vs != [] {
      NonBlankMembers(vs[1..], v);
      assert v in vs <==> v == vs[0] || v in vs[1..];
    }
  }

  /** Filtering values that are all non-blank keeps every one of them. */
  lemma {:induction false} NonBlankKeepsAll(vs: seq<string>)
    requires forall v :: v in vs ==> Strip(v) != ""
    ensures NonBlank(vs) == vs
  {
    if vs != [] {
      NonBlankKeepsAll(vs[1..]);
      assert vs == [vs[0]] + vs[1..];
    }
  }

  /** The values written back are clean and non-empty. */
  lemma KeptClean(envFile: Option<string>)
    ensures forall v :: v in Kept(envFile) ==> Clean(v) && v != [] && Strip(v) != ""
  {
    var lines := LinesOf(envFile);
    if envFile.Some? {
      ReadLinesShape(envFile.value);
    }
    assert forall l :: l in lines ==> IsLine(l) && '\r' !in l by {
      forall l | l in lines ensures IsLine(l) && '\r' !in l {
        var i :| 0 <= i < |lines| && lines[i] == l;
      }
    }
    OtherVarsClean(lines);
    forall v | v in Kept(envFile) ensures Clean(v) && v != [] && Strip(v) != "" {
      NonBlankMembers(OtherVars(lines), v);
    }
  }

  /**
   * The lines `set_api_key` and `remove_api_key` write back are the lines of the old
   * file that do not start with the prefix, right-stripped, that are not blank.
   */
  lemma {:induction false} KeptMembers(envFile: Option<string>, v: string)
    ensures v in Kept(envFile) <==>
      Strip(v) != "" && exists line :: line in LinesOf(envFile) && !IsKeyLine(line) && v == RStrip(line)
  {
    NonBlankMembers(OtherVars(LinesOf(envFile)), v);
    OtherVarsMembers(LinesOf(envFile), v);
  }

  /** A collected value is the right-stripped form of a line that is not a key line. */
  lemma {:induction false} OtherVarsMembers(lines: seq<string>, v: string)
    ensures v in OtherVars(lines) <==> exists line :: line in lines && !IsKeyLine(line) && v == RStrip(line)
  {
    if lines != [] {
      OtherVarsMembers(lines[1..], v);
      assert forall line :: line in lines <==> line == lines[0] || line in lines[1..];
    }
  }

  /** A clean value followed by "\n" is not a key line, and right-stripping gives the value back. */
  lemma WrittenLine(v: string)
    requires Clean(v) && v != []
    ensures !IsKeyLine(v + "\n") && RStrip(v + "\n") == v
  {
    PrefixShape();
    RStripAppend(v, "\n");
    assert RStrip("\n") == RStrip("\n"[..0]);
    assert v + [] == v;
  }

  /** Reading back written clean values collects exactly those values again. */
  lemma {:induction false} OtherVarsOfWritten(vs: seq<string>)
    requires forall v :: v in vs ==> Clean(v) && v != []
    ensures OtherVars(WithNewlines(vs)) == vs
  {
    if vs != [] {
      var w := WithNewlines(vs);
      assert w[0] == vs[0] + "\n" && w[1..] == WithNewlines(vs[1..]);
      WrittenLine(vs[0]);
      OtherVarsOfWritten(vs[1..]);
      assert vs == [vs[0]] + vs[1..];
    }
  }

  /** The written text of a key line followed by values is that line's text, "\n", and the values' text. */
  lemma TerminatedCons(x: string, vs: seq<string>)
    ensures Terminated([x] + vs) == x + "\n" + Terminated(vs)
  {
    assert ([x] + vs)[1..] == vs;
  }

  /**
   * After `set_api_key(k)` for a key without line breaks, the file reads as the key line
   * followed by the kept lines, in order.
   */
  lemma SetLines(envFile: Option<string>, k: string)
    requires NoBreak(k)
    ensures LinesOf(Some(SetContent(envFile, k))) == [KeyPrefix + k + "\n"] + WithNewlines(Kept(envFile))
  {
    var kept := Kept(envFile);
    KeptClean(envFile);
    TerminatedCons(KeyPrefix + k, kept);
    assert SetContent(envFile, k) == Terminated([KeyPrefix + k] + kept);
    assert NoBreak(KeyPrefix + k) by {
      assert NoBreak(KeyPrefix);
    }
    var all := [KeyPrefix + k] + kept;
    assert forall i :: 0 <= i < |all| ==> NoBreak(all[i]) by {
      forall i | 0 <= i < |all| ensures NoBreak(all[i]) {
        if i > 0 {
          assert all[i] == kept[i - 1] && all[i] in kept;
        }
      }
    }
    ReadTerminated(all);
    assert WithNewlines(all)[1..] == WithNewlines(kept);
  }

  /** After `set_api_key(k)` for a key without line breaks, exactly one line, the first, starts with the prefix. */
  lemma SetExactlyOneKeyLine(envFile: Option<string>, k: string)
    requires NoBreak(k)
    ensures |LinesOf(Some(SetContent(envFile, k)))| >= 1
    ensures IsKeyLine(LinesOf(Some(SetContent(envFile, k)))[0])
    ensures forall i :: 1 <= i < |LinesOf(Some(SetContent(envFile, k)))| ==> !IsKeyLine(LinesOf(Some(SetContent(envFile, k)))[i])
  {
    SetLines(envFile, k);
    KeptClean(envFile);
    var kept := Kept(envFile);
    var lines := LinesOf(Some(SetContent(envFile, k)));
    assert KeyPrefix <= KeyPrefix + k + "\n";
    forall i | 1 <= i < |lines| ensures !IsKeyLine(lines[i]) {
      assert lines[i] == kept[i - 1] + "\n" && kept[i - 1] in kept;
      WrittenLine(kept[i - 1]);
    }
  }

  /** Setting a key keeps the same other lines. */
  lemma KeptAfterSet(envFile: Option<string>, k: string)
    requires NoBreak(k)
    ensures Kept(Some(SetContent(envFile, k))) == Kept(envFile)
  {
    var kept := Kept(envFile);
    SetLines(envFile, k);
    KeptClean(envFile);
    var lines := [KeyPrefix + k + "\n"] + WithNewlines(kept);
    assert KeyPrefix <= KeyPrefix + k + "\n";
    assert lines[1..] == WithNewlines(kept);
    OtherVarsOfWritten(kept);
    assert OtherVars(lines) == kept;
    NonBlankKeepsAll(kept);
  }

  /** `set_api_key(k)` twice leaves the same file as once, for a key without line breaks. */
  lemma SetIdempotent(envFile: Option<string>, k: string)
    requires NoBreak(k)
    ensures SetContent(Some(SetContent(envFile, k)), k) == SetContent(envFile, k)
  {
    KeptAfterSet(envFile, k);
  }

  /** Right-stripping the key line `set_api_key(k)` writes strips only the key. */
  lemma RStripSetLine(k: string)
    ensures RStrip(KeyPrefix + k + "\n") == KeyPrefix + RStrip(k)
  {
    PrefixShape();
    assert KeyPrefix + k + "\n" == KeyPrefix + (k + "\n");
    RStripAppend(KeyPrefix, k + "\n");
    assert (k + "\n")[..|k|] == k;
  }

  /** The key line `set_api_key(k)` writes holds the value `k`, right-stripped. */
  lemma SetKeyLineValue(k: string)
    ensures IsKeyLine(KeyPrefix + k + "\n") && KeyValue(KeyPrefix + k + "\n") == RStrip(k)
  {
    var line := KeyPrefix + k + "\n";
    assert KeyPrefix <= line;
    KeyLineValue(line);
    RStripSetLine(k);
    assert (KeyPrefix + RStrip(k))[|KeyPrefix|..] == RStrip(k);
  }

  /** After `set_api_key(k)` for a key without line breaks, `view` shows the masked key, right-stripped. */
  lemma ViewAfterSet(envFile: Option<string>, k: string, envVar: Option<string>)
    requires NoBreak(k)
    ensures KeyViewOf(Some(SetContent(envFile, k)), envVar) == FromFile(Mask(RStrip(k)))
  {
    SetLines(envFile, k);
    SetKeyLineValue(k);
    assert FirstKeyLine(LinesOf(Some(SetContent(envFile, k)))) == 0;
  }

  /**
   * When `remove_api_key` rewrites the file, the new file reads as the kept lines, in
   * order, and no line of it starts with the prefix.
   */
  lemma RemoveLines(envFile: Option<string>)
    requires RemoveResult(envFile).KeyRemoved?
    ensures LinesOf(Some(RemoveResult(envFile).content)) == WithNewlines(Kept(envFile))
    ensures FirstKeyLine(LinesOf(Some(RemoveResult(envFile).content))) == -1
  {
    var kept := Kept(envFile);
    KeptClean(envFile);
    assert forall i :: 0 <= i < |kept| ==> NoBreak(kept[i]) by {
      forall i | 0 <= i < |kept| ensures NoBreak(kept[i]) {
        assert kept[i] in kept;
      }
    }
    ReadTerminated(kept);
    var lines := WithNewlines(kept);
    forall i | 0 <= i < |lines| ensures !IsKeyLine(lines[i]) {
      assert kept[i] in kept;
      WrittenLine(kept[i]);
    }
  }

  /** A second `remove` finds no key line and leaves the file as the first one wrote it. */
  lemma RemoveTwiceIsNoop(envFile: Option<string>)
    requires RemoveResult(envFile).KeyRemoved?
    ensures RemoveResult(Some(RemoveResult(envFile).content)) == NoKeyInFile
  {
    RemoveLines(envFile);
  }

  /** After a removal, `view` falls back to the environment as if there were no file. */
  lemma ViewAfterRemove(envFile: Option<string>, envVar: Option<string>)
    requires RemoveResult(envFile).KeyRemoved?
    ensures KeyViewOf(Some(RemoveResult(envFile).content), envVar) == KeyViewOf(None, envVar)
  {
    RemoveLines(envFile);
  }

  /** What `main` of the key tool does. */
  datatype ToolOutcome =
    | Usage
    | Viewed(view: KeyView)
    | MissingNewKey
    | KeySet
    | Removal(result: RemoveOutcome)
    | UnknownCommand(command: string)

  /**
   * `main`: usage without a command; otherwise the lower-cased command picks `view`,
   * `set` (which needs a key argument) or `remove`, and anything else is reported.
   * The file changes only on `set` with a key and on a `remove` that found a key line.
   */
  method KeyToolCli(argv: seq<string>, envFile: Option<string>, envVar: Option<string>)
    returns (outcome: ToolOutcome, newEnvFile: Option<string>)
    ensures |argv| < 2 ==> outcome == Usage && newEnvFile == envFile
    ensures |argv| >= 2 && Lower(argv[1]) == "view" ==> outcome == Viewed(KeyViewOf(envFile, envVar)) && newEnvFile == envFile
    ensures |argv| == 2 && Lower(argv[1]) == "set" ==> outcome == MissingNewKey && newEnvFile == envFile
    ensures |argv| >= 3 && Lower(argv[1]) == "set" ==> outcome == KeySet && newEnvFile == Some(SetContent(envFile, argv[2]))
    ensures |argv| >= 2 && Lower(argv[1]) == "remove" ==> outcome == Removal(RemoveResult(envFile))
    ensures |argv| >= 2 && Lower(argv[1]) == "remove" && RemoveResult(envFile).KeyRemoved? ==>
      newEnvFile == Some(RemoveResult(envFile).content)
    ensures |argv| >= 2 && Lower(argv[1]) == "remove" && !RemoveResult(envFile).KeyRemoved? ==> newEnvFile == envFile
    ensures |argv| >= 2 && Lower(argv[1]) !in {"view", "set", "remove"} ==>
      outcome == UnknownCommand(Lower(argv[1])) && newEnvFile == envFile
  {
    newEnvFile := envFile;
    if |argv| < 2 {
      return Usage, newEnvFile;
    }
    var command := Lower(argv[1]);
    if command == "view" {
      var view := ViewApiKey(envFile, envVar);
      outcome := Viewed(view);
    } else if command == "set" {
      if |argv| < 3 {
        outcome := MissingNewKey;
      } else {
        var content := SetApiKey(envFile, argv[2]);
        outcome, newEnvFile := KeySet, Some(content);
      }
    } else if command == "remove" {
      var result := RemoveApiKey(envFile);
      if result.KeyRemoved? {
        newEnvFile := Some(result.content);
      }
      outcome := Removal(result);
    } else {
      outcome := UnknownCommand(command);
    }
  }
}
