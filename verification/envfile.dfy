/**
 * The `.env` file as the key tool reads and writes it. Opening a file in text mode
 * turns "\r\n" and a lone "\r" into "\n" (universal newlines); iterating over it yields
 * lines that each end just after a "\n", the last one possibly without one. Writing
 * `f"{v}\n"` for each value in turn puts one value per line.
 */
module EnvFile {
  import opened Text

  /** Universal-newline translation: "\r\n" and a lone "\r" both become "\n". */
  function Translate(s: string): (r: string)
    ensures '\r' !in r
    ensures '\r' !in s ==> r == s
    decreases |s|
  {
    if s == [] then []
    else if s[0] == '\r' then "\n" + Translate(if |s| > 1 && s[1] == '\n' then s[2..] else s[1..])
    else [s[0]] + Translate(s[1..])
  }

  /** A line as iteration yields it: not empty, with a "\n" at most as its last character. */
  predicate IsLine(l: string) {
    l != [] && '\n' !in l[..|l| - 1]
  }

  /** The line ends with its "\n". */
  predicate EndsLine(l: string) {
    l != [] && l[|l| - 1] == '\n'
  }

  /** Lines as iteration yields them: every line but the last ends with "\n". */
  predicate WellSplit(lines: seq<string>) {
    forall i :: 0 <= i < |lines| ==> IsLine(lines[i]) && (i < |lines| - 1 ==> EndsLine(lines[i]))
  }

  /** The lines joined back together. */
  function Concat(lines: seq<string>): string {
    if lines == [] then [] else lines[0] + Concat(lines[1..])
  }

  /** Iterating over text: a cut after every "\n". */
  function SplitLines(s: string): (lines: seq<string>)
    ensures WellSplit(lines)
    ensures Concat(lines) == s
    decreases |s|
  {
    if s == [] then []
    else
      var k := FirstIndexOf(s, '\n');
      if k == -1 then [s]
      else
        var head, rest := s[..k + 1], SplitLines(s[k + 1..]);
        assert head[..k] == s[..k];
        assert ([head] + rest)[1..] == rest;
        assert s == head + s[k + 1..];
        assert forall i :: 1 <= i < |rest| + 1 ==> ([head] + rest)[i] == rest[i - 1];
        [head] + rest
  }

  /** The lines of a file's text, as `for line in f` yields them. */
  function ReadLines(s: string): seq<string> {
    SplitLines(Translate(s))
  }

  /** A text that starts with a complete line splits into that line and the lines of the rest. */
  lemma SplitCons(h: string, t: string)
    requires IsLine(h) && EndsLine(h)
    ensures SplitLines(h + t) == [h] + SplitLines(t)
  {
    var s := h + t;
    var k := FirstIndexOf(s, '\n');
    assert s[|h| - 1] == '\n';
    assert s[..|h| - 1] == h[..|h| - 1];
    assert k == |h| - 1;
    assert s[..k + 1] == h && s[k + 1..] == t;
  }

  /** A last line without its "\n" holds no "\n" at all, so it splits into itself. */
  lemma SplitLast(h: string)
    requires IsLine(h) && !EndsLine(h)
    ensures SplitLines(h) == [h]
  {
    assert h == h[..|h| - 1] + [h[|h| - 1]];
    assert '\n' !in h;
  }

  /** Splitting undoes joining: well-formed lines are recovered from their concatenation. */
  lemma {:induction false} SplitConcat(lines: seq<string>)
    requires WellSplit(lines)
    ensures SplitLines(Concat(lines)) == lines
  {
    if lines != [] {
      var h, rest := lines[0], lines[1..];
      assert IsLine(h);
      if EndsLine(h) {
        assert WellSplit(rest) by {
          forall i | 0 <= i < |rest| ensures IsLine(rest[i]) && (i < |rest| - 1 ==> EndsLine(rest[i])) {
            assert rest[i] == lines[i + 1];
          }
        }
        SplitConcat(rest);
        SplitCons(h, Concat(rest));
        assert lines == [h] + rest;
      } else {
        assert |lines| == 1;
        SplitLast(h);
        assert lines == [h];
      }
    }
  }

  /** The text written by `f.write(f"{v}\n")` for each value in turn. */
  function Terminated(vs: seq<string>): string {
    if vs == [] then [] else vs[0] + "\n" + Terminated(vs[1..])
  }

  /** Each value followed by "\n". */
  function WithNewlines(vs: seq<string>): (r: seq<string>)
    ensures |r| == |vs| && forall i :: 0 <= i < |vs| ==> r[i] == vs[i] + "\n"
  {
    if vs == [] then [] else [vs[0] + "\n"] + WithNewlines(vs[1..])
  }

  /** Neither line-break character of text-mode reading occurs in `v`. */
  predicate NoBreak(v: string) {
    '\n' !in v && '\r' !in v
  }

  /** Written values are the concatenation of the values each followed by "\n", and carry no "\r" of their own. */
  lemma {:induction false} TerminatedConcat(vs: seq<string>)
    requires forall i :: 0 <= i < |vs| ==> NoBreak(vs[i])
    ensures Terminated(vs) == Concat(WithNewlines(vs))
    ensures '\r' !in Terminated(vs)
  {
    if vs != [] {
      assert forall i :: 0 <= i < |vs| - 1 ==> vs[1..][i] == vs[i + 1];
      TerminatedConcat(vs[1..]);
      assert WithNewlines(vs)[1..] == WithNewlines(vs[1..]);
      assert NoBreak(vs[0]);
    }
  }

  /** Values without line breaks, written one per line, are read back as the same values, each followed by "\n". */
  lemma ReadTerminated(vs: seq<string>)
    requires forall i :: 0 <= i < |vs| ==> NoBreak(vs[i])
    ensures ReadLines(Terminated(vs)) == WithNewlines(vs)
  {
    TerminatedConcat(vs);
    var lines := WithNewlines(vs);
    forall i | 0 <= i < |lines| ensures IsLine(lines[i]) && EndsLine(lines[i]) {
      assert lines[i][..|lines[i]| - 1] == vs[i];
    }
    SplitConcat(lines);
  }

  /** "a\r\nb\rc" is read as the three lines "a\n", "b\n" and "c". */
  lemma ReadCarriageReturns()
    ensures ReadLines("a\r\nb\rc") == ["a\n", "b\n", "c"]
  {
    var t := "a\nb\nc";
    assert Translate("a\r\nb\rc") == t by {
      assert Translate("c") == "c";
      assert Translate("\rc") == "\n" + Translate("c");
      assert Translate("b\rc") == "b" + Translate("\rc");
      assert Translate("\r\nb\rc") == "\n" + Translate("b\rc");
    }
    assert Concat(["a\n", "b\n", "c"]) == t by {
      assert Concat(["c"]) == "c";
      assert ["b\n", "c"][1..] == ["c"];
      assert ["a\n", "b\n", "c"][1..] == ["b\n", "c"];
    }
    SplitConcat(["a\n", "b\n", "c"]);
  }
}
