/**
 * POSIX path handling used to name output files: `os.path.basename`,
 * `os.path.splitext`, `os.path.join`, and `get_json_filename` built from them.
 */
module PathNames {
  import opened Text

  /** `os.path.basename(p)`: everything after the last '/'. */
  function BaseName(p: string): (r: string)
    ensures '/' !in r
    ensures |r| <= |p| && r == p[|p| - |r|..]
    ensures r == p || p[|p| - |r| - 1] == '/'
  {
    p[LastIndexOf(p, '/') + 1..]
  }

  /** Some character of `s` is not a '.'. */
  predicate HasNonDot(s: string) {
    exists i :: 0 <= i < |s| && s[i] != '.'
  }

  /**
   * `os.path.splitext(p)[0]`: the extension starts at the last '.', provided that dot
   * lies after the last '/' and some character between that '/' and the dot is not a '.'
   * (so ".hidden" and "..x" have no extension); otherwise the whole path is kept.
   */
  function SplitExtRoot(p: string): (r: string)
    ensures r <= p
  {
    var sep := LastIndexOf(p, '/');
    var dot := LastIndexOf(p, '.');
    if dot > sep && HasNonDot(p[sep + 1..dot]) then p[..dot] else p
  }

  /** `get_json_filename(p)`: the base name without its extension, followed by ".json". */
  function JsonFileName(p: string): (r: string)
    ensures '/' !in r
    ensures EndsWith(r, ".json")
  {
    var stem := SplitExtRoot(BaseName(p));
    assert forall i :: 0 <= i < |stem| ==> stem[i] == BaseName(p)[i];
    stem + ".json"
  }

  /** `os.path.join(dir, name)` for two components. */
  function Join(dir: string, name: string): (r: string)
    ensures |name| <= |r| && r[|r| - |name|..] == name
  {
    if name != [] && name[0] == '/' then name
    else if dir == [] || dir[|dir| - 1] == '/' then dir + name
    else dir + "/" + name
  }

  /** The index of the dot that starts the extension of a name without '/'. */
  predicate ExtensionDot(name: string, k: int) {
    && 0 <= k < |name|
    && name[k] == '.'
    && (forall i :: k < i < |name| ==> name[i] != '.')
    && HasNonDot(name[..k])
  }

  /**
   * The stem of a file name: cut at the extension dot when there is one, the
   * whole name otherwise ("a.tar.gz" has stem "a.tar", ".hidden" has stem ".hidden").
   */
  lemma StemSpec(name: string)
    requires '/' !in name
    ensures forall k :: ExtensionDot(name, k) ==> SplitExtRoot(name) == name[..k]
    ensures (forall k :: !ExtensionDot(name, k)) ==> SplitExtRoot(name) == name
  {
    var dot := LastIndexOf(name, '.');
    RootWithoutSlash(name);
    forall k | ExtensionDot(name, k) ensures dot == k {
    }
    if dot >= 0 && HasNonDot(name[..dot]) {
      assert ExtensionDot(name, dot);
    }
  }

  /** Without a '/', the extension search covers the whole name. */
  lemma RootWithoutSlash(name: string)
    requires '/' !in name
    ensures var dot := LastIndexOf(name, '.');
      SplitExtRoot(name) == if dot >= 0 && HasNonDot(name[..dot]) then name[..dot] else name
  {
    assert LastIndexOf(name, '/') == -1;
    assert name[0..] == name;
  }

  /** Two suffixes of `p` that satisfy the contract of BaseName are the same string. */
  lemma BaseNameUnique(p: string, r1: string, r2: string)
    requires '/' !in r1 && |r1| <= |p| && r1 == p[|p| - |r1|..] && (r1 == p || p[|p| - |r1| - 1] == '/')
    requires '/' !in r2 && |r2| <= |p| && r2 == p[|p| - |r2|..] && (r2 == p || p[|p| - |r2| - 1] == '/')
    ensures r1 == r2
  {
  }

  /** The directory part of an image path never affects the name of its output file. */
  lemma JsonFileNameIgnoresDirectory(dir: string, name: string)
    ensures JsonFileName(dir + "/" + name) == JsonFileName(name)
  {
    var p := dir + "/" + name;
    var b := BaseName(name);
    assert p[|p| - |b|..] == b;
    assert b != name ==> p[|p| - |b| - 1] == name[|name| - |b| - 1];
    assert b == name ==> p[|p| - |b| - 1] == '/';
    BaseNameUnique(p, BaseName(p), b);
  }

  /**
   * Naming an output file after an output file gives the same name again, as long
   * as the stem holds some character other than '.'.
   */
  lemma JsonFileNameIdempotent(p: string)
    requires HasNonDot(SplitExtRoot(BaseName(p)))
    ensures JsonFileName(JsonFileName(p)) == JsonFileName(p)
  {
    var stem := SplitExtRoot(BaseName(p));
    var n := JsonFileName(p);
    assert n == stem + ".json";
    assert LastIndexOf(n, '/') == -1;
    assert BaseName(n) == n;
    StemOfJsonName(stem);
  }

  /** The stem of `stem + ".json"` is `stem` when it holds a character other than '.'. */
  lemma StemOfJsonName(stem: string)
    requires '/' !in stem && HasNonDot(stem)
    ensures SplitExtRoot(stem + ".json") == stem
  {
    var n := stem + ".json";
    assert n[|stem|] == '.';
    assert n[..|stem|] == stem;
    forall i | |stem| < i < |n| ensures n[i] != '.' {
      assert n[i] == ".json"[i - |stem|];
    }
    assert ExtensionDot(n, |stem|);
    StemSpec(n);
  }

  /**
   * An image path ending in '/' has an empty stem, so its output is named ".json", and
   * naming an output after that name again appends ".json" once more: idempotence needs a stem.
   */
  lemma JsonFileNameNotIdempotentOnEmptyStem(p: string)
    requires p != [] && p[|p| - 1] == '/'
    ensures JsonFileName(p) == ".json"
    ensures JsonFileName(JsonFileName(p)) == JsonFileName(p) + ".json"
  {
    assert BaseName(p) == [];
    var n := JsonFileName(p);
    assert n == ".json";
    JsonFileNameOfDotFile(n);
  }

  /** A name without '/' is its own base name. */
  lemma BaseNameOfPlainName(name: string)
    requires '/' !in name
    ensures BaseName(name) == name
  {
    assert LastIndexOf(name, '/') == -1;
    assert name[0..] == name;
  }

  /** A file name with an extension is named after the part before its extension dot. */
  lemma JsonFileNameWithExtension(name: string, k: int)
    requires '/' !in name && ExtensionDot(name, k)
    ensures JsonFileName(name) == name[..k] + ".json"
  {
    BaseNameOfPlainName(name);
    StemSpec(name);
  }

  /** A file name without an extension is named after the whole name. */
  lemma JsonFileNameWithoutExtension(name: string)
    requires '/' !in name && forall k :: !ExtensionDot(name, k)
    ensures JsonFileName(name) == name + ".json"
  {
    BaseNameOfPlainName(name);
    StemSpec(name);
  }

  /**
   * Only the last extension goes: `stem.ext` is named `stem.json` whenever `ext` holds
   * no '.' and the stem some other character ("a.tar.gz" gives "a.tar.json").
   */
  lemma JsonFileNameDropsLastExtension(stem: string, ext: string)
    requires '/' !in stem && '/' !in ext && '.' !in ext && HasNonDot(stem)
    ensures JsonFileName(stem + "." + ext) == stem + ".json"
  {
    var n := stem + "." + ext;
    assert n[|stem|] == '.';
    assert n[..|stem|] == stem;
    forall i | |stem| < i < |n| ensures n[i] != '.' {
      assert n[i] == ext[i - |stem| - 1];
    }
    assert '/' !in n;
    JsonFileNameWithExtension(n, |stem|);
  }

  /**
   * A name whose only '.' is its first character, such as ".hidden", has no extension,
   * so its output is the whole name followed by ".json".
   */
  lemma JsonFileNameOfDotFile(name: string)
    requires '/' !in name && forall i :: 0 < i < |name| ==> name[i] != '.'
    ensures JsonFileName(name) == name + ".json"
  {
    forall k ensures !ExtensionDot(name, k) {
      if 0 <= k < |name| && k == 0 {
        assert name[..k] == [];
      }
    }
    JsonFileNameWithoutExtension(name);
  }
}
