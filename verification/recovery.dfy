/**
 * How `extract_receipt_data` turns the model's reply text into a value: parse the
 * whole reply, and only if that raises `json.JSONDecodeError`, parse the text matched
 * by the regular expression `\{[\s\S]*\}`. Any other exception of the first parse,
 * any failure of the second parse, and a reply with no match reach the outer handler
 * and yield no value. The JSON parser is a parameter (`parse`).
 */
module Recovery {
  import opened Wrappers
  import opened Text
  import opened JsonValue

  /**
   * The end of one `json.loads` call: a value, `json.JSONDecodeError`, or another
   * exception, such as `RecursionError` on a deeply nested text or the `ValueError`
   * for an integer with too many digits.
   */
  datatype Loaded = Parsed(value: Json) | DecodeError | OtherError {
    /** The value, or None for either exception. */
    function AsOption(): Option<Json> {
      if Parsed? then Some(value) else None
    }
  }

  /** `s[i..j]` is a match of `\{[\s\S]*\}`: it starts with '{', ends with '}' and has both. */
  predicate BraceMatch(s: string, i: int, j: int) {
    0 <= i && i + 2 <= j <= |s| && s[i] == '{' && s[j - 1] == '}'
  }

  /** `re.search(r'\{[\s\S]*\}', s).group()`: from the first '{' to the last '}', if that '}' comes later. */
  function BraceSpan(s: string): (r: Option<string>)
    ensures r.Some? ==> 2 <= |r.value| <= |s| && r.value[0] == '{' && r.value[|r.value| - 1] == '}'
  {
    var open := FirstIndexOf(s, '{');
    var close := LastIndexOf(s, '}');
    if 0 <= open < close then Some(s[open..close + 1]) else None
  }

  /**
   * BraceSpan is what `re.search` returns for the pattern: there is a result exactly
   * when some match exists, and the result is the match that starts leftmost and,
   * among those, is longest; in fact every other match lies inside it.
   */
  lemma BraceSpanIsLeftmostLongestMatch(s: string)
    ensures BraceSpan(s).Some? <==> exists i, j :: BraceMatch(s, i, j)
    ensures BraceSpan(s).Some? ==>
      exists i, j :: BraceMatch(s, i, j) && BraceSpan(s).value == s[i..j]
        && forall i', j' :: BraceMatch(s, i', j') ==> i <= i' && j' <= j
  {
    var open := FirstIndexOf(s, '{');
    var close := LastIndexOf(s, '}');
    forall i', j' | BraceMatch(s, i', j') ensures 0 <= open <= i' && j' <= close + 1 {
    }
    if 0 <= open < close {
      assert BraceMatch(s, open, close + 1);
    }
  }

  /**
   * Stages 1 and 2 of `extract_receipt_data`: the whole reply if it parses; its brace
   * span if the whole reply raises `json.JSONDecodeError`; nothing otherwise, since
   * every other exception ends in the outer handler that returns None.
   */
  function Recover(reply: string, parse: string -> Loaded): (r: Option<Json>)
    ensures parse(reply).OtherError? ==> r.None?
    ensures parse(reply).DecodeError? && BraceSpan(reply).None? ==> r.None?
  {
    match parse(reply)
    case Parsed(v) => Some(v)
    case OtherError => None
    case DecodeError =>
      match BraceSpan(reply)
      case Some(span) => parse(span).AsOption()
      case None => None
  }

  /**
   * What recovery promises: a reply that parses is returned unchanged, whatever kind of
   * value it is; a reply whose parse raises anything but a decoding error gives no value;
   * otherwise a value comes only from parsing a brace-delimited match, and a reply that
   * holds no '{' ... '}' pair gives no value.
   */
  lemma RecoverSpec(reply: string, parse: string -> Loaded)
    ensures parse(reply).Parsed? ==> Recover(reply, parse) == Some(parse(reply).value)
    ensures parse(reply).OtherError? ==> Recover(reply, parse).None?
    ensures Recover(reply, parse).Some? && !parse(reply).Parsed? ==>
      parse(reply).DecodeError? &&
      exists i, j :: BraceMatch(reply, i, j) && parse(reply[i..j]) == Parsed(Recover(reply, parse).value)
    ensures parse(reply).DecodeError? && (forall i, j :: !BraceMatch(reply, i, j)) ==> Recover(reply, parse).None?
  {
    BraceSpanIsLeftmostLongestMatch(reply);
  }

  /** In such a reply, a match that covers the object text is the object text itself. */
  lemma MatchAroundObject(prose: string, obj: string, trailer: string, i: int, j: int)
    requires '{' !in prose && '}' !in trailer
    requires BraceMatch(prose + obj + trailer, i, j)
    requires i <= |prose| && |prose| + |obj| <= j
    ensures i == |prose| && j == |prose| + |obj|
  {
    var s := prose + obj + trailer;
    var b := |prose| + |obj|;
    assert forall k :: 0 <= k < |prose| ==> s[k] == prose[k];
    assert forall k :: b <= k < |s| ==> s[k] == trailer[k - b];
  }

  /** The span of prose without '{', one object text, and a trailer without '}' is that object text. */
  lemma NoisyReplySpan(prose: string, obj: string, trailer: string)
    requires '{' !in prose && '}' !in trailer
    requires 2 <= |obj| && obj[0] == '{' && obj[|obj| - 1] == '}'
    ensures BraceSpan(prose + obj + trailer) == Some(obj)
  {
    var s := prose + obj + trailer;
    FirstOpenOfNoisyReply(prose, obj, trailer);
    LastCloseOfNoisyReply(prose, obj, trailer);
    assert s[|prose|..|prose| + |obj|] == obj;
  }

  /** In such a reply the first '{' is the object's. */
  lemma FirstOpenOfNoisyReply(prose: string, obj: string, trailer: string)
    requires '{' !in prose && obj != [] && obj[0] == '{'
    ensures FirstIndexOf(prose + obj + trailer, '{') == |prose|
  {
    var s := prose + obj + trailer;
    assert s[|prose|] == '{';
    assert s[..|prose|] == prose;
  }

  /** In such a reply the last '}' is the object's. */
  lemma LastCloseOfNoisyReply(prose: string, obj: string, trailer: string)
    requires '}' !in trailer && obj != [] && obj[|obj| - 1] == '}'
    ensures LastIndexOf(prose + obj + trailer, '}') == |prose| + |obj| - 1
  {
    var s := prose + obj + trailer;
    var b := |prose| + |obj|;
    assert s[b - 1] == '}';
    assert forall k :: b <= k < |s| ==> s[k] == trailer[k - b];
  }

  /**
   * A reply made of prose without '{', one object text, and a trailer without '}',
   * whose whole text raises a decoding error, is recovered as exactly that object text parses.
   */
  lemma RecoverFromNoisyReply(prose: string, obj: string, trailer: string, parse: string -> Loaded)
    requires '{' !in prose && '}' !in trailer
    requires 2 <= |obj| && obj[0] == '{' && obj[|obj| - 1] == '}'
    requires parse(prose + obj + trailer).DecodeError?
    ensures Recover(prose + obj + trailer, parse) == parse(obj).AsOption()
  {
    NoisyReplySpan(prose, obj, trailer);
  }

  /** Two objects in one reply, with text between them, make one span from the first
      object's opening brace to the second object's closing brace. */
  lemma TwoObjectsMakeOneSpan(prose: string, o1: string, mid: string, o2: string, trailer: string)
    requires '{' !in prose && '}' !in trailer
    requires o1 != [] && o1[0] == '{' && o1[|o1| - 1] == '}'
    requires o2 != [] && o2[0] == '{' && o2[|o2| - 1] == '}'
    ensures BraceSpan(prose + o1 + mid + o2 + trailer) == Some(o1 + mid + o2)
  {
    var obj := o1 + mid + o2;
    assert prose + o1 + mid + o2 + trailer == prose + obj + trailer;
    assert obj[0] == o1[0] && obj[|obj| - 1] == o2[|o2| - 1];
    NoisyReplySpan(prose, obj, trailer);
  }
}
