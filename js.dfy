/**
 * The few JavaScript built-ins the tracker's logic leans on, stated exactly
 * enough for the server and the client to be reasoned about:
 *  - `Number(x)` together with the `|| fallback` idiom,
 *  - `String.prototype.trim`,
 *  - `Array.prototype.join`.
 */
module JsBuiltins {

  datatype Option<T> = None | Some(value: T)

  /**
   * A JavaScript number as the tracker meets it: either `NaN` (what
   * `Number(x)` yields for a missing or non-numeric input) or an integer.
   */
  datatype Number = NaN | Int(value: int)

  /** `Number(x) || fallback`: `NaN` and `0` are falsy and give the fallback. */
  function OrElse(n: Number, fallback: int): (r: int)
    ensures n.Int? && n.value != 0 ==> r == n.value
    ensures n.NaN? || n.value == 0 ==> r == fallback
    ensures r != 0 || fallback == 0
  {
    match n
    case NaN => fallback
    case Int(v) => if v != 0 then v else fallback
  }

  /**
   * The characters `trim` removes: ECMAScript's WhiteSpace production (tab,
   * vertical tab, form feed, space, no-break space, byte order mark and the
   * other "Zs" space separators) and its LineTerminator production.
   */
  predicate IsWhitespace(c: char) {
    c == '\U{0009}' || c == '\U{000B}' || c == '\U{000C}' || c == ' ' ||
    c == '\U{00A0}' || c == '\U{FEFF}' || c == '\U{1680}' ||
    ('\U{2000}' <= c <= '\U{200A}') ||
    c == '\U{202F}' || c == '\U{205F}' || c == '\U{3000}' ||
    c == '\U{000A}' || c == '\U{000D}' || c == '\U{2028}' || c == '\U{2029}'
  }

  predicate AllWhitespace(s: string) {
    forall k :: 0 <= k < |s| ==> IsWhitespace(s[k])
  }

  /** Drops the leading whitespace: the result is the longest suffix that starts with a non-blank. */
  function TrimStart(s: string): (r: string)
    ensures |r| <= |s| && r == s[|s| - |r|..]
    ensures AllWhitespace(s[..|s| - |r|])
    ensures r == [] || !IsWhitespace(r[0])
  {
    if s == [] || !IsWhitespace(s[0]) then s
    else
      var r := TrimStart(s[1..]);
      assert s[1..][..|s| - 1 - |r|] == s[1..|s| - |r|];
      r
  }

  /** Drops the trailing whitespace: the result is the longest prefix that ends with a non-blank. */
  function TrimEnd(s: string): (r: string)
    ensures |r| <= |s| && r == s[..|r|]
    ensures AllWhitespace(s[|r|..])
    ensures r == [] || !IsWhitespace(r[|r| - 1])
  {
    if s == [] || !IsWhitespace(s[|s| - 1]) then s
    else
      var r := TrimEnd(s[..|s| - 1]);
      assert s[|r|..] == s[..|s| - 1][|r|..] + [s[|s| - 1]];
      r
  }

  /** `s.trim()`. */
  function Trim(s: string): (r: string)
  {
    TrimEnd(TrimStart(s))
  }

  /**
   * What `trim` promises: a contiguous piece of the input, bounded by
   * non-blanks, with only whitespace cut away on either side; and it is
   * empty exactly when the input is blank.
   */
  lemma TrimSpec(s: string)
    ensures var r := Trim(s);
      exists lead :: 0 <= lead <= |s| - |r| && r == s[lead..lead + |r|] &&
        AllWhitespace(s[..lead]) && AllWhitespace(s[lead + |r|..])
    ensures Trim(s) == [] <==> AllWhitespace(s)
    ensures Trim(s) != [] ==> !IsWhitespace(Trim(s)[0]) && !IsWhitespace(Trim(s)[|Trim(s)| - 1])
  {
    var t := TrimStart(s);
    var r := TrimEnd(t);
    var lead := |s| - |t|;
    assert r == s[lead..lead + |r|];
    assert s[lead + |r|..] == t[|r|..];
    if r == [] {
      // a non-empty t would start with a non-blank, which TrimEnd keeps
      assert t == [];
      assert s[..lead] == s;
    } else {
      assert !IsWhitespace(s[lead]);
    }
  }

  /** `parts.join(sep)`. */
  function Join(parts: seq<string>, sep: string): (r: string)
    ensures |parts| == 1 ==> r == parts[0]
    ensures |parts| > 0 ==> parts[0] <= r
    decreases |parts|
  {
    if |parts| == 0 then ""
    else if |parts| == 1 then parts[0]
    else parts[0] + sep + Join(parts[1..], sep)
  }

  function TotalLength(parts: seq<string>): (n: nat) {
    if parts == [] then 0 else |parts[0]| + TotalLength(parts[1..])
  }

  /** Every part is kept and one separator stands between each two neighbours. */
  lemma {:induction false} JoinLength(parts: seq<string>, sep: string)
    requires |parts| > 0
    ensures |Join(parts, sep)| == TotalLength(parts) + (|parts| - 1) * |sep|
    decreases |parts|
  {
    if |parts| > 1 {
      JoinLength(parts[1..], sep);
    }
  }

  /** Joining one more part appends the separator and that part. */
  lemma {:induction false} JoinSnoc(parts: seq<string>, last: string, sep: string)
    requires |parts| > 0
    ensures Join(parts + [last], sep) == Join(parts, sep) + sep + last
    decreases |parts|
  {
    if |parts| == 1 {
      assert parts + [last] == [parts[0], last];
      assert [parts[0], last][1..] == [last];
    } else {
      assert (parts + [last])[1..] == parts[1..] + [last];
      JoinSnoc(parts[1..], last, sep);
    }
  }
}
