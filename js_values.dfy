/** The slice of JavaScript and document-store values that the modelled code inspects:
    field values of a stored document, JavaScript truthiness, and the string operations
    (`trim`, `toLowerCase`, `indexOf`, lexicographic comparison) it applies to them. */
module JsValues {

  datatype Option<+T> = None | Some(value: T) {
    /** `x || dflt` for a value that is either missing or present. */
    function GetOr(dflt: T): T {
      match this
      case Some(v) => v
      case None => dflt
    }
  }

  /** A field value. Numbers are integers; `Stamp` is an opaque server timestamp. A field
      that a document does not have reads as `Undefined`. */
  datatype Value =
    | Undefined
    | Null
    | Bool(b: bool)
    | Num(n: int)
    | Str(s: string)
    | Arr(items: seq<Value>)
    | Stamp(t: int)

  /** A stored document: its top-level fields. */
  type Doc = map<string, Value>

  /** Reading `doc.key`. */
  function Field(d: Doc, key: string): (v: Value)
    ensures key !in d ==> v == Undefined
  {
    if key in d then d[key] else Undefined
  }

  /** JavaScript truthiness: `undefined`, `null`, `false`, `0` and `""` are falsy. */
  predicate Truthy(v: Value) {
    match v
    case Undefined => false
    case Null => false
    case Bool(b) => b
    case Num(n) => n != 0
    case Str(s) => s != ""
    case Arr(_) => true
    case Stamp(_) => true
  }

  /** `v || dflt`. */
  function Or(v: Value, dflt: Value): (r: Value)
    ensures Truthy(v) ==> r == v
    ensures !Truthy(v) ==> r == dflt
  {
    if Truthy(v) then v else dflt
  }

  // ---------------------------------------------------------------------------
  // Strings (ASCII case mapping and ASCII white space)
  // ---------------------------------------------------------------------------

  predicate IsSpace(c: char) {
    c == ' ' || c == '\t' || c == '\n' || c == '\r' || c as int == 11 || c as int == 12
  }

  function LowerChar(c: char): char {
    if 'A' <= c <= 'Z' then (c as int + 32) as char else c
  }

  /** `s.toLowerCase()`, restricted to the ASCII letters. */
  function Lower(s: string): (r: string)
    ensures |r| == |s|
    ensures forall i :: 0 <= i < |s| ==> r[i] == LowerChar(s[i])
    ensures forall i :: 0 <= i < |s| ==> !('A' <= r[i] <= 'Z')
  {
    seq(|s|, i requires 0 <= i < |s| => LowerChar(s[i]))
  }

  function TrimStart(s: string): (r: string)
    ensures |r| <= |s| && r == s[|s| - |r|..]
    ensures r == [] || !IsSpace(r[0])
    ensures forall i :: 0 <= i < |s| - |r| ==> IsSpace(s[i])
    decreases |s|
  {
    if s != [] && IsSpace(s[0]) then TrimStart(s[1..]) else s
  }

  function TrimEnd(s: string): (r: string)
    ensures |r| <= |s| && r == s[..|r|]
    ensures r == [] || !IsSpace(r[|r| - 1])
    ensures forall i :: |r| <= i < |s| ==> IsSpace(s[i])
    decreases |s|
  {
    if s != [] && IsSpace(s[|s| - 1]) then TrimEnd(s[..|s| - 1]) else s
  }

  predicate AllSpace(s: string) {
    forall i :: 0 <= i < |s| ==> IsSpace(s[i])
  }

  /** `r` sits at `k` in `s` with only white space around it. */
  predicate TrimmedAt(r: string, s: string, k: int) {
    OccursAt(r, s, k) && AllSpace(s[..k]) && AllSpace(s[k + |r|..])
  }

  /** `s.trim()`: the infix left once the white space at both ends is removed. */
  function Trim(s: string): (r: string)
    ensures r == [] || (!IsSpace(r[0]) && !IsSpace(r[|r| - 1]))
    ensures exists k :: TrimmedAt(r, s, k)
  {
    var t := TrimStart(s);
    var r := TrimEnd(t);
    TrimParts(s, t, r);
    assert TrimmedAt(r, s, |s| - |t|);
    r
  }

  /** A suffix `t` of `s` after white space, and a prefix `r` of `t` before white space,
      leave `r` trimmed out of `s`. */
  lemma TrimParts(s: string, t: string, r: string)
    requires |t| <= |s| && t == s[|s| - |t|..]
    requires forall i :: 0 <= i < |s| - |t| ==> IsSpace(s[i])
    requires |r| <= |t| && r == t[..|r|]
    requires forall i :: |r| <= i < |t| ==> IsSpace(t[i])
    ensures TrimmedAt(r, s, |s| - |t|)
  {
    var k := |s| - |t|;
    assert s[k..k + |r|] == r;
    var head, tail := s[..k], s[k + |r|..];
    forall i | 0 <= i < |head| ensures IsSpace(head[i]) {
      assert head[i] == s[i];
    }
    forall i | 0 <= i < |tail| ensures IsSpace(tail[i]) {
      assert tail[i] == t[|r| + i];
    }
  }

  predicate IsPrefix(p: string, s: string) {
    |p| <= |s| && s[..|p|] == p
  }

  predicate OccursAt(needle: string, hay: string, i: int) {
    0 <= i <= |hay| - |needle| && hay[i..i + |needle|] == needle
  }

  /** `hay.indexOf(needle) !== -1`. */
  function Contains(hay: string, needle: string): (b: bool)
    ensures b <==> exists i :: OccursAt(needle, hay, i)
    decreases |hay|
  {
    if IsPrefix(needle, hay) then
      assert OccursAt(needle, hay, 0);
      true
    else if hay == [] then
      false
    else
      var b := Contains(hay[1..], needle);
      assert b ==> exists i :: OccursAt(needle, hay, i) by {
        if b {
          var i :| OccursAt(needle, hay[1..], i);
          assert hay[1..][i..i + |needle|] == hay[i + 1..i + 1 + |needle|];
          assert OccursAt(needle, hay, i + 1);
        }
      }
      assert (exists i :: OccursAt(needle, hay, i)) ==> b by {
        if exists i :: OccursAt(needle, hay, i) {
          var i :| OccursAt(needle, hay, i);
          assert i != 0;
          assert hay[1..][i - 1..i - 1 + |needle|] == hay[i..i + |needle|];
          assert OccursAt(needle, hay[1..], i - 1);
        }
      }
      b
  }

  /** String comparison `a <= b` as the document store performs it: lexicographic by
      character code. */
  predicate LexLe(a: string, b: string)
    decreases |a|
  {
    a == [] || (b != [] && (a[0] < b[0] || (a[0] == b[0] && LexLe(a[1..], b[1..]))))
  }

  lemma {:induction false} LexLeRefl(a: string)
    ensures LexLe(a, a)
    decreases |a|
  {
    if a != [] {
      LexLeRefl(a[1..]);
    }
  }

  /** Any two strings compare one way or the other. */
  lemma {:induction false} LexLeTotal(a: string, b: string)
    ensures LexLe(a, b) || LexLe(b, a)
    decreases |a|
  {
    if a != [] && b != [] && a[0] == b[0] {
      LexLeTotal(a[1..], b[1..]);
    }
  }

  lemma {:induction false} LexLeTrans(a: string, b: string, c: string)
    requires LexLe(a, b) && LexLe(b, c)
    ensures LexLe(a, c)
    decreases |a|
  {
    if a != [] && a[0] == b[0] && b[0] == c[0] {
      LexLeTrans(a[1..], b[1..], c[1..]);
    }
  }

  /** The highest character of the Basic Multilingual Plane's private use area, appended
      to a query to form the upper end of a prefix range. */
  const HighSentinel: char := '\U{F8FF}'

  /** `q <= s && s <= q + HighSentinel`: the range a prefix query asks for. */
  predicate InPrefixRange(s: string, q: string) {
    LexLe(q, s) && LexLe(s, q + [HighSentinel])
  }

  /** Every string in the prefix range of `q` starts with `q`. */
  lemma {:induction false} InPrefixRangeIsPrefix(s: string, q: string)
    requires InPrefixRange(s, q)
    ensures IsPrefix(q, s)
    decreases |q|
  {
    if q != [] {
      assert s != [];
      assert (q + [HighSentinel])[0] == q[0];
      assert (q + [HighSentinel])[1..] == q[1..] + [HighSentinel];
      assert s[0] == q[0];
      InPrefixRangeIsPrefix(s[1..], q[1..]);
    }
  }

  /** Conversely, a string that starts with `q` is in the range, unless the character right
      after the prefix is at or above the sentinel. */
  lemma {:induction false} PrefixIsInPrefixRange(s: string, q: string)
    requires IsPrefix(q, s)
    requires |s| == |q| || s[|q|] < HighSentinel
    ensures InPrefixRange(s, q)
    decreases |q|
  {
    if q == [] {
      assert LexLe(q, s);
      assert [HighSentinel][0] == HighSentinel;
    } else {
      assert (q + [HighSentinel])[0] == q[0];
      assert (q + [HighSentinel])[1..] == q[1..] + [HighSentinel];
      PrefixIsInPrefixRange(s[1..], q[1..]);
    }
  }
}
