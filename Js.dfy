/** The few JavaScript value semantics the handlers rely on: JSON request
    values, truthiness (`!v`), string conversion (`String(v)`) and the
    string built-ins `indexOf`, `includes` and `replace` with a string
    pattern. */
module Js {

  datatype Option<T> = None | Some(value: T)

  /** The integers a JavaScript number holds exactly: `Number.MIN_SAFE_INTEGER`
      to `Number.MAX_SAFE_INTEGER`. */
  type SafeInteger = n: int | -9007199254740991 <= n <= 9007199254740991

  /** A value as it arrives in a request body, a query string or a
      database row. Numbers are safe integers; objects and arrays are not
      modelled. */
  datatype Json = Undefined | Null | Bool(b: bool) | Num(n: SafeInteger) | Str(s: string)

  /** The values JavaScript treats as false: `undefined`, `null`, `false`,
      `0` and `""`. */
  const Falsy: set<Json> := {Undefined, Null, Bool(false), Num(0), Str("")}

  /** JavaScript truthiness: `!v` is true exactly when `Truthy(v)` is false. */
  predicate Truthy(v: Json)
    ensures Truthy(v) <==> v !in Falsy
  {
    match v
    case Undefined => false
    case Null => false
    case Bool(b) => b
    case Num(n) => n != 0
    case Str(s) => s != ""
  }

  function DigitChar(d: int): (c: char)
    requires 0 <= d < 10
    ensures '0' <= c <= '9' && c as int - '0' as int == d
  {
    ('0' as int + d) as char
  }

  /** The number a string of decimal digits denotes, most significant
      digit first. */
  function DigitsValue(s: string): nat
    requires forall i :: 0 <= i < |s| ==> '0' <= s[i] <= '9'
  {
    if s == [] then 0 else 10 * DigitsValue(s[..|s| - 1]) + (s[|s| - 1] as int - '0' as int)
  }

  /** The decimal numeral of a natural number: digits only, no leading
      zero, and denoting the number itself. */
  function Decimal(n: nat): (r: string)
    ensures |r| >= 1
    ensures forall i :: 0 <= i < |r| ==> '0' <= r[i] <= '9'
    ensures r[0] == '0' ==> n == 0 && r == "0"
    ensures DigitsValue(r) == n
  {
    if n < 10 then [DigitChar(n)]
    else
      var high := Decimal(n / 10);
      var r := high + [DigitChar(n % 10)];
      assert r[..|r| - 1] == high;
      r
  }

  /** `String(v)`, the conversion `replace` applies to a non-string
      replacement value. A safe integer is below 10^21, so JavaScript
      writes it in plain decimal. */
  function ToString(v: Json): (r: string)
    ensures v.Str? ==> r == v.s
    ensures v.Num? && v.n >= 0 ==> r == Decimal(v.n)
    ensures v.Num? && v.n < 0 ==> r == "-" + Decimal(-v.n)
    ensures v == Undefined ==> r == "undefined"
    ensures v == Null ==> r == "null"
    ensures v.Bool? ==> r == (if v.b then "true" else "false")
  {
    match v
    case Undefined => "undefined"
    case Null => "null"
    case Bool(b) => if b then "true" else "false"
    case Num(n) => if n < 0 then "-" + Decimal(-n) else Decimal(n)
    case Str(s) => s
  }

  /** `t` occurs in `s` starting at index `i`. */
  predicate OccursAt(s: string, t: string, i: int) {
    0 <= i && i + |t| <= |s| && s[i..i + |t|] == t
  }

  /** `i` is the first index where `t` occurs in `s`. */
  predicate FirstOccurrence(s: string, t: string, i: int) {
    OccursAt(s, t, i) && forall j :: 0 <= j < i ==> !OccursAt(s, t, j)
  }

  /** `s.indexOf(t, k)`: the first index at or after `k` where `t` occurs, or -1. */
  function IndexFrom(s: string, t: string, k: nat): (r: int)
    ensures r == -1 || (k <= r && OccursAt(s, t, r))
    ensures forall j :: k <= j && (r == -1 || j < r) ==> !OccursAt(s, t, j)
    decreases |s| - k
  {
    if k + |t| > |s| then -1
    else if s[k..k + |t|] == t then k
    else IndexFrom(s, t, k + 1)
  }

  /** `s.indexOf(t)`. */
  function IndexOf(s: string, t: string): (r: int)
    ensures r == -1 || FirstOccurrence(s, t, r)
    ensures r == -1 ==> forall j :: !OccursAt(s, t, j)
  {
    IndexFrom(s, t, 0)
  }

  /** A pattern with a character that `s` lacks does not occur in `s`. */
  lemma AbsentByCharacter(s: string, t: string, k: int)
    requires 0 <= k < |t| && t[k] !in s
    ensures forall j :: !OccursAt(s, t, j)
  {
  }

  /** `s.includes(t)`. */
  predicate Includes(s: string, t: string)
    ensures Includes(s, t) <==> exists i :: OccursAt(s, t, i)
  {
    IndexOf(s, t) != -1
  }

  lemma OccursBetween(a: string, t: string, b: string)
    ensures OccursAt(a + t + b, t, |a|)
  {
    assert (a + t + b)[|a|..|a| + |t|] == t;
  }

  lemma IncludesAt(s: string, t: string, i: int)
    requires OccursAt(s, t, i)
    ensures Includes(s, t)
  {
  }

  /** `s.replace(t, v)` with a string pattern: only the first occurrence
      of `t` is replaced, and `v` is inserted literally. */
  function ReplaceFirst(s: string, t: string, v: string): (r: string)
    ensures (forall j :: !OccursAt(s, t, j)) ==> r == s
    ensures forall i :: FirstOccurrence(s, t, i) ==> r == s[..i] + v + s[i + |t|..]
  {
    var i := IndexOf(s, t);
    if i == -1 then s else s[..i] + v + s[i + |t|..]
  }

  /** A later occurrence of the token survives `replace` and is found,
      shifted by the difference in length, in the result. */
  lemma {:induction false} ReplaceFirstKeepsLater(s: string, t: string, v: string, i: int, j: int)
    requires FirstOccurrence(s, t, i)
    requires OccursAt(s, t, j) && j >= i + |t|
    ensures OccursAt(ReplaceFirst(s, t, v), t, j - |t| + |v|)
  {
    ReplaceFirstAt(s, t, v, i);
    SpliceKeepsLater(s, |t|, v, i, t, j);
  }

  /** Of two occurrences of `t` that do not overlap, the second survives
      `replace(t, v)`. */
  lemma ReplaceFirstKeepsSecond(s: string, t: string, v: string, p: int, q: int)
    requires OccursAt(s, t, p) && OccursAt(s, t, q) && p + |t| <= q
    ensures OccursAt(ReplaceFirst(s, t, v), t, q - |t| + |v|)
  {
    var i := IndexOf(s, t);
    assert i != -1 && i <= p;
    ReplaceFirstKeepsLater(s, t, v, i, q);
  }

  /** An occurrence of any text `u` that does not overlap the first
      occurrence of `t` survives `replace(t, v)`: in place when it lies
      before it, shifted by the change in length when it lies after it. */
  lemma {:induction false} ReplaceFirstKeepsOther(s: string, t: string, v: string, u: string, p: int)
    requires OccursAt(s, u, p)
    requires IndexOf(s, t) == -1 || p + |u| <= IndexOf(s, t) || IndexOf(s, t) + |t| <= p
    ensures OccursAt(ReplaceFirst(s, t, v), u,
                     if IndexOf(s, t) == -1 || p + |u| <= IndexOf(s, t) then p else p - |t| + |v|)
  {
    var i := IndexOf(s, t);
    if i == -1 {
      assert ReplaceFirst(s, t, v) == s;
    } else if p + |u| <= i {
      ReplaceFirstAt(s, t, v, i);
      SpliceKeepsEarlier(s, |t|, v, i, u, p);
    } else {
      ReplaceFirstAt(s, t, v, i);
      SpliceKeepsLater(s, |t|, v, i, u, p);
    }
  }

  /** `replace` splices the value in at the first occurrence. */
  lemma ReplaceFirstAt(s: string, t: string, v: string, i: int)
    requires FirstOccurrence(s, t, i)
    ensures ReplaceFirst(s, t, v) == s[..i] + v + s[i + |t|..]
  {
  }

  /** Replacing `s[i..i + n]` by `v` moves an occurrence of `u` at `j`,
      past the replaced text, to `j - n + |v|`. */
  lemma SpliceKeepsLater(s: string, n: int, v: string, i: int, u: string, j: int)
    requires 0 <= i && 0 <= n && i + n <= j && OccursAt(s, u, j)
    ensures OccursAt(s[..i] + v + s[i + n..], u, j - n + |v|)
  {
    var r := s[..i] + v + s[i + n..];
    var j' := j - n + |v|;
    forall k | 0 <= k < |u| ensures r[j' + k] == u[k] {
      assert r[j' + k] == s[j + k];
      assert s[j..j + |u|][k] == s[j + k];
    }
    assert r[j'..j' + |u|] == u;
  }

  /** Replacing `s[i..i + n]` by `v` keeps an occurrence of `u` that ends
      before `i` where it is. */
  lemma SpliceKeepsEarlier(s: string, n: int, v: string, i: int, u: string, p: int)
    requires 0 <= p && p + |u| <= i && 0 <= n && i + n <= |s| && OccursAt(s, u, p)
    ensures OccursAt(s[..i] + v + s[i + n..], u, p)
  {
    var r := s[..i] + v + s[i + n..];
    forall k | 0 <= k < |u| ensures r[p + k] == u[k] {
      assert r[p + k] == s[p + k];
      assert s[p..p + |u|][k] == s[p + k];
    }
    assert r[p..p + |u|] == u;
  }

  /** Everything before the first occurrence, and everything after it,
      is kept; the replaced text is exactly `v`. */
  lemma {:induction false} ReplaceFirstFrames(s: string, t: string, v: string, i: int)
    requires FirstOccurrence(s, t, i)
    ensures |ReplaceFirst(s, t, v)| == |s| - |t| + |v|
    ensures ReplaceFirst(s, t, v)[..i] == s[..i]
    ensures ReplaceFirst(s, t, v)[i..i + |v|] == v
    ensures ReplaceFirst(s, t, v)[i + |v|..] == s[i + |t|..]
  {
    var r := ReplaceFirst(s, t, v);
    assert r == s[..i] + v + s[i + |t|..];
  }
}
