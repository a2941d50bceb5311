/**
 * JavaScript values as the inventory scripts see them: truthiness, `||`,
 * String(v), Number(v), `*` and `+` on numbers, and plain objects whose keys
 * keep their insertion order. Number parsing and number-to-text rendering are
 * host primitives, passed in as a `Host` value.
 */
module Js {

  datatype Option<T> = None | Some(value: T) {
    function GetOr(default: T): T {
      match this
      case Some(v) => v
      case None => default
    }
  }

  /** A JavaScript number. Infinities and negative zero are not modelled. */
  datatype Number = NaN | Finite(r: real)

  /** A JavaScript value read from JSON, a form or a caller. */
  datatype Value = Undefined | Null | Bool(b: bool) | Num(n: Number) | Str(s: string)

  const Zero: Value := Num(Finite(0.0))
  const Empty: Value := Str("")

  /**
   * The host's numeric and text primitives: String(x) for a finite number,
   * x.toFixed(2), Number(s), parseFloat(s) and parseInt(s) (None for NaN).
   */
  datatype Host = Host(
    numberText: real -> string,
    toFixed2: real -> string,
    toNumber: string -> Number,
    parseFloat: string -> Number,
    parseInt: string -> Option<int>)

  /** The six falsy values of JavaScript (of those modelled). */
  predicate Falsy(v: Value) {
    match v
    case Undefined => true
    case Null => true
    case Bool(b) => !b
    case Num(n) => n == NaN || n == Finite(0.0)
    case Str(s) => s == ""
  }

  /** `a || b` */
  function Or(a: Value, b: Value): Value {
    if Falsy(a) then b else a
  }

  /** `a === b` (NaN is not equal to itself). */
  predicate StrictEq(a: Value, b: Value) {
    a == b && a != Num(NaN)
  }

  function NumberText(n: Number, host: Host): string {
    match n
    case NaN => "NaN"
    case Finite(r) => host.numberText(r)
  }

  /** n.toFixed(2) */
  function FixedText(n: Number, host: Host): string {
    match n
    case NaN => "NaN"
    case Finite(r) => host.toFixed2(r)
  }

  /** String(v), as used by template literals. */
  function ToText(v: Value, host: Host): string {
    match v
    case Undefined => "undefined"
    case Null => "null"
    case Bool(b) => if b then "true" else "false"
    case Num(n) => NumberText(n, host)
    case Str(s) => s
  }

  /** Number(v), as applied by the `*` operator. */
  function ToNumber(v: Value, host: Host): Number {
    match v
    case Undefined => NaN
    case Null => Finite(0.0)
    case Bool(b) => Finite(if b then 1.0 else 0.0)
    case Num(n) => n
    case Str(s) => host.toNumber(s)
  }

  function Mul(a: Number, b: Number): Number {
    if a.NaN? || b.NaN? then NaN else Finite(a.r * b.r)
  }

  function Add(a: Number, b: Number): Number {
    if a.NaN? || b.NaN? then NaN else Finite(a.r + b.r)
  }

  /** `parseFloat(s) || 0`; an absent field reads as undefined, which parses to NaN. */
  function NumberOrZero(s: Option<string>, host: Host): real {
    match s
    case None => 0.0
    case Some(t) => match host.parseFloat(t) case NaN => 0.0 case Finite(r) => r
  }

  /** `parseInt(s) || 0` */
  function IntOrZero(s: Option<string>, host: Host): int {
    match s
    case None => 0
    case Some(t) => host.parseInt(t).GetOr(0)
  }

  /** Appending two elements one at a time appends the pair. */
  lemma AppendPair<T>(s: seq<T>, a: T, b: T)
    ensures s + [a] + [b] == s + [a, b]
  {
  }

  /** Dropping the last element of `a + b`, for a non-empty `b`, drops the last element of `b`. */
  lemma InitOfAppend<T>(a: seq<T>, b: seq<T>)
    requires |b| > 0
    ensures (a + b)[..|a + b| - 1] == a + b[..|b| - 1] && (a + b)[|a + b| - 1] == b[|b| - 1]
  {
  }

  /** The prefix of a sequence up to its length is the whole sequence. */
  lemma PrefixAll<T>(s: seq<T>)
    ensures s[..|s|] == s
  {
  }

  /** A prefix of a prefix is the shorter prefix. */
  lemma PrefixOfPrefix<T>(s: seq<T>, i: nat, j: nat)
    requires j <= i <= |s|
    ensures s[..i][..j] == s[..j]
  {
  }

  /** A prefix is the first element followed by the prefix of the tail. */
  lemma PrefixOfTail<T>(s: seq<T>, n: nat)
    requires 0 < n <= |s|
    ensures [s[0]] + s[1..][..n - 1] == s[..n]
    ensures s[1..][n - 1..] == s[n..]
  {
  }

  /** Concatenation regroups. */
  lemma AppendAssoc<T>(a: seq<T>, b: seq<T>, d: seq<T>)
    ensures a + (b + d) == (a + b) + d
  {
  }

  /** The index of the first occurrence of `x` in `xs`. */
  function FindFirst<T(==)>(xs: seq<T>, x: T): (k: Option<nat>)
    ensures k.Some? ==> k.value < |xs| && xs[k.value] == x
    ensures k.Some? ==> forall j :: 0 <= j < k.value ==> xs[j] != x
    ensures k.None? <==> x !in xs
  {
    if |xs| == 0 then None
    else if xs[0] == x then Some(0)
    else match FindFirst(xs[1..], x)
      case None => None
      case Some(j) => Some(j + 1)
  }

  /** A plain object: its properties in insertion order. */
  type Obj<T> = seq<(string, T)>

  function Keys<T>(o: Obj<T>): seq<string> {
    seq(|o|, i requires 0 <= i < |o| => o[i].0)
  }

  /** `o[k]`: the value of property `k`, if present. */
  function Get<T>(o: Obj<T>, k: string): Option<T> {
    match FindFirst(Keys(o), k)
    case None => None
    case Some(i) => Some(o[i].1)
  }

  /** `o[k] = v`: an existing property keeps its position, a new one goes last. */
  function Put<T>(o: Obj<T>, k: string, v: T): (r: Obj<T>)
    ensures |r| == if k in Keys(o) then |o| else |o| + 1
    ensures k !in Keys(o) ==> r == o + [(k, v)]
  {
    match FindFirst(Keys(o), k)
    case None => o + [(k, v)]
    case Some(i) => o[i := (k, v)]
  }

  /**
   * After `o[k] = v`, property `k` reads `v`, every other property reads as
   * before, and the key order is the old one with `k` appended if it was new.
   */
  lemma PutGet<T>(o: Obj<T>, k: string, v: T, k': string)
    ensures Get(Put(o, k, v), k') == if k' == k then Some(v) else Get(o, k')
    ensures Keys(Put(o, k, v)) == if k in Keys(o) then Keys(o) else Keys(o) + [k]
  {
    var r := Put(o, k, v);
    match FindFirst(Keys(o), k)
    case None =>
      assert Keys(r) == Keys(o) + [k];
      FindFirstAppend(Keys(o), k, k');
    case Some(i) =>
      assert Keys(r) == Keys(o);
  }

  /** The first-occurrence contract determines the index. */
  lemma FindFirstIs<T>(xs: seq<T>, x: T, k: nat)
    requires k < |xs| && xs[k] == x
    requires forall j :: 0 <= j < k ==> xs[j] != x
    ensures FindFirst(xs, x) == Some(k)
  {
    assert x in xs;
  }

  /** Searching an extended sequence finds what the original held, else the new element. */
  lemma FindFirstAppend<T>(xs: seq<T>, x: T, y: T)
    ensures FindFirst(xs + [x], y) == if y in xs then FindFirst(xs, y) else if y == x then Some(|xs|) else None
  {
    var ys := xs + [x];
    if y in xs {
      var k := FindFirst(xs, y).value;
      FindFirstIs(ys, y, k);
    } else if y == x {
      FindFirstIs(ys, y, |xs|);
    } else {
      assert y !in ys;
    }
  }
}
