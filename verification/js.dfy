/**
 * JavaScript values as the descriptor tree carries them, and the few pieces of
 * JavaScript and Ramda semantics the builder relies on: property reads,
 * `instanceof Object`, truthiness, strict equality, template-literal conversion,
 * `String.prototype.split` and `startsWith`.
 *
 * An object is the list of its own enumerable properties in enumeration order;
 * `undefined` is not a value of the tree but the `None` of a property read.
 */
module Js {

  datatype Option<+T> = None | Some(value: T)

  datatype Result<+R, +E> = Success(value: R) | Failure(error: E)

  datatype Json =
    | Bool(b: bool)
    | Num(n: int)
    | Str(s: string)
    | Arr(items: seq<Json>)
    | Obj(props: seq<Prop>)

  datatype Prop = Prop(key: string, value: Json)

  /** Reading `key` from a property list: the first property with that key. */
  function Lookup(props: seq<Prop>, key: string): Option<Json>
  {
    if props == [] then None
    else if props[0].key == key then Some(props[0].value)
    else Lookup(props[1..], key)
  }

  /** `v[key]` (Ramda's `R.prop(key)(v)`): only objects have own properties here. */
  function Get(v: Json, key: string): Option<Json>
  {
    if v.Obj? then Lookup(v.props, key) else None
  }

  /** `R.has(key)(v)`: `v` has an own property `key`. */
  predicate Has(v: Json, key: string)
  {
    Get(v, key).Some?
  }

  /** `v instanceof Object`: arrays and objects, not primitives. */
  predicate IsObject(v: Json)
  {
    v.Arr? || v.Obj?
  }

  /** JavaScript truthiness. */
  predicate Truthy(v: Json)
  {
    match v
    case Bool(b) => b
    case Num(n) => n != 0
    case Str(s) => s != ""
    case _ => true
  }

  /**
   * `a === b` where either side may be undefined. Distinct nodes of a
   * descriptor tree are distinct objects, so two arrays or objects are never
   * strictly equal.
   */
  predicate StrictEquals(a: Option<Json>, b: Option<Json>)
  {
    a == b && (a.None? || !IsObject(a.value))
  }

  function Digit(d: nat): char
    requires d < 10
  {
    "0123456789"[d]
  }

  function NatDisplay(n: nat): string
  {
    if n < 10 then [Digit(n)] else NatDisplay(n / 10) + [Digit(n % 10)]
  }

  function IntDisplay(n: int): string
  {
    if n < 0 then "-" + NatDisplay(-n) else NatDisplay(n)
  }

  /** `${v}` for a value of the tree (Array.prototype.toString joins with commas). */
  function JsonDisplay(v: Json): string
  {
    match v
    case Bool(b) => if b then "true" else "false"
    case Num(n) => IntDisplay(n)
    case Str(s) => s
    case Arr(items) => Join(seq(|items|, i requires 0 <= i < |items| => JsonDisplay(items[i])), ',')
    case Obj(_) => "[object Object]"
  }

  /** `${v}` where `v` may be undefined. */
  function ToDisplay(v: Option<Json>): (r: string)
    ensures v == None ==> r == "undefined"
    ensures forall s :: v == Some(Str(s)) ==> r == s
  {
    match v
    case None => "undefined"
    case Some(j) => JsonDisplay(j)
  }

  /** `parts.join(sep)` */
  function Join(parts: seq<string>, sep: char): string
  {
    if parts == [] then ""
    else if |parts| == 1 then parts[0]
    else parts[0] + [sep] + Join(parts[1..], sep)
  }

  /**
   * `s.split(sep)` for a one-character separator: the maximal pieces between
   * separators, so `""` gives `[""]` and two adjacent separators an empty piece.
   */
  function Split(s: string, sep: char): (parts: seq<string>)
    ensures |parts| >= 1
    ensures forall i :: 0 <= i < |parts| ==> sep !in parts[i]
    ensures Join(parts, sep) == s
    decreases |s|
  {
    if s == [] then [""]
    else
      var rest := Split(s[1..], sep);
      if s[0] == sep then
        assert Join([""] + rest, sep) == [sep] + Join(rest, sep) by {
          assert ([""] + rest)[1..] == rest;
        }
        [""] + rest
      else
        var parts := [[s[0]] + rest[0]] + rest[1..];
        assert Join(parts, sep) == [s[0]] + Join(rest, sep) by {
          if |rest| > 1 {
            assert parts[1..] == rest[1..];
          }
        }
        parts
  }

  lemma {:induction false} SplitNoSeparator(s: string, sep: char)
    requires sep !in s
    ensures Split(s, sep) == [s]
    decreases |s|
  {
    if s != [] {
      SplitNoSeparator(s[1..], sep);
    }
  }

  lemma {:induction false} SplitAfterPiece(a: string, b: string, sep: char)
    requires sep !in a
    ensures Split(a + [sep] + b, sep) == [a] + Split(b, sep)
    decreases |a|
  {
    if a == [] {
      assert a + [sep] + b == [sep] + b;
      assert ([sep] + b)[1..] == b;
    } else {
      assert (a + [sep] + b)[1..] == a[1..] + [sep] + b;
      SplitAfterPiece(a[1..], b, sep);
      assert [a[0]] + a[1..] == a;
    }
  }

  /** Two separator-free pieces joined by one separator split back into
      those two pieces. */
  lemma SplitTwoPieces(a: string, b: string, sep: char)
    requires sep !in a && sep !in b
    ensures Split(a + [sep] + b, sep) == [a, b]
  {
    SplitAfterPiece(a, b, sep);
    SplitNoSeparator(b, sep);
  }

  /** Splitting a join of separator-free pieces gives the pieces back. */
  lemma {:induction false} SplitJoin(parts: seq<string>, sep: char)
    requires |parts| >= 1
    requires forall i :: 0 <= i < |parts| ==> sep !in parts[i]
    ensures Split(Join(parts, sep), sep) == parts
  {
    if |parts| == 1 {
      SplitNoSeparator(parts[0], sep);
    } else {
      SplitJoin(parts[1..], sep);
      SplitAfterPiece(parts[0], Join(parts[1..], sep), sep);
      assert [parts[0]] + parts[1..] == parts;
    }
  }

  /** `value.startsWith(prefix)` */
  predicate StartsWith(value: string, prefix: string)
  {
    |prefix| <= |value| && value[..|prefix|] == prefix
  }

  /** Appending is associative (stated for the solver, which would otherwise
      compare the two sides element by element). */
  lemma AppendAssociates<T>(a: seq<T>, b: seq<T>, c: seq<T>)
    ensures a + b + c == a + (b + c)
  {
  }

  /** `f` applied to each element, in order. */
  function Map<T, U>(f: T -> U, s: seq<T>): seq<U>
  {
    seq(|s|, i requires 0 <= i < |s| => f(s[i]))
  }

  lemma MapAppend<T, U>(f: T -> U, a: seq<T>, b: seq<T>)
    ensures Map(f, a + b) == Map(f, a) + Map(f, b)
  {
  }

  lemma MapPrefix<T, U>(f: T -> U, s: seq<T>, k: nat)
    requires k <= |s|
    ensures Map(f, s)[..k] == Map(f, s[..k])
  {
  }

  /** The concatenation of `f(x)` for the elements `x` of `s`, in order. */
  function FlatMap<T, U>(f: T -> seq<U>, s: seq<T>): seq<U>
  {
    if s == [] then [] else FlatMap(f, s[..|s| - 1]) + f(s[|s| - 1])
  }

  lemma FlatMapPrefix<T, U>(f: T -> seq<U>, s: seq<T>, i: nat)
    requires i < |s|
    ensures FlatMap(f, s[..i + 1]) == FlatMap(f, s[..i]) + f(s[i])
  {
    assert s[..i + 1][..i] == s[..i];
  }

  /** Mapping a concatenation maps each part. */
  lemma {:induction false} FlatMapAppend<T, U>(f: T -> seq<U>, a: seq<T>, b: seq<T>)
    ensures FlatMap(f, a + b) == FlatMap(f, a) + FlatMap(f, b)
  {
    if b == [] {
      assert a + b == a;
    } else {
      var init := b[..|b| - 1];
      FlatMapAppend(f, a, init);
      assert (a + b)[..|a + b| - 1] == a + init;
      assert (a + b)[|a + b| - 1] == b[|b| - 1];
      AppendAssociates(FlatMap(f, a), FlatMap(f, init), f(b[|b| - 1]));
    }
  }

  /** The concatenation of a list of sequences (of strings: with no separator). */
  function Flatten<T>(parts: seq<seq<T>>): seq<T>
  {
    if parts == [] then [] else Flatten(parts[..|parts| - 1]) + parts[|parts| - 1]
  }
}
