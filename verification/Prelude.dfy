/** Small vocabulary shared by every component: optional values and facts about finite sequences. */
module Prelude {

  datatype Option<+T> = None | Some(value: T)

  /** A parsed JSON value; numbers, objects and lists carry the text that `str` shows for them. */
  datatype Json =
    | Null
    | Boolean(b: bool)
    | Num(n: real, digits: string)
    | Text(s: string)
    | Obj(fields: map<string, Json>, shown: string)
    | Arr(items: seq<Json>, shown: string)

  ghost predicate Distinct<T>(xs: seq<T>) {
    forall i, j :: 0 <= i < j < |xs| ==> xs[i] != xs[j]
  }

  /** Clock readings that never step back. */
  ghost predicate ClockForward(readings: seq<real>) {
    forall i, j :: 0 <= i <= j < |readings| ==> readings[i] <= readings[j]
  }

  function Min(a: int, b: int): int {
    if a <= b then a else b
  }

  function Max(a: int, b: int): int {
    if a <= b then b else a
  }

  /** The last `n` elements of `xs`: what LTRIM key -n -1 keeps. */
  function LastN<T>(xs: seq<T>, n: nat): seq<T> {
    if |xs| <= n then xs else xs[|xs| - n..]
  }

  lemma LastNAbsorbs<T>(xs: seq<T>, ys: seq<T>, n: nat)
    ensures LastN(LastN(xs, n) + ys, n) == LastN(xs + ys, n)
  {
  }

  lemma DistinctSlice<T>(xs: seq<T>, lo: nat, hi: nat)
    requires Distinct(xs) && lo <= hi <= |xs|
    ensures Distinct(xs[lo..hi])
  {
  }

  lemma MulStrict(x: real, y: real, s: real)
    requires x < y && s > 0.0
    ensures x * s < y * s
  {
  }

  /** What `str.strip` removes, of the ASCII characters. */
  predicate IsSpace(c: char) {
    c == ' ' || c == '\t' || c == '\n' || c == '\r' || c == '\U{000B}' || c == '\U{000C}'
    || '\U{001C}' <= c <= '\U{001F}'
  }

  /** `not s.strip()` */
  predicate Blank(s: string) {
    forall i :: 0 <= i < |s| ==> IsSpace(s[i])
  }
}
