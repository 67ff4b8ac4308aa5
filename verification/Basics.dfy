/** Shared value types, and the byte order in which the program sorts identifiers. */
module Basics {
  datatype Option<+T> = None | Some(value: T)

  /** A failure-compatible result: `:-` stops at the first failure, as a raise does. */
  datatype Result<+T, +E> = Success(value: T) | Failure(error: E) {
    predicate IsFailure() { Failure? }

    function PropagateFailure<U>(): Result<U, E>
      requires Failure?
    {
      Failure(error)
    }

    function Extract(): T
      requires Success?
    {
      value
    }
  }

  datatype Check<+E> = Pass | Fail(error: E) {
    predicate IsFailure() { Fail? }

    function PropagateFailure<U>(): Result<U, E>
      requires Fail?
    {
      Failure(error)
    }
  }

  function Need<E>(condition: bool, error: E): Check<E> {
    if condition then Pass else Fail(error)
  }
}

/**
 * Text in the order of its UTF-8 bytes, which is the order of its code points.
 * It is the key of every `sorted(...)` over identifiers and the collation of the text columns.
 */
module TextOrder {
  predicate Leq(a: string, b: string) {
    a == [] || (b != [] && (a[0] < b[0] || (a[0] == b[0] && Leq(a[1..], b[1..]))))
  }

  lemma Reflexive(a: string)
    ensures Leq(a, a)
  {}

  lemma Total(a: string, b: string)
    ensures Leq(a, b) || Leq(b, a)
  {}

  lemma {:induction false} Antisymmetric(a: string, b: string)
    requires Leq(a, b) && Leq(b, a)
    ensures a == b
  {
    if a != [] {
      Antisymmetric(a[1..], b[1..]);
      assert a == [a[0]] + a[1..] && b == [b[0]] + b[1..];
    }
  }

  lemma Transitive(a: string, b: string, c: string)
    requires Leq(a, b) && Leq(b, c)
    ensures Leq(a, c)
  {}

  /** One text comes before another if it is a part of its beginning, or has the smaller character where they first differ. */
  ghost predicate Precedes(a: string, b: string) {
    a <= b || exists n | 0 <= n < |a| && n < |b| :: a[..n] == b[..n] && a[n] < b[n]
  }

  lemma {:induction false} LeqIff(a: string, b: string)
    ensures Leq(a, b) <==> Precedes(a, b)
  {
    if a != [] && b != [] && a[0] == b[0] {
      LeqIff(a[1..], b[1..]);
      assert a == [a[0]] + a[1..] && b == [b[0]] + b[1..];
      if n :| 0 <= n < |a[1..]| && n < |b[1..]| && a[1..][..n] == b[1..][..n] && a[1..][n] < b[1..][n] {
        assert a[..n + 1] == [a[0]] + a[1..][..n] && b[..n + 1] == [b[0]] + b[1..][..n];
      }
      if n :| 0 < n < |a| && n < |b| && a[..n] == b[..n] && a[n] < b[n] {
        assert a[1..][..n - 1] == a[..n][1..] && b[1..][..n - 1] == b[..n][1..];
      }
    } else if a != [] && b != [] && a[0] < b[0] {
      assert a[..0] == b[..0];
    }
  }

  predicate Least(m: string, s: set<string>) {
    m in s && forall x | x in s :: Leq(m, x)
  }

  lemma LeastExists(s: set<string>) returns (m: string)
    requires s != {}
    ensures Least(m, s)
  {
    var x :| x in s;
    if s == {x} {
      m := x;
      Reflexive(x);
    } else {
      var rest := s - {x};
      var n := LeastExists(rest);
      Total(x, n);
      m := if Leq(x, n) then x else n;
      forall y | y in s ensures Leq(m, y) {
        if y == x { Reflexive(x); } else if m == x { Transitive(x, n, y); }
      }
    }
  }

  ghost predicate Ascending(s: seq<string>) {
    forall i, j | 0 <= i < j < |s| :: s[i] != s[j] && Leq(s[i], s[j])
  }

  /** `sorted(set(values), key=utf-8 bytes)`. */
  function Sorted(s: set<string>): (r: seq<string>)
    ensures Ascending(r)
    ensures forall x :: x in r <==> x in s
  {
    if s == {} then []
    else
      assert exists m :: Least(m, s) by { var m := LeastExists(s); }
      LeastUnique(s);
      var m :| m in s && Least(m, s);
      [m] + Sorted(s - {m})
  }

  lemma LeastUnique(s: set<string>)
    ensures forall a, b :: Least(a, s) && Least(b, s) ==> a == b
  {
    forall a, b | Least(a, s) && Least(b, s) ensures a == b { Antisymmetric(a, b); }
  }
}
