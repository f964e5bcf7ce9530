/** The result types and the small functions shared by the model. */
module Wrappers {

  datatype Option<+T> = None | Some(value: T)

  /** `Err` carries which of the Go code's error returns was taken. */
  datatype Result<+T, +E> = Ok(value: T) | Err(error: E)

  function Min(x: int, y: int): int {
    if x < y then x else y
  }

  function Max(x: int, y: int): int {
    if x > y then x else y
  }

  /** The parts with the separator between each two. */
  function Join(parts: seq<string>, separator: string): string {
    if parts == [] then "" else if |parts| == 1 then parts[0] else parts[0] + separator + Join(parts[1..], separator)
  }

  lemma Reassociate<T>(a: seq<T>, b: seq<T>, c: seq<T>)
    ensures (a + b) + c == a + (b + c)
  {
  }

  /** A part of a finite set has no more elements, and fewer if it is not all of it. */
  lemma {:induction false} Fewer<T>(a: set<T>, b: set<T>)
    requires a <= b
    ensures |a| <= |b| && (a != b ==> |a| < |b|)
    decreases a
  {
    if a != {} {
      var x :| x in a;
      Fewer(a - {x}, b - {x});
    }
  }

  /** Two increasing sequences of the same numbers are equal. */
  lemma {:induction false} SameOrder(a: seq<nat>, b: seq<nat>)
    requires (forall j, k :: 0 <= j < k < |a| ==> a[j] < a[k]) && (forall j, k :: 0 <= j < k < |b| ==> b[j] < b[k])
    requires forall i :: i in a <==> i in b
    ensures a == b
  {
    if a != [] {
      assert a[0] in b;
    }
    if b != [] {
      assert b[0] in a;
      var x, y := a[|a| - 1], b[|b| - 1];
      assert x in b && y in a;
      assert x == y;
      var shorter, other := a[..|a| - 1], b[..|b| - 1];
      forall i | i in shorter || i in other
        ensures i in shorter && i in other
      {
        assert i in a && i in b && i != x;
      }
      SameOrder(shorter, other);
    }
  }
}
