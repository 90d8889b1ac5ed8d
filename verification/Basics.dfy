/** What several models share. */
module Basics {

  /** A value that may be missing. */
  datatype Option<+T> = None | Some(value: T)

  function Front<T>(s: seq<T>): seq<T>
    requires s != []
  {
    s[..|s| - 1]
  }

  function Last<T>(s: seq<T>): T
    requires s != []
  {
    s[|s| - 1]
  }

  function Indices(n: nat): (r: set<nat>)
    ensures forall i :: i in r <==> 0 <= i < n
  {
    if n == 0 then {} else Indices(n - 1) + {n - 1}
  }

  /** Places in a list, first to last, none before the given one. */
  ghost predicate Picks(kept: seq<nat>, from: nat, n: nat) {
    && (forall j :: 0 <= j < |kept| ==> from <= kept[j] < n)
    && (forall j, k :: 0 <= j < k < |kept| ==> kept[j] < kept[k])
  }

  lemma PickOneMore(kept: seq<nat>, from: nat, n: nat)
    requires from < n && Picks(kept, from + 1, n)
    ensures Picks(kept, from, n) && Picks([from] + kept, from, n)
    ensures from !in kept && forall i :: i in [from] + kept <==> i == from || i in kept
  {
  }

  lemma PickLast(kept: seq<nat>, n: nat)
    requires Picks(kept, 0, n)
    ensures Picks(kept, 0, n + 1) && Picks(kept + [n], 0, n + 1)
    ensures n !in kept && forall i :: i in kept + [n] <==> i == n || i in kept
  {
  }

  /** Division that rounds toward zero. */
  function TruncDiv(a: int, b: int): int
    requires b > 0
  {
    if a >= 0 then a / b else -((-a) / b)
  }

  type Int32 = x: int | -0x8000_0000 <= x < 0x8000_0000

  /** Conversion to a 32-bit signed integer. */
  function ToInt32(x: int): (r: Int32)
    ensures -0x8000_0000 <= x < 0x8000_0000 ==> r == x
  {
    (x + 0x8000_0000) % 0x1_0000_0000 - 0x8000_0000
  }

  lemma SubsetSize<T>(a: set<T>, b: set<T>)
    requires a <= b
    ensures |a| <= |b|
  {
    assert b == a + (b - a);
  }

  lemma ProductMonotone(a: nat, b: nat, x: nat, y: nat)
    requires a <= b && x <= y
    ensures a * x <= b * y
  {
    assert a * x <= b * x <= b * y;
  }
}
