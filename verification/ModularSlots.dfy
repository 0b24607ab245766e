/** Arithmetic of positions kept modulo a size. */
module ModularSlots {
  function Slot(i: nat, size: nat): (s: nat)
    requires size > 0
    ensures s < size
  {
    i % size
  }

  lemma {:induction false} MultiplesGrow(a: nat, b: nat, size: nat)
    requires a <= b
    ensures a * size <= b * size
  {
    if a < b {
      MultiplesGrow(a, b - 1, size);
      assert b * size == (b - 1) * size + size;
    }
  }

  lemma QuotientIsUnique(x: nat, q: nat, r: nat, size: nat)
    requires size > 0 && r < size && x == q * size + r
    ensures x % size == r && x / size == q
  {
    var d := x / size;
    assert x == d * size + x % size;
    assert (q + 1) * size == q * size + size && (d + 1) * size == d * size + size;
    if q > d {
      MultiplesGrow(d + 1, q, size);
    } else if q < d {
      MultiplesGrow(q + 1, d, size);
    }
  }

  lemma AddInSlot(a: nat, b: nat, size: nat)
    requires size > 0
    ensures (a % size + b) % size == Slot(a + b, size)
  {
    var x := a % size + b;
    var q := a / size + x / size;
    assert a == (a / size) * size + a % size;
    assert x == (x / size) * size + x % size;
    assert a + b == q * size + x % size;
    QuotientIsUnique(a + b, q, x % size, size);
  }

  lemma SlotsDiffer(a: nat, b: nat, size: nat)
    requires size > 0 && a < b < a + size
    ensures Slot(a, size) != Slot(b, size)
  {
    if a % size == b % size {
      assert a == (a / size) * size + a % size;
      assert b == (b / size) * size + b % size;
      QuotientIsUnique(b - a, b / size - a / size, 0, size);
    }
  }

  /** The distance between two positions less than a size apart, from their slots. */
  lemma Distance(a: nat, b: nat, size: nat)
    requires size > 0 && a <= b < a + size
    ensures (b % size - a % size + size) % size == b - a
  {
    AddInSlot(a, b - a, size);
    var x := a % size + (b - a);
    if x < size {
      QuotientIsUnique(x, 0, x, size);
      QuotientIsUnique(b - a + size, 1, b - a, size);
    } else {
      QuotientIsUnique(x, 1, x - size, size);
      QuotientIsUnique(b - a, 0, b - a, size);
    }
  }

  /** Stepping back from a slot, a size added so as not to go below zero. */
  lemma BackInSlot(a: nat, k: nat, size: nat)
    requires size > 0 && k <= a && k <= size
    ensures (a % size + size - k) % size == Slot(a - k, size)
  {
    var x := a - k;
    AddInSlot(a, size - k, size);
    assert x == (x / size) * size + x % size;
    assert x + size == (x / size + 1) * size + x % size;
    QuotientIsUnique(x + size, x / size + 1, x % size, size);
  }
}
