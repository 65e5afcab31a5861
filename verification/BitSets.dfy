/** Non-negative big integers used as bit sets: bit i of x stands for the element i. */
module BitSets {

  /** Bit i of x. */
  predicate Has(x: nat, i: nat) {
    if i == 0 then x % 2 == 1 else Has(x / 2, i - 1)
  }

  function Or(a: nat, b: nat): nat
    decreases a + b
  {
    if a == 0 then b
    else if b == 0 then a
    else 2 * Or(a / 2, b / 2) + if a % 2 == 1 || b % 2 == 1 then 1 else 0
  }

  function SetBit(x: nat, k: nat): nat
    decreases k
  {
    if k == 0 then x / 2 * 2 + 1 else 2 * SetBit(x / 2, k - 1) + x % 2
  }

  lemma {:induction false} ZeroHasNot(i: nat)
    ensures !Has(0, i)
  {
    if i > 0 {
      ZeroHasNot(i - 1);
    }
  }

  /** Or is union. */
  lemma {:induction false} OrHas(a: nat, b: nat, i: nat)
    ensures Has(Or(a, b), i) <==> Has(a, i) || Has(b, i)
    decreases i
  {
    ZeroHasNot(i);
    if a > 0 && b > 0 && i > 0 {
      OrHas(a / 2, b / 2, i - 1);
    }
  }

  /** SetBit adds one element. */
  lemma {:induction false} SetBitHas(x: nat, k: nat, i: nat)
    ensures Has(SetBit(x, k), i) <==> i == k || Has(x, i)
    decreases k
  {
    if k > 0 && i > 0 {
      SetBitHas(x / 2, k - 1, i - 1);
    }
  }

  lemma EmptyHasNothing()
    ensures forall i: nat :: !Has(0, i)
  {
    forall i: nat { ZeroHasNot(i); }
  }

  /** The number of one bits. */
  function OnesCount(x: nat): nat {
    if x == 0 then 0 else x % 2 + OnesCount(x / 2)
  }

  lemma {:induction false} ShiftKeepsSize(high: set<nat>, shifted: set<nat>)
    requires 0 !in high
    requires forall i: nat :: i in shifted <==> i + 1 in high
    ensures |shifted| == |high|
    decreases high
  {
    if k :| k in high {
      assert k - 1 in shifted;
      ShiftKeepsSize(high - {k}, shifted - {k - 1});
    } else {
      assert shifted == {};
    }
  }

  /** Counting one bits counts the elements of the set. */
  lemma {:induction false} OnesCountIsSize(x: nat, s: set<nat>)
    requires forall i: nat :: i in s <==> Has(x, i)
    ensures OnesCount(x) == |s|
    decreases x
  {
    if x == 0 {
      EmptyHasNothing();
      assert s == {};
    } else {
      var high := s - {0};
      var shifted := set i | i in high :: i - 1;
      forall i: nat
        ensures i in shifted <==> i + 1 in high
        ensures i in shifted <==> Has(x / 2, i)
      {
        assert Has(x, i + 1) <==> Has(x / 2, i);
        if i + 1 in high {
          assert i + 1 - 1 in shifted;
        }
      }
      OnesCountIsSize(x / 2, shifted);
      ShiftKeepsSize(high, shifted);
      if x % 2 == 1 {
        assert s == high + {0};
      } else {
        assert s == high;
      }
    }
  }

  // ---------- the machine words of a big integer ----------

  /** The low k bits of x. */
  function LowBits(x: nat, k: nat): nat
    decreases k
  {
    if k == 0 then 0 else x % 2 + 2 * LowBits(x / 2, k - 1)
  }

  /** x without its low k bits. */
  function HighBits(x: nat, k: nat): (r: nat)
    ensures r <= x
    ensures k > 0 && x > 0 ==> r < x
    decreases k
  {
    if k == 0 then x else HighBits(x / 2, k - 1)
  }

  lemma OneMoreBit(b: nat, x: nat)
    requires b < 2
    ensures OnesCount(b + 2 * x) == b + OnesCount(x)
  {
    assert (b + 2 * x) / 2 == x && (b + 2 * x) % 2 == b;
  }

  lemma {:induction false} OnesCountSplits(x: nat, k: nat)
    ensures OnesCount(x) == OnesCount(LowBits(x, k)) + OnesCount(HighBits(x, k))
    decreases k
  {
    if k > 0 {
      OnesCountSplits(x / 2, k - 1);
      var b, half := x % 2, x / 2;
      assert x == b + 2 * half;
      OneMoreBit(b, half);
      OneMoreBit(b, LowBits(half, k - 1));
    }
  }

  const WORD_BITS: nat := 64

  /** Sums the one bits word by word, lowest word first. */
  method PopulationCount(x: nat, ghost s: set<nat>) returns (sum: nat)
    requires forall i: nat :: i in s <==> Has(x, i)
    ensures sum == |s|
  {
    sum := 0;
    var rest: nat := x;
    while rest > 0
      invariant sum + OnesCount(rest) == OnesCount(x)
    {
      OnesCountSplits(rest, WORD_BITS);
      sum := sum + OnesCount(LowBits(rest, WORD_BITS));
      rest := HighBits(rest, WORD_BITS);
    }
    OnesCountIsSize(x, s);
  }
}
