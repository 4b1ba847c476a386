/**
 * The arithmetic of distribute_remaining_users (test_dj.py:24-36): `total` users
 * are split over `g` ordered groups; every group gets `total / g` of them and
 * each of the first `total % g` groups one more. Division and remainder are
 * Python's floor operations; for a positive divisor they coincide with Dafny's
 * Euclidean `/` and `%`, also when `total` is negative (a list shorter than
 * the three top slots).
 */
module Buckets {

  function Min(a: int, b: int): int { if a <= b then a else b }

  /** The count handed to group k: the floor share plus the extra slot of the
      first `total % g` groups. It is never negative for a non-negative total,
      and never positive for a negative one (a list shorter than the top slots
      gets nothing written past them). */
  function GroupSize(total: int, g: nat, k: nat): (size: int)
    requires g > 0
    ensures total >= 0 ==> size >= 0
    ensures total < 0 ==> size <= 0
  {
    DivBounds(total, g);
    assert total < 0 ==> total / g < 0 by {
      if total < 0 && total / g >= 0 {
        MulMonotone(g, 0, total / g);
      }
    }
    total / g + (if k < total % g then 1 else 0)
  }

  /** Offset, counted from the first sub-tier slot, at which group k starts:
      what the loop's running index has advanced by after k groups. It never
      crosses back over the start: forwards only for a non-negative total,
      backwards only for a negative one. */
  function GroupStart(total: int, g: nat, k: nat): (start: int)
    requires g > 0
    ensures total >= 0 ==> start >= 0
    ensures total < 0 ==> start <= 0
  {
    if k == 0 then 0
    else GroupStart(total, g, k - 1) + GroupSize(total, g, k - 1)
  }

  /** Reference definition of the group that offset j falls into, computed
      directly from the quotient and remainder rather than by walking groups:
      the first `total % g` groups are blocks of q + 1, the rest blocks of q. */
  function GroupOf(total: int, g: nat, j: nat): (k: nat)
    requires g > 0 && j < total
    ensures k < g
    ensures GroupStart(total, g, k) <= j < GroupStart(total, g, k + 1)
  {
    var q, r := total / g, total % g;
    DivBounds(total, g);
    var k := if j < r * (q + 1) then LongBlock(q, r, j) else ShortBlock(q, r, g, j);
    BlockStarts(total, g, k, j);
    k
  }

  /** An offset between the closed-form starts of block k and block k + 1
      lies between the walk's starts of those groups. */
  lemma BlockStarts(total: int, g: nat, k: nat, j: int)
    requires g > 0
    requires k * (total / g) + Min(k, total % g) <= j < (k + 1) * (total / g) + Min(k + 1, total % g)
    ensures GroupStart(total, g, k) <= j < GroupStart(total, g, k + 1)
  {
    GroupStartClosed(total, g, k);
    GroupStartClosed(total, g, k + 1);
  }

  /** Euclidean division facts in the form the proofs below use. */
  lemma DivBounds(a: int, b: int)
    requires b > 0
    ensures b * (a / b) <= a < b * (a / b) + b
  {
  }

  lemma MulMonotone(a: int, b: int, c: int)
    requires a >= 0 && b <= c
    ensures a * b <= a * c
  {
  }

  /** Offset j among the first r blocks, each of q + 1 slots. */
  function LongBlock(q: nat, r: nat, j: nat): (k: nat)
    requires j < r * (q + 1)
    ensures k < r
    ensures k * q + Min(k, r) <= j < (k + 1) * q + Min(k + 1, r)
  {
    var p := q + 1;
    DivBounds(j, p);
    var k := j / p;
    assert k < r by {
      if k >= r {
        MulMonotone(p, r, k);
      }
    }
    assert k * q + Min(k, r) == k * p;
    assert (k + 1) * q + Min(k + 1, r) == (k + 1) * p;
    k
  }

  /** Offset j past the r long blocks: it lies in a block of q slots. */
  function ShortBlock(q: int, r: nat, g: nat, j: nat): (k: nat)
    requires r < g && r * (q + 1) <= j < g * q + r
    ensures r <= k < g
    ensures k * q + Min(k, r) <= j < (k + 1) * q + Min(k + 1, r)
  {
    ShortBlockQuotient(q, r, g, j);
    var d := j - r * (q + 1);
    DivBounds(d, q);
    var m := d / q;
    assert m < g - r by {
      if m >= g - r {
        MulMonotone(q, g - r, m);
      }
    }
    Distribute(r, m, q);
    Distribute(r, m + 1, q);
    r + m
  }

  /** Past the long blocks there is room only if the short blocks are
      non-empty, and the offset into them is below their combined size. */
  lemma ShortBlockQuotient(q: int, r: nat, g: nat, j: nat)
    requires r < g && r * (q + 1) <= j < g * q + r
    ensures q >= 1
    ensures 0 <= j - r * (q + 1) < (g - r) * q
  {
    Distribute(g - r, r, q);
    Distribute(r, 1, q);
    if q <= 0 {
      MulMonotone(g - r, q, 0);
    }
  }

  lemma Distribute(a: int, b: int, c: int)
    ensures (a + b) * c == a * c + b * c
  {
  }

  /** The running index after k groups in closed form: k floor shares plus
      one extra slot for each of the first min(k, total % g) groups. */
  lemma {:induction false} GroupStartClosed(total: int, g: nat, k: nat)
    requires g > 0
    ensures GroupStart(total, g, k) == k * (total / g) + Min(k, total % g)
  {
    if k > 0 {
      GroupStartClosed(total, g, k - 1);
    }
  }

  /** The group sizes add up to the whole remainder: after the last group the
      running index has advanced by exactly `total`, also when `total` is
      negative (test_dj.py:36 then hands back the list length). */
  lemma GroupStartTotal(total: int, g: nat)
    requires g > 0
    ensures GroupStart(total, g, g) == total
  {
    GroupStartClosed(total, g, g);
    DivBounds(total, g);
  }

  /** Sizes are as equal as possible: two groups differ by at most one slot,
      and an earlier group never gets fewer slots than a later one. */
  lemma GroupSizesBalanced(total: int, g: nat, k1: nat, k2: nat)
    requires g > 0 && k1 <= k2 < g
    ensures 0 <= GroupSize(total, g, k1) - GroupSize(total, g, k2) <= 1
    ensures GroupSize(total, g, k1) == total / g + 1 <==> k1 < total % g
  {
  }

  /** The running index moves one way only: forwards for a non-negative
      remainder, backwards for a negative one. */
  lemma {:induction false} GroupStartMonotone(total: int, g: nat, k1: nat, k2: nat)
    requires g > 0 && k1 <= k2
    ensures total >= 0 ==> GroupStart(total, g, k1) <= GroupStart(total, g, k2)
    ensures total < 0 ==> GroupStart(total, g, k1) >= GroupStart(total, g, k2)
    decreases k2
  {
    if k1 < k2 {
      GroupStartMonotone(total, g, k1, k2 - 1);
    }
  }

  /** Every intermediate index lies between the start and the end of the
      walk, so it is never below min(0, total). */
  lemma GroupStartBetween(total: int, g: nat, k: nat)
    requires g > 0 && k <= g
    ensures total >= 0 ==> 0 <= GroupStart(total, g, k) <= total
    ensures total < 0 ==> total <= GroupStart(total, g, k) <= 0
  {
    GroupStartMonotone(total, g, 0, k);
    GroupStartMonotone(total, g, k, g);
    GroupStartTotal(total, g);
  }

  /** Group k holds exactly the offsets from its start up to the next group's
      start: the closed form agrees with the walk in both directions. */
  lemma GroupOfExactly(total: int, g: nat, j: nat, k: nat)
    requires g > 0 && j < total && k < g
    ensures GroupOf(total, g, j) == k <==>
            GroupStart(total, g, k) <= j < GroupStart(total, g, k + 1)
  {
    var k' := GroupOf(total, g, j);
    if GroupStart(total, g, k) <= j < GroupStart(total, g, k + 1) {
      if k' < k {
        GroupStartMonotone(total, g, k' + 1, k);
      } else if k' > k {
        GroupStartMonotone(total, g, k + 1, k');
      }
    }
  }

  /** A later offset never falls into an earlier group. */
  lemma GroupOfMonotone(total: int, g: nat, j1: nat, j2: nat)
    requires g > 0 && j1 <= j2 < total
    ensures GroupOf(total, g, j1) <= GroupOf(total, g, j2)
  {
    var k1, k2 := GroupOf(total, g, j1), GroupOf(total, g, j2);
    if k2 < k1 {
      GroupStartMonotone(total, g, k2 + 1, k1);
    }
  }
}
