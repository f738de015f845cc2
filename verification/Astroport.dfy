/** Amounts computed by the Astroport liquid pooler (contracts/astroport-liquid-pooler/src/contract.rs). */
module Astroport {
  import opened Base
  import opened Decimals

  // ---------- Providing liquidity ----------

  /** The pool's balances of the two denominations; the last entry of each counts. */
  function PoolBalance(assets: seq<Coin>, d: Denom): nat {
    if assets == [] then 0
    else if assets[|assets| - 1].denom == d then assets[|assets| - 1].amount
    else PoolBalance(assets[..|assets| - 1], d)
  }

  /** The balance is that of the last entry of the denomination. */
  lemma {:induction false} PoolBalanceIsLast(assets: seq<Coin>, d: Denom, i: nat)
    requires i < |assets| && assets[i].denom == d && forall j :: i < j < |assets| ==> assets[j].denom != d
    ensures PoolBalance(assets, d) == assets[i].amount
    decreases |assets|
  {
    if i < |assets| - 1 {
      assert assets[..|assets| - 1][i] == assets[i];
      PoolBalanceIsLast(assets[..|assets| - 1], d, i);
    }
  }

  /** get_pool_asset_amounts: None unless both balances are positive. */
  method GetPoolAssetAmounts(assets: seq<Coin>, denomA: Denom, denomB: Denom) returns (r: Option<(nat, nat)>)
    ensures r == if denomA == denomB || PoolBalance(assets, denomA) == 0 || PoolBalance(assets, denomB) == 0 then None
                 else Some((PoolBalance(assets, denomA), PoolBalance(assets, denomB)))
  {
    var a, b := 0, 0;
    var i := 0;
    while i < |assets|
      invariant 0 <= i <= |assets|
      invariant a == if denomA == denomB then 0 else PoolBalance(assets[..i], denomA)
      invariant b == PoolBalance(assets[..i], denomB)
    {
      assert assets[..i + 1][..i] == assets[..i];
      if assets[i].denom == denomB {
        b := assets[i].amount;
      } else if assets[i].denom == denomA {
        a := assets[i].amount;
      }
      i := i + 1;
    }
    assert assets[..i] == assets;
    r := if a == 0 || b == 0 then None else Some((a, b));
  }

  /** Decimal::from_ratio; None where it panics. */
  function FromRatio(x: nat, y: nat): Option<nat>
    requires y > 0
  {
    CheckedMultiplyRatio(x, ONE, y)
  }

  /** Decimal::checked_mul_uint128 */
  function CheckedMulUint128(ratio: nat, x: nat): Option<nat> {
    if ratio == 0 || x == 0 then Some(0) else CheckedMultiplyRatio(x, ratio, ONE)
  }

  /** The other side's amount for x, through a ratio of 18 decimals: two truncations. */
  function OtherSide(x: nat, poolOther: nat, poolOwn: nat): Option<nat>
    requires poolOwn > 0
  {
    match FromRatio(poolOther, poolOwn)
    case None => None
    case Some(ratio) => CheckedMulUint128(ratio, x)
  }

  /** try_get_double_side_lp_submsg: the amounts of both sides, or None when it aborts. */
  function DoubleSided(a: nat, b: nat, poolA: nat, poolB: nat): Option<(nat, nat)>
    requires poolA > 0 && poolB > 0
  {
    match OtherSide(b, poolA, poolB)
    case None => None
    case Some(requiredA) =>
      if a >= requiredA then Some((requiredA, b))
      else
        match OtherSide(a, poolB, poolA)
        case None => None
        case Some(y) => Some((a, y))
  }

  /**
   Two truncations stay at or below the exact pool-ratio amount x * poolOther / poolOwn, and
   less than 1 + x / 10^18 below it.
   */
  lemma OtherSideBounds(x: nat, poolOther: nat, poolOwn: nat)
    requires poolOwn > 0
    ensures OtherSide(x, poolOther, poolOwn).Some? ==>
              var y := OtherSide(x, poolOther, poolOwn).value;
              && y * poolOwn <= x * poolOther
              && x * poolOther * ONE < (y * ONE + ONE + x) * poolOwn
  {
    if OtherSide(x, poolOther, poolOwn).Some? {
      var ratio := FromRatio(poolOther, poolOwn).value;
      var y := OtherSide(x, poolOther, poolOwn).value;
      assert ratio == 0 || x == 0 ==> x * ratio == 0 && y == 0;
      assert y * ONE <= x * ratio < y * ONE + ONE;
      TwoTruncations(x, poolOther, poolOwn, ratio, y);
    }
  }

  lemma TwoTruncations(x: nat, other: nat, own: nat, ratio: nat, y: nat)
    requires own > 0
    requires ratio * own <= other * ONE < (ratio + 1) * own
    requires y * ONE <= x * ratio < y * ONE + ONE
    ensures y * own <= x * other
    ensures x * other * ONE < (y * ONE + ONE + x) * own
  {
    TruncatedBelow(x, other, own, ratio, y);
    TruncatedAbove(x, other, own, ratio, y);
  }

  /** y * own * ONE <= x * ratio * own <= x * other * ONE */
  lemma TruncatedBelow(x: nat, other: nat, own: nat, ratio: nat, y: nat)
    requires ratio * own <= other * ONE && y * ONE <= x * ratio
    ensures y * own <= x * other
  {
    MulMonotone(y * ONE, x * ratio, own);
    MulMonotone(ratio * own, other * ONE, x);
    Commute(x, ratio, own);
    Commute(x, other, ONE);
    Commute(own, y, ONE);
    MulMonotone(x * other + 1, y * own, ONE);
  }

  /** x * other * ONE <= x * (ratio + 1) * own < (y * ONE + ONE + x) * own */
  lemma TruncatedAbove(x: nat, other: nat, own: nat, ratio: nat, y: nat)
    requires own > 0 && other * ONE < (ratio + 1) * own && x * ratio < y * ONE + ONE
    ensures x * other * ONE < (y * ONE + ONE + x) * own
  {
    MulMonotone(other * ONE, (ratio + 1) * own, x);
    Commute(x, ratio + 1, own);
    Commute(x, other, ONE);
    assert x * (ratio + 1) == x * ratio + x;
    MulMonotone(x * ratio + x, y * ONE + ONE + x, own);
  }

  lemma Commute(x: nat, y: nat, z: nat)
    ensures x * y * z == y * z * x
    ensures x * (y * z) == x * y * z
  {
  }

  /**
   Whatever the balances and the pool, the amounts never exceed what the pooler owns, one of
   them is used in full, and the other is the pool-ratio amount up to the rounding.
   */
  lemma DoubleSidedBounds(a: nat, b: nat, poolA: nat, poolB: nat)
    requires poolA > 0 && poolB > 0
    ensures DoubleSided(a, b, poolA, poolB).Some? ==>
              var (x, y) := DoubleSided(a, b, poolA, poolB).value;
              && x <= a && y <= b
              && ((y == b && x == OtherSide(b, poolA, poolB).value
                   && x * poolB <= b * poolA && b * poolA * ONE < (x * ONE + ONE + b) * poolB)
                  || (x == a && y < b && y == OtherSide(a, poolB, poolA).value
                      && y * poolA <= a * poolB && a * poolB * ONE < (y * ONE + ONE + a) * poolA))
  {
    if DoubleSided(a, b, poolA, poolB).Some? {
      var requiredA := OtherSide(b, poolA, poolB).value;
      OtherSideBounds(b, poolA, poolB);
      if a < requiredA {
        OtherSideBounds(a, poolB, poolA);
        var y := OtherSide(a, poolB, poolA).value;
        // y * poolA <= a * poolB < requiredA * poolB <= b * poolA
        MulMonotone(a, requiredA, poolB);
        MulMonotone(b, y, poolA);
      }
    }
  }

  /** The other side's amount is computed exactly when neither the ratio nor the product leaves the range. */
  lemma OtherSideIff(x: nat, poolOther: nat, poolOwn: nat)
    requires poolOwn > 0
    ensures OtherSide(x, poolOther, poolOwn).Some? <==>
            && poolOther * ONE < (U128_MAX + 1) * poolOwn
            && x * (poolOther * ONE / poolOwn) < (U128_MAX + 1) * ONE
  {
    if poolOther * ONE < (U128_MAX + 1) * poolOwn {
      var ratio := FromRatio(poolOther, poolOwn).value;
      FloorUnique(poolOther * ONE, poolOwn, ratio);
      assert ratio == 0 || x == 0 ==> x * ratio == 0;
    }
  }

  /**
   The computation of a double-sided deposit aborts exactly when the amount required of the first
   asset leaves the range, or when it is more than there is and the inverse ratio does; the
   inverse product never does.
   */
  lemma DoubleSidedIff(a: nat, b: nat, poolA: nat, poolB: nat)
    requires poolA > 0 && poolB > 0 && b <= U128_MAX
    ensures DoubleSided(a, b, poolA, poolB).Some? <==>
            && OtherSide(b, poolA, poolB).Some?
            && (OtherSide(b, poolA, poolB).value > a ==> poolB * ONE < (U128_MAX + 1) * poolA)
  {
    if OtherSide(b, poolA, poolB).Some? && OtherSide(b, poolA, poolB).value > a
       && poolB * ONE < (U128_MAX + 1) * poolA {
      var ratio := FromRatio(poolB, poolA).value;
      FloorUnique(poolB * ONE, poolA, ratio);
      OtherSideBounds(b, poolA, poolB);
      InverseInRange(a, b, OtherSide(b, poolA, poolB).value, poolA, poolB, ratio);
      OtherSideIff(a, poolB, poolA);
    }
  }

  /** What the smaller first asset is worth stays below the second one: a * ratio < (b + 1) * ONE. */
  lemma InverseInRange(a: nat, b: nat, required: nat, poolA: nat, poolB: nat, ratio: nat)
    requires poolA > 0 && poolB > 0 && a < required && b <= U128_MAX
    requires required * poolB <= b * poolA
    requires ratio * poolA <= poolB * ONE
    ensures a * ratio < (U128_MAX + 1) * ONE
  {
    // a * ratio * poolA <= a * poolB * ONE <= b * poolA * ONE
    MulMonotone(ratio * poolA, poolB * ONE, a);
    MulMonotone(a, required, poolB);
    MulMonotone(a * poolB, b * poolA, ONE);
    assert ratio * poolA * a == a * ratio * poolA by { Commute(a, ratio, poolA); }
    assert poolB * ONE * a == a * poolB * ONE by { Commute(a, poolB, ONE); }
    assert b * poolA * ONE == b * ONE * poolA by { Commute(b, poolA, ONE); Commute(b, ONE, poolA); }
    MulMonotone(b * ONE + 1, a * ratio, poolA);
    MulMonotone(b, U128_MAX + 1, ONE);
  }

  // ---------- Redeeming liquidity ----------

  /** The LP tokens redeemed for a fraction p of the balance; None where the pooler errors. */
  function Redeem(balance: nat, p: nat): Option<nat> {
    if p == ONE then Some(balance)
    else if balance * ONE > U128_MAX then None
    else
      var product := balance * ONE * p / ONE;
      if product > U128_MAX then None else Some(product / ONE)
  }

  /**
   For every fraction the holder can send, the Osmosis pooler always computes the floor of
   balance * p; the Astroport pooler computes the same floor or errors, and errors exactly
   when the balance has no representation with 18 decimals and less than all is asked for.
   */
  lemma PoolersComputeSameFloor(balance: nat, p: nat)
    requires 0 < p <= ONE && balance <= U128_MAX
    ensures CheckedMultiplyRatio(balance, p, ONE) == Some(balance * p / ONE)
    ensures Redeem(balance, p).Some? <==> p == ONE || balance * ONE <= U128_MAX
    ensures Redeem(balance, p).Some? ==> Redeem(balance, p) == Some(balance * p / ONE)
    ensures balance * p / ONE <= balance
    ensures p < ONE && balance > 0 ==> balance * p / ONE < balance
  {
    RatioInRange(balance, p, ONE);
    FloorBounds(balance * p, ONE);
    if p == ONE {
      FloorUnique(balance * ONE, ONE, balance);
    } else {
      MulMonotone(p, ONE, balance);
      assert balance * ONE * p == balance * p * ONE by { Commute(balance, ONE, p); }
      FloorUnique(balance * p * ONE, ONE, balance * p);
      if balance > 0 {
        MulMonotone(balance, balance * p / ONE, ONE);
        MulMonotone(p + 1, ONE, balance);
      }
    }
  }
}
