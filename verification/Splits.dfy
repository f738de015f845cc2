/**
 Split configurations: who receives which share of a denomination, how a configuration is
 validated and which transfers it produces (packages/covenant-utils/src/split.rs).
 */
module Splits {
  import opened Base
  import opened Decimals

  /** One entry of the `receivers` map; shares are Decimal atomics. */
  datatype Receiver = Receiver(addr: Addr, share: nat)

  /** The `receivers` map as the list of its entries in iteration order. */
  type Split = seq<Receiver>

  ghost predicate DistinctKeys(s: Split) {
    forall i, j :: 0 <= i < j < |s| ==> s[i].addr != s[j].addr
  }

  /** Shares are Decimals, hence bounded. */
  predicate SharesInRange(s: Split) {
    forall i :: 0 <= i < |s| ==> s[i].share <= U128_MAX
  }

  function TotalShares(s: Split): nat {
    if s == [] then 0 else s[0].share + TotalShares(s[1..])
  }

  function NonZeroShares(s: Split): nat {
    if s == [] then 0 else (if s[0].share == 0 then 0 else 1) + NonZeroShares(s[1..])
  }

  /** BTreeMap::get */
  function ShareOf(s: Split, a: Addr): Option<nat> {
    if s == [] then None
    else if s[0].addr == a then Some(s[0].share)
    else ShareOf(s[1..], a)
  }

  /** BTreeMap::insert on a key that is present. */
  function SetShare(s: Split, a: Addr, v: nat): Split {
    if s == [] then []
    else if s[0].addr == a then [Receiver(a, v)] + s[1..]
    else [s[0]] + SetShare(s[1..], a, v)
  }

  lemma {:induction false} ShareOfMember(s: Split, i: nat)
    requires DistinctKeys(s) && i < |s|
    ensures ShareOf(s, s[i].addr) == Some(s[i].share)
  {
    if i > 0 {
      assert s[1..][i - 1] == s[i];
      assert s[0].addr != s[i].addr;
      ShareOfMember(s[1..], i - 1);
    }
  }

  lemma {:induction false} ShareWithinTotal(s: Split, a: Addr)
    ensures ShareOf(s, a).Some? ==> ShareOf(s, a).value <= TotalShares(s)
  {
    if s != [] {
      ShareWithinTotal(s[1..], a);
    }
  }

  /** SplitConfig::validate. The sum of two Decimals panics outside the range. */
  predicate ValidatedFor(s: Split, a: Addr, b: Addr) {
    && ShareOf(s, a).Some?
    && ShareOf(s, b).Some?
    && ShareOf(s, a).value + ShareOf(s, b).value == ONE
  }

  /**
   SplitConfig::validate_shares_and_receiver_addresses. `valid` holds the addresses the
   chain accepts. The running sum panics when it leaves the Decimal range.
   */
  method ValidateShares(s: Split, valid: set<Addr>) returns (ok: bool)
    ensures ok <==> TotalShares(s) == ONE && forall i :: 0 <= i < |s| ==> s[i].addr in valid
  {
    var total := 0;
    var i := 0;
    while i < |s|
      invariant 0 <= i <= |s|
      invariant total + TotalShares(s[i..]) == TotalShares(s)
      invariant forall j :: 0 <= j < i ==> s[j].addr in valid
    {
      if s[i].addr !in valid {
        return false;
      }
      assert s[i..][1..] == s[i + 1..];
      total := total + s[i].share;
      if total > U128_MAX {
        return false;
      }
      i := i + 1;
    }
    ok := total == ONE;
  }

  /** One transfer produced by a split. */
  datatype Payment = Payment(to: Addr, amount: nat)

  /** The share a receiver is paid with, given the optional single receiver. */
  function EffectiveShare(r: Receiver, filter: Option<Addr>): nat {
    match filter
    case Some(f) => if f == r.addr then ONE else 0
    case None => r.share
  }

  /** SplitConfig::get_transfer_messages; None stands for the error. */
  function TransferMessages(s: Split, amount: nat, filter: Option<Addr>): Option<seq<Payment>> {
    if s == [] then Some([])
    else
      var share := EffectiveShare(s[0], filter);
      var rest := TransferMessages(s[1..], amount, filter);
      if share == 0 then rest
      else
        var e := CheckedMultiplyRatio(amount, share, ONE);
        if e.None? || rest.None? then None
        else Some([Payment(s[0].addr, e.value)] + rest.value)
  }

  function TotalPaid(ps: seq<Payment>): nat {
    if ps == [] then 0 else ps[0].amount + TotalPaid(ps[1..])
  }

  function PaidTo(ps: seq<Payment>, a: Addr): nat {
    if ps == [] then 0 else (if ps[0].to == a then ps[0].amount else 0) + PaidTo(ps[1..], a)
  }

  /** The payment of the first receiver is the floor of its share. */
  lemma HeadIsTheFloor(s: Split, amount: nat)
    requires s != [] && s[0].share <= ONE && amount <= U128_MAX
    requires TransferMessages(s[1..], amount, None).Some?
    ensures var rest := TransferMessages(s[1..], amount, None).value;
            var e := amount * s[0].share / ONE;
            && e * ONE <= amount * s[0].share < e * ONE + ONE
            && TransferMessages(s, amount, None).Some?
            && var ms := TransferMessages(s, amount, None).value;
            if s[0].share == 0 then e == 0 && ms == rest
            else ms == [Payment(s[0].addr, e)] + rest && TotalPaid(ms) == e + TotalPaid(rest)
  {
    RatioInRange(amount, s[0].share, ONE);
    FloorBounds(amount * s[0].share, ONE);
    var rest := TransferMessages(s[1..], amount, None).value;
    assert ([Payment(s[0].addr, amount * s[0].share / ONE)] + rest)[1..] == rest;
  }

  /** Rounding loses less than one unit per paid receiver, for any total not above one. */
  lemma {:induction false} EntitlementBounds(s: Split, amount: nat)
    requires TotalShares(s) <= ONE && amount <= U128_MAX
    ensures var ms := TransferMessages(s, amount, None);
            && ms.Some?
            && |ms.value| == NonZeroShares(s)
            && RoundedDown(TotalPaid(ms.value), amount * TotalShares(s), NonZeroShares(s))
  {
    if s == [] {
      assert amount * 0 == 0;
    } else {
      EntitlementBounds(s[1..], amount);
      HeadIsTheFloor(s, amount);
      var rest := TransferMessages(s[1..], amount, None).value;
      var x, t := s[0].share, TotalShares(s[1..]);
      MulDistributes(amount, x, t);
      if x != 0 {
        RoundedDownAdds(amount * x / ONE, amount * x, TotalPaid(rest), amount * t, NonZeroShares(s[1..]));
      }
    }
  }

  lemma MulDistributes(k: nat, x: nat, y: nat)
    ensures k * (x + y) == k * x + k * y
    ensures k * 0 == 0
  {
  }

  /** `paid` units stand for `exact` atomics, with less than one unit lost in each of n roundings. */
  ghost predicate RoundedDown(paid: nat, exact: nat, n: nat) {
    paid * ONE <= exact <= paid * ONE + n * (ONE - 1)
  }

  lemma RoundedDownAdds(e: nat, exact: nat, paid: nat, rest: nat, n: nat)
    requires e * ONE <= exact < e * ONE + ONE
    requires RoundedDown(paid, rest, n)
    ensures RoundedDown(e + paid, exact + rest, n + 1)
  {
  }

  /**
   Conservation with a dust bound: a split whose shares sum to one never fails, pays at most
   the amount, and leaves at most one unit less than the number of paid receivers.
   */
  lemma SplitConservation(s: Split, amount: nat)
    requires TotalShares(s) == ONE && amount <= U128_MAX
    ensures var ms := TransferMessages(s, amount, None);
            && ms.Some?
            && |ms.value| == NonZeroShares(s) >= 1
            && TotalPaid(ms.value) <= amount <= TotalPaid(ms.value) + NonZeroShares(s) - 1
  {
    EntitlementBounds(s, amount);
    SomeShareIsPositive(s);
  }

  lemma {:induction false} SomeShareIsPositive(s: Split)
    ensures TotalShares(s) > 0 <==> NonZeroShares(s) >= 1
  {
    if s != [] {
      SomeShareIsPositive(s[1..]);
    }
  }

  /** Some receiver's entitlement leaves Uint128. */
  predicate Overflows(s: Split, amount: nat) {
    exists i :: 0 <= i < |s| && amount * s[i].share >= (U128_MAX + 1) * ONE
  }

  /** A split fails exactly when some entitlement leaves the range. */
  lemma {:induction false} TransferFailsIff(s: Split, amount: nat)
    ensures TransferMessages(s, amount, None).None? <==> Overflows(s, amount)
  {
    if s != [] {
      TransferFailsIff(s[1..], amount);
      assert amount * 0 == 0;
      assert forall i :: 1 <= i < |s| ==> s[i] == s[1..][i - 1];
      assert forall i :: 0 <= i < |s[1..]| ==> s[1..][i] == s[i + 1];
    }
  }

  /** Whatever the shares, a split that does not fail pays everybody the floor, and nobody else. */
  lemma {:induction false} PaidUnlessItFails(s: Split, amount: nat, a: Addr)
    requires DistinctKeys(s) && TransferMessages(s, amount, None).Some?
    ensures PaidTo(TransferMessages(s, amount, None).value, a) ==
            match ShareOf(s, a) case Some(x) => amount * x / ONE case None => 0
  {
    if s != [] {
      PaidUnlessItFails(s[1..], amount, a);
      var x := s[0].share;
      var rest := TransferMessages(s[1..], amount, None).value;
      if x == 0 {
        assert amount * 0 / ONE == 0;
      } else {
        var e := CheckedMultiplyRatio(amount, x, ONE).value;
        FloorUnique(amount * x, ONE, e);
        assert ([Payment(s[0].addr, e)] + rest)[1..] == rest;
      }
      if s[0].addr == a {
        AbsentKey(s[1..], a);
      }
    }
  }

  /** Every receiver gets exactly the floor of its share, and nobody else is paid. */
  lemma PaidIsTheFloor(s: Split, amount: nat, a: Addr)
    requires DistinctKeys(s)
    requires TotalShares(s) <= ONE && amount <= U128_MAX
    ensures var ms := TransferMessages(s, amount, None);
            && ms.Some?
            && PaidTo(ms.value, a) == match ShareOf(s, a) case Some(x) => amount * x / ONE case None => 0
  {
    EntitlementBounds(s, amount);
    PaidUnlessItFails(s, amount, a);
  }

  lemma {:induction false} AbsentKey(s: Split, a: Addr)
    ensures (forall i :: 0 <= i < |s| ==> s[i].addr != a) <==> ShareOf(s, a).None?
  {
    if s != [] {
      AbsentKey(s[1..], a);
      assert forall i :: 1 <= i < |s| ==> s[i] == s[1..][i - 1];
      assert forall i :: 0 <= i < |s[1..]| ==> s[1..][i] == s[i + 1];
    }
  }

  /** A single receiver takes everything exactly when it is one of the receivers. */
  lemma {:induction false} SingleReceiver(s: Split, amount: nat, f: Addr)
    requires DistinctKeys(s) && amount <= U128_MAX
    ensures TransferMessages(s, amount, Some(f)) ==
            Some(if ShareOf(s, f).Some? then [Payment(f, amount)] else [])
  {
    if s != [] {
      SingleReceiver(s[1..], amount, f);
      if s[0].addr == f {
        AbsentKey(s[1..], f);
        RatioInRange(amount, ONE, ONE);
        FloorUnique(amount * ONE, ONE, amount);
        assert [Payment(f, amount)] + [] == [Payment(f, amount)];
      }
    }
  }

  /**
   A split pays out at most what came in, for every amount, exactly when the shares of all
   receivers together do not exceed one.
   */
  lemma OverpaysExactlyAboveOne(s: Split)
    requires SharesInRange(s)
    ensures TotalShares(s) <= ONE <==>
            forall amount: nat :: amount <= U128_MAX ==> NeverOverpays(s, amount)
  {
    if TotalShares(s) <= ONE {
      forall amount: nat | amount <= U128_MAX ensures NeverOverpays(s, amount) {
        EntitlementBounds(s, amount);
        MulMonotone(TotalShares(s), ONE, amount);
        MulMonotone(amount, TotalPaid(TransferMessages(s, amount, None).value), ONE);
      }
    } else {
      WholeUnitPaysShares(s);
      assert !NeverOverpays(s, ONE);
    }
  }

  function OthersTotal(s: Split, a: Addr, b: Addr): nat {
    if s == [] then 0
    else (if s[0].addr == a || s[0].addr == b then 0 else s[0].share) + OthersTotal(s[1..], a, b)
  }

  lemma {:induction false} TotalOfTwoAndOthers(s: Split, a: Addr, b: Addr)
    requires DistinctKeys(s) && a != b
    ensures TotalShares(s) == OthersTotal(s, a, b)
                              + (match ShareOf(s, a) case Some(x) => x case None => 0)
                              + (match ShareOf(s, b) case Some(y) => y case None => 0)
    ensures OthersTotal(s, a, b) == 0 <==>
            forall i :: 0 <= i < |s| && s[i].addr != a && s[i].addr != b ==> s[i].share == 0
  {
    if s != [] {
      TotalOfTwoAndOthers(s[1..], a, b);
      AbsentKey(s[1..], s[0].addr);
      assert forall i :: 1 <= i < |s| ==> s[i] == s[1..][i - 1];
      assert forall i :: 0 <= i < |s[1..]| ==> s[1..][i] == s[i + 1];
    }
  }

  /**
   A split that passed SplitConfig::validate for two parties never pays out more than came in
   exactly when every further receiver holds nothing.
   */
  lemma ValidatedOverpaysIff(s: Split, a: Addr, b: Addr)
    requires DistinctKeys(s) && SharesInRange(s) && a != b && ValidatedFor(s, a, b)
    ensures (forall amount: nat :: amount <= U128_MAX ==> NeverOverpays(s, amount)) <==>
            forall i :: 0 <= i < |s| && s[i].addr != a && s[i].addr != b ==> s[i].share == 0
  {
    OverpaysExactlyAboveOne(s);
    TotalOfTwoAndOthers(s, a, b);
  }

  /** Two halves for the parties and a further half validate, and three units leave for two. */
  lemma ThirdReceiverOverpays(a: Addr, b: Addr, c: Addr)
    requires a != b && b != c && a != c
    ensures var half := ONE / 2;
            var s := [Receiver(a, half), Receiver(b, half), Receiver(c, half)];
            && DistinctKeys(s) && ValidatedFor(s, a, b)
            && TransferMessages(s, 2, None) == Some([Payment(a, 1), Payment(b, 1), Payment(c, 1)])
  {
    var half := ONE / 2;
    var s := [Receiver(a, half), Receiver(b, half), Receiver(c, half)];
    var s1, s2 := [Receiver(b, half), Receiver(c, half)], [Receiver(c, half)];
    assert s[1..] == s1 && s1[1..] == s2 && s2[1..] == [];
    assert 2 * half / ONE == 1;
    HeadIsTheFloor(s2, 2);
    HeadIsTheFloor(s1, 2);
    HeadIsTheFloor(s, 2);
    var ms := TransferMessages(s, 2, None).value;
    assert ms == [Payment(a, 1)] + ([Payment(b, 1)] + ([Payment(c, 1)] + []));
    assert ms == [Payment(a, 1), Payment(b, 1), Payment(c, 1)];
    assert ShareOf(s1, b) == Some(half);
    assert ShareOf(s, a) == Some(half);
    assert ShareOf(s, b) == Some(half);
    assert DistinctKeys(s);
  }

  ghost predicate NeverOverpays(s: Split, amount: nat) {
    var ms := TransferMessages(s, amount, None);
    ms.Some? ==> TotalPaid(ms.value) <= amount
  }

  lemma {:induction false} WholeUnitPaysShares(s: Split)
    requires SharesInRange(s)
    ensures TransferMessages(s, ONE, None).Some?
    ensures TotalPaid(TransferMessages(s, ONE, None).value) == TotalShares(s)
  {
    if s != [] {
      WholeUnitPaysShares(s[1..]);
      var rest := TransferMessages(s[1..], ONE, None).value;
      var x := s[0].share;
      if x != 0 {
        MulMonotone(x, U128_MAX, ONE);
        var e := CheckedMultiplyRatio(ONE, x, ONE);
        FloorUnique(ONE * x, ONE, x);
        assert e == Some(x);
        assert ([Payment(s[0].addr, x)] + rest)[1..] == rest;
      }
    }
  }

  /** SplitConfig::remap_receivers_to_routers; None stands for the error. */
  function RemapToRouters(s: Split, receiverA: Addr, routerA: Addr, receiverB: Addr, routerB: Addr): Option<Split> {
    match (ShareOf(s, receiverA), ShareOf(s, receiverB))
    case (Some(x), Some(y)) =>
      if routerA == routerB then Some([Receiver(routerB, y)])
      else Some([Receiver(routerA, x), Receiver(routerB, y)])
    case _ => None
  }

  /**
   A split that names both parties becomes, for two routers, a split with exactly these two
   receivers; it is validated for the routers exactly when it was validated for the receivers,
   and then its shares sum to one.
   */
  lemma RemapKeepsValidation(s: Split, receiverA: Addr, routerA: Addr, receiverB: Addr, routerB: Addr)
    requires routerA != routerB
    ensures var r := RemapToRouters(s, receiverA, routerA, receiverB, routerB);
            && (r.Some? <==> ShareOf(s, receiverA).Some? && ShareOf(s, receiverB).Some?)
            && (r.Some? ==>
                  && DistinctKeys(r.value)
                  && ShareOf(r.value, routerA) == ShareOf(s, receiverA)
                  && ShareOf(r.value, routerB) == ShareOf(s, receiverB)
                  && (ValidatedFor(r.value, routerA, routerB) <==> ValidatedFor(s, receiverA, receiverB))
                  && (ValidatedFor(r.value, routerA, routerB) <==> TotalShares(r.value) == ONE))
  {
    var r := RemapToRouters(s, receiverA, routerA, receiverB, routerB);
    if r.Some? {
      assert r.value[1..] == [r.value[1]];
      assert r.value[1..][1..] == [];
      assert TotalShares(r.value[1..]) == r.value[1].share + TotalShares([]);
    }
  }

  /** With one router for both, the second receiver's share is the one that stays. */
  lemma RemapToOneRouter(s: Split, receiverA: Addr, receiverB: Addr, router: Addr, a: Addr)
    requires RemapToRouters(s, receiverA, router, receiverB, router).Some?
    ensures var r := RemapToRouters(s, receiverA, router, receiverB, router).value;
            && DistinctKeys(r) && |r| == 1
            && ShareOf(r, a) == if a == router then ShareOf(s, receiverB) else None
  {
    var r := RemapToRouters(s, receiverA, router, receiverB, router).value;
    assert r[1..] == [];
  }

  /** remap_splits, in any order of the denominations; one split that misses a party fails all. */
  method RemapSplits(splits: map<Denom, Split>, receiverA: Addr, routerA: Addr, receiverB: Addr, routerB: Addr)
    returns (r: Option<map<Denom, Split>>)
    ensures r.Some? <==>
            forall d :: d in splits ==> RemapToRouters(splits[d], receiverA, routerA, receiverB, routerB).Some?
    ensures r.Some? ==>
              && r.value.Keys == splits.Keys
              && forall d :: d in splits ==>
                   RemapToRouters(splits[d], receiverA, routerA, receiverB, routerB) == Some(r.value[d])
  {
    var remapped: map<Denom, Split> := map[];
    var remaining := splits.Keys;
    while remaining != {}
      invariant remaining <= splits.Keys && remapped.Keys == splits.Keys - remaining
      invariant forall d :: d in remapped ==>
                  RemapToRouters(splits[d], receiverA, routerA, receiverB, routerB) == Some(remapped[d])
    {
      var denom :| denom in remaining;
      var split := RemapToRouters(splits[denom], receiverA, routerA, receiverB, routerB);
      if split.None? {
        return None;
      }
      remapped := remapped[denom := split.value];
      remaining := remaining - {denom};
    }
    r := Some(remapped);
  }
}
