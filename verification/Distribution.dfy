/**
 The holder's table of splits: what a distribution pays for every denomination and how a
 ragequit penalty moves shares between the two routers
 (contracts/two-party-pol-holder/src/msg.rs).
 */
module Distribution {
  import opened Base
  import opened Decimals
  import opened Splits

  datatype DenomSplits = DenomSplits(explicit: map<Denom, Split>, fallback: Option<Split>)

  ghost predicate ExplicitKeyed(ds: DenomSplits) {
    forall d :: d in ds.explicit ==> DistinctKeys(ds.explicit[d])
  }

  ghost predicate WellKeyed(ds: DenomSplits) {
    && ExplicitKeyed(ds)
    && (ds.fallback.Some? ==> DistinctKeys(ds.fallback.value))
  }

  /** Every explicit split shares out at most the whole. */
  ghost predicate WithinOne(ds: DenomSplits) {
    forall d :: d in ds.explicit ==> TotalShares(ds.explicit[d]) <= ONE
  }

  function ToSends(ps: seq<Payment>, d: Denom): seq<Send> {
    if ps == [] then [] else [Send(ps[0].to, Coin(d, ps[0].amount))] + ToSends(ps[1..], d)
  }

  /** The transfers for one coin: none without an explicit split, or when the split errors. */
  function CoinMessages(ds: DenomSplits, c: Coin, filter: Option<Addr>): seq<Send> {
    if c.denom !in ds.explicit then []
    else
      match TransferMessages(ds.explicit[c.denom], c.amount, filter)
      case Some(ps) => ToSends(ps, c.denom)
      case None => []
  }

  /**
   get_shared_distribution_messages (no filter) and
   get_single_receiver_distribution_messages (filter on one router).
   */
  function DistributionMessages(ds: DenomSplits, coins: seq<Coin>, filter: Option<Addr>): seq<Send> {
    if coins == [] then []
    else CoinMessages(ds, coins[0], filter) + DistributionMessages(ds, coins[1..], filter)
  }

  lemma {:induction false} SentOfToSends(ps: seq<Payment>, d: Denom, e: Denom)
    ensures SentOf(ToSends(ps, d), e) == if d == e then TotalPaid(ps) else 0
  {
    if ps != [] {
      SentOfToSends(ps[1..], d, e);
      assert ToSends(ps, d)[1..] == ToSends(ps[1..], d);
    }
  }

  ghost predicate InRange(coins: seq<Coin>) {
    forall i :: 0 <= i < |coins| ==> coins[i].amount <= U128_MAX
  }

  lemma MulSuccessor(n: int, k: nat)
    ensures n * (k + 1) == n * k + n
  {
  }

  /** One coin of a covered denomination, shared out. */
  lemma CoinConserves(ds: DenomSplits, c: Coin, d: Denom)
    requires WithinOne(ds) && c.amount <= U128_MAX && c.denom in ds.explicit
    ensures var sent := SentOf(CoinMessages(ds, c, None), d);
            && (d != c.denom ==> sent == 0)
            && (d == c.denom ==>
                  && sent <= c.amount
                  && (TotalShares(ds.explicit[d]) == ONE ==>
                        c.amount <= sent + NonZeroShares(ds.explicit[d]) - 1))
  {
    var s := ds.explicit[c.denom];
    EntitlementBounds(s, c.amount);
    var ps := TransferMessages(s, c.amount, None).value;
    SentOfToSends(ps, c.denom, d);
    MulMonotone(TotalShares(s), ONE, c.amount);
    if TotalShares(s) == ONE {
      SplitConservation(s, c.amount);
    }
  }

  /**
   A shared distribution never pays out more of a denomination than the coins carry, and pays
   nothing of a denomination without an explicit split.
   */
  lemma {:induction false} SharedDistributionConserves(ds: DenomSplits, coins: seq<Coin>, d: Denom)
    requires WithinOne(ds) && InRange(coins)
    ensures var sent := SentOf(DistributionMessages(ds, coins, None), d);
            && sent <= AmountOf(coins, d)
            && (d !in ds.explicit ==> sent == 0)
            && (d in ds.explicit && TotalShares(ds.explicit[d]) == ONE ==>
                  AmountOf(coins, d) <= sent + (NonZeroShares(ds.explicit[d]) - 1) * |coins|)
  {
    if coins != [] {
      var c := coins[0];
      SharedDistributionConserves(ds, coins[1..], d);
      SentOfConcat(CoinMessages(ds, c, None), DistributionMessages(ds, coins[1..], None), d);
      if d in ds.explicit {
        SomeShareIsPositive(ds.explicit[d]);
        var n := NonZeroShares(ds.explicit[d]) - 1;
        MulSuccessor(n, |coins[1..]|);
      }
      if c.denom in ds.explicit {
        CoinConserves(ds, c, d);
      }
    }
  }

  ghost predicate InDecimalRange(ds: DenomSplits) {
    forall d :: d in ds.explicit ==> SharesInRange(ds.explicit[d])
  }

  ghost predicate SharesOutAtMost(ds: DenomSplits, coins: seq<Coin>, d: Denom) {
    SentOf(DistributionMessages(ds, coins, None), d) <= AmountOf(coins, d)
  }

  /** No funds are ever overpaid exactly when every explicit split shares out at most the whole. */
  lemma SharedDistributionIff(ds: DenomSplits)
    requires InDecimalRange(ds)
    ensures WithinOne(ds) <==> forall coins, d :: InRange(coins) ==> SharesOutAtMost(ds, coins, d)
  {
    if WithinOne(ds) {
      forall coins, d | InRange(coins) ensures SharesOutAtMost(ds, coins, d) {
        SharedDistributionConserves(ds, coins, d);
      }
    } else {
      var d :| d in ds.explicit && TotalShares(ds.explicit[d]) > ONE;
      WholeUnitOverpays(ds, d);
      assert !SharesOutAtMost(ds, [Coin(d, ONE)], d) && InRange([Coin(d, ONE)]);
    }
  }

  /** Sharing out 10^18 units pays every receiver its share in units. */
  lemma WholeUnitOverpays(ds: DenomSplits, d: Denom)
    requires d in ds.explicit && SharesInRange(ds.explicit[d])
    ensures SentOf(DistributionMessages(ds, [Coin(d, ONE)], None), d) == TotalShares(ds.explicit[d])
    ensures AmountOf([Coin(d, ONE)], d) == ONE
  {
    var coins := [Coin(d, ONE)];
    WholeUnitPaysShares(ds.explicit[d]);
    SentOfToSends(TransferMessages(ds.explicit[d], ONE, None).value, d, d);
    assert coins[1..] == [];
    assert AmountOf(coins, d) == ONE + AmountOf([], d);
    var ms := CoinMessages(ds, coins[0], None);
    assert DistributionMessages(ds, coins, None) == ms + [] == ms;
  }

  /**
   A distribution to one router that every explicit split names hands it the full amount of
   every covered denomination, and nobody else is paid.
   */
  lemma {:induction false} SingleReceiverGetsAll(ds: DenomSplits, coins: seq<Coin>, router: Addr, d: Denom)
    requires ExplicitKeyed(ds) && InRange(coins)
    requires forall e :: e in ds.explicit ==> ShareOf(ds.explicit[e], router).Some?
    ensures var ms := DistributionMessages(ds, coins, Some(router));
            && SentOf(ms, d) == (if d in ds.explicit then AmountOf(coins, d) else 0)
            && forall i :: 0 <= i < |ms| ==> ms[i].to == router
  {
    if coins != [] {
      var c := coins[0];
      SingleReceiverGetsAll(ds, coins[1..], router, d);
      SentOfConcat(CoinMessages(ds, c, Some(router)), DistributionMessages(ds, coins[1..], Some(router)), d);
      if c.denom in ds.explicit {
        SingleReceiver(ds.explicit[c.denom], c.amount, router);
        var ps := [Payment(router, c.amount)];
        assert ps[1..] == [];
        assert ToSends(ps, c.denom) == [Send(router, c)];
      }
    }
  }

  // ---------- The ragequit penalty ----------

  /** Moves `penalty` from one router's share to the other's; None stands for the error. */
  function MovePenalty(s: Split, penalty: nat, party: Addr, counterparty: Addr): Option<Split> {
    match (ShareOf(s, party), ShareOf(s, counterparty))
    case (Some(x), Some(y)) =>
      if x < penalty || y + penalty > U128_MAX then None
      else Some(SetShare(SetShare(s, party, x - penalty), counterparty, y + penalty))
    case _ => None
  }

  /** Explicit splits in which the party holds nothing are left as they are. */
  function PenalizeExplicit(s: Split, penalty: nat, party: Addr, counterparty: Addr): Option<Split> {
    match ShareOf(s, party)
    case None => None
    case Some(x) => if x == 0 then Some(s) else MovePenalty(s, penalty, party, counterparty)
  }

  /** The penalized table: every split on its own, or an error when one of them fails. */
  function Penalized(ds: DenomSplits, penalty: nat, party: Addr, counterparty: Addr): Option<DenomSplits> {
    if exists d :: d in ds.explicit && PenalizeExplicit(ds.explicit[d], penalty, party, counterparty).None? then None
    else
      var explicit := map d | d in ds.explicit :: PenalizeExplicit(ds.explicit[d], penalty, party, counterparty).value;
      match ds.fallback
      case None => Some(DenomSplits(explicit, None))
      case Some(s) =>
        var f := MovePenalty(s, penalty, party, counterparty);
        if f.None? then None else Some(DenomSplits(explicit, f))
  }

  datatype PenaltyError = PartyNotFound | ShareOverflow

  /** Why a penalty cannot be moved within one split, if it cannot. */
  function MoveError(s: Split, penalty: nat, party: Addr, counterparty: Addr): Option<PenaltyError> {
    match (ShareOf(s, party), ShareOf(s, counterparty))
    case (None, _) => Some(PartyNotFound)
    case (Some(x), None) => Some(if x < penalty then ShareOverflow else PartyNotFound)
    case (Some(x), Some(y)) => if x < penalty || y + penalty > U128_MAX then Some(ShareOverflow) else None
  }

  /** The penalty within one split. */
  method PenalizeSplit(s: Split, penalty: nat, party: Addr, counterparty: Addr) returns (r: Result<Split, PenaltyError>)
    ensures MovePenalty(s, penalty, party, counterparty) == if r.Ok? then Some(r.value) else None
    ensures MoveError(s, penalty, party, counterparty) == if r.Ok? then None else Some(r.error)
  {
    var partyShare := ShareOf(s, party);
    if partyShare.None? {
      return Err(PartyNotFound);
    }
    if partyShare.value < penalty {
      return Err(ShareOverflow);
    }
    var counterShare := ShareOf(s, counterparty);
    if counterShare.None? {
      return Err(PartyNotFound);
    }
    if counterShare.value + penalty > U128_MAX {
      return Err(ShareOverflow);
    }
    var config := SetShare(s, party, partyShare.value - penalty);
    config := SetShare(config, counterparty, counterShare.value + penalty);
    r := Ok(config);
  }

  /** Why one explicit split cannot be penalized, if it cannot. */
  function ExplicitError(s: Split, penalty: nat, party: Addr, counterparty: Addr): Option<PenaltyError> {
    if ShareOf(s, party) == Some(0) then None else MoveError(s, penalty, party, counterparty)
  }

  /** Once every explicit split is penalized the fallback split decides. */
  lemma PenalizedTable(ds: DenomSplits, explicit: map<Denom, Split>, penalty: nat, party: Addr, counterparty: Addr)
    requires explicit.Keys == ds.explicit.Keys
    requires forall d :: d in ds.explicit ==>
               PenalizeExplicit(ds.explicit[d], penalty, party, counterparty) == Some(explicit[d])
    ensures Penalized(ds, penalty, party, counterparty) ==
            match ds.fallback
            case None => Some(DenomSplits(explicit, None))
            case Some(s) =>
              match MovePenalty(s, penalty, party, counterparty)
              case None => None
              case Some(f) => Some(DenomSplits(explicit, Some(f)))
  {
    assert explicit == map d | d in ds.explicit :: PenalizeExplicit(ds.explicit[d], penalty, party, counterparty).value;
  }

  /**
   DenomSplits::apply_penalty, in any order of the denominations; the error is that of some
   explicit split, or of the fallback split when all explicit ones pass.
   */
  method ApplyPenalty(ds: DenomSplits, penalty: nat, party: Addr, counterparty: Addr)
    returns (r: Result<DenomSplits, PenaltyError>)
    ensures Penalized(ds, penalty, party, counterparty) == if r.Ok? then Some(r.value) else None
    ensures r.Err? ==>
              || (exists d :: d in ds.explicit
                              && ExplicitError(ds.explicit[d], penalty, party, counterparty) == Some(r.error))
              || (&& ds.fallback.Some?
                  && MoveError(ds.fallback.value, penalty, party, counterparty) == Some(r.error)
                  && forall d :: d in ds.explicit ==>
                       ExplicitError(ds.explicit[d], penalty, party, counterparty) == None)
  {
    var explicit := ds.explicit;
    var remaining := ds.explicit.Keys;
    while remaining != {}
      invariant remaining <= ds.explicit.Keys == explicit.Keys
      invariant forall d :: d in remaining ==> explicit[d] == ds.explicit[d]
      invariant forall d :: d in ds.explicit && d !in remaining ==>
                  && PenalizeExplicit(ds.explicit[d], penalty, party, counterparty) == Some(explicit[d])
                  && ExplicitError(ds.explicit[d], penalty, party, counterparty) == None
    {
      var denom :| denom in remaining;
      var config := ds.explicit[denom];
      var partyShare := ShareOf(config, party);
      if partyShare.None? {
        return Err(PartyNotFound);
      }
      if partyShare.value > 0 {
        var penalized := PenalizeSplit(config, penalty, party, counterparty);
        if penalized.Err? {
          return Err(penalized.error);
        }
        explicit := explicit[denom := penalized.value];
      }
      remaining := remaining - {denom};
    }
    PenalizedTable(ds, explicit, penalty, party, counterparty);
    if ds.fallback.None? {
      return Ok(DenomSplits(explicit, None));
    }
    var fallback := PenalizeSplit(ds.fallback.value, penalty, party, counterparty);
    r := if fallback.Err? then Err(fallback.error) else Ok(DenomSplits(explicit, Some(fallback.value)));
  }

  /** Overwriting one share keeps the keys. */
  lemma {:induction false} SetShareKeys(s: Split, a: Addr, v: nat)
    ensures SameKeys(s, SetShare(s, a, v))
  {
    if s != [] && s[0].addr != a {
      SetShareKeys(s[1..], a, v);
      assert forall i :: 1 <= i < |s| ==> s[i] == s[1..][i - 1];
    }
  }

  /** Overwriting one share changes nobody else's. */
  lemma {:induction false} SetShareOf(s: Split, a: Addr, v: nat, b: Addr)
    requires ShareOf(s, a).Some?
    ensures ShareOf(SetShare(s, a, v), b) == if a == b then Some(v) else ShareOf(s, b)
  {
    if s[0].addr != a {
      SetShareOf(s[1..], a, v, b);
      assert SetShare(s, a, v)[1..] == SetShare(s[1..], a, v);
    } else {
      assert SetShare(s, a, v)[1..] == s[1..];
    }
  }

  /** Overwriting one share changes the total by the difference. */
  lemma {:induction false} SetShareTotal(s: Split, a: Addr, v: nat)
    requires ShareOf(s, a).Some?
    ensures TotalShares(SetShare(s, a, v)) + ShareOf(s, a).value == TotalShares(s) + v
  {
    if s[0].addr != a {
      SetShareTotal(s[1..], a, v);
      assert SetShare(s, a, v)[1..] == SetShare(s[1..], a, v);
    } else {
      assert SetShare(s, a, v)[1..] == s[1..];
    }
  }

  lemma {:induction false} SetShareInRange(s: Split, a: Addr, v: nat)
    requires SharesInRange(s) && v <= U128_MAX
    ensures SharesInRange(SetShare(s, a, v))
  {
    if s != [] && s[0].addr != a {
      SetShareInRange(s[1..], a, v);
      var t := SetShare(s[1..], a, v);
      assert forall i :: 1 <= i < |[s[0]] + t| ==> ([s[0]] + t)[i] == t[i - 1];
    }
  }

  ghost predicate SameKeys(s: Split, t: Split) {
    |t| == |s| && forall i :: 0 <= i < |s| ==> t[i].addr == s[i].addr
  }

  lemma TwoSets(s: Split, a: Addr, v: nat, b: Addr, w: nat, c: Addr)
    requires ShareOf(s, a).Some? && ShareOf(s, b).Some?
    ensures ShareOf(SetShare(SetShare(s, a, v), b, w), c) ==
            if c == b then Some(w) else if c == a then Some(v) else ShareOf(s, c)
  {
    SetShareOf(s, a, v, b);
    SetShareOf(s, a, v, c);
    SetShareOf(SetShare(s, a, v), b, w, c);
  }

  lemma TwoSetsTotal(s: Split, a: Addr, v: nat, b: Addr, w: nat)
    requires a != b && ShareOf(s, a).Some? && ShareOf(s, b).Some?
    ensures var t := SetShare(SetShare(s, a, v), b, w);
            && SameKeys(s, t)
            && TotalShares(t) + ShareOf(s, a).value + ShareOf(s, b).value == TotalShares(s) + v + w
  {
    var s1 := SetShare(s, a, v);
    SetShareOf(s, a, v, b);
    SetShareTotal(s, a, v);
    SetShareTotal(s1, b, w);
    TwoSetsKeepKeys(s, a, v, b, w);
  }

  /**
   A penalty between two different routers keeps every key and the total, takes exactly the
   penalty from the party, gives exactly the penalty to the counterparty and touches nobody else.
   */
  lemma MovePenaltyKeepsSplit(s: Split, penalty: nat, party: Addr, counterparty: Addr, other: Addr)
    requires party != counterparty
    requires MovePenalty(s, penalty, party, counterparty).Some?
    ensures var t := MovePenalty(s, penalty, party, counterparty).value;
            && SameKeys(s, t)
            && TotalShares(t) == TotalShares(s)
            && ShareOf(t, party) == Some(ShareOf(s, party).value - penalty)
            && ShareOf(t, counterparty) == Some(ShareOf(s, counterparty).value + penalty)
            && (other != party && other != counterparty ==> ShareOf(t, other) == ShareOf(s, other))
  {
    var x, y := ShareOf(s, party).value, ShareOf(s, counterparty).value;
    TwoSetsTotal(s, party, x - penalty, counterparty, y + penalty);
    MovePenaltyShares(s, penalty, party, counterparty, party);
    MovePenaltyShares(s, penalty, party, counterparty, counterparty);
    MovePenaltyShares(s, penalty, party, counterparty, other);
  }

  /** What the receiver `a` of a split holds after the penalty; for one shared router the second insert wins. */
  function MovedShare(s: Split, penalty: nat, party: Addr, counterparty: Addr, a: Addr): Option<int> {
    match ShareOf(s, a)
    case None => None
    case Some(x) => Some(if a == counterparty then x + penalty else if a == party then x - penalty else x)
  }

  /** Who holds what after the penalty, for any two routers. */
  lemma MovePenaltyShares(s: Split, penalty: nat, party: Addr, counterparty: Addr, a: Addr)
    requires MovePenalty(s, penalty, party, counterparty).Some?
    ensures ShareOf(MovePenalty(s, penalty, party, counterparty).value, a) ==
            MovedShare(s, penalty, party, counterparty, a)
  {
    TwoSets(s, party, ShareOf(s, party).value - penalty, counterparty, ShareOf(s, counterparty).value + penalty, a);
  }

  /** The penalty reaches every explicit split in which the party holds something, and the fallback. */
  lemma PenalizedMoves(ds: DenomSplits, penalty: nat, party: Addr, counterparty: Addr, a: Addr)
    requires Penalized(ds, penalty, party, counterparty).Some?
    ensures var p := Penalized(ds, penalty, party, counterparty).value;
            && p.explicit.Keys == ds.explicit.Keys && p.fallback.Some? == ds.fallback.Some?
            && (forall d :: d in ds.explicit ==>
                  ShareOf(p.explicit[d], a) ==
                  if ShareOf(ds.explicit[d], party) == Some(0) then ShareOf(ds.explicit[d], a)
                  else MovedShare(ds.explicit[d], penalty, party, counterparty, a))
            && (ds.fallback.Some? ==>
                  ShareOf(p.fallback.value, a) == MovedShare(ds.fallback.value, penalty, party, counterparty, a))
  {
    var p := Penalized(ds, penalty, party, counterparty).value;
    forall d | d in ds.explicit && ShareOf(ds.explicit[d], party) != Some(0)
      ensures ShareOf(p.explicit[d], a) == MovedShare(ds.explicit[d], penalty, party, counterparty, a)
    {
      MovePenaltyShares(ds.explicit[d], penalty, party, counterparty, a);
    }
    if ds.fallback.Some? {
      MovePenaltyShares(ds.fallback.value, penalty, party, counterparty, a);
    }
  }

  /** Whether somebody is named depends on the keys alone. */
  lemma SameKeysSameNames(s: Split, t: Split, a: Addr)
    requires SameKeys(s, t)
    ensures ShareOf(t, a).Some? <==> ShareOf(s, a).Some?
  {
    AbsentKey(s, a);
    AbsentKey(t, a);
  }

  /** For any two routers, equal ones included, a penalty keeps the receivers. */
  lemma PenaltyKeepsKeys(s: Split, penalty: nat, party: Addr, counterparty: Addr)
    requires PenalizeExplicit(s, penalty, party, counterparty).Some?
    ensures SameKeys(s, PenalizeExplicit(s, penalty, party, counterparty).value)
  {
    if ShareOf(s, party) != Some(0) {
      TwoSetsKeepKeys(s, party, ShareOf(s, party).value - penalty,
                      counterparty, ShareOf(s, counterparty).value + penalty);
    }
  }

  lemma TwoSetsKeepKeys(s: Split, a: Addr, v: nat, b: Addr, w: nat)
    ensures SameKeys(s, SetShare(SetShare(s, a, v), b, w))
  {
    var t := SetShare(s, a, v);
    SetShareKeys(s, a, v);
    SetShareKeys(t, b, w);
    SameKeysTransitive(s, t, SetShare(t, b, w));
  }

  lemma SameKeysTransitive(s: Split, t: Split, u: Split)
    requires SameKeys(s, t) && SameKeys(t, u)
    ensures SameKeys(s, u)
  {
  }

  /** It keeps every share a Decimal, too. */
  lemma PenaltyKeepsRange(s: Split, penalty: nat, party: Addr, counterparty: Addr)
    requires SharesInRange(s) && PenalizeExplicit(s, penalty, party, counterparty).Some?
    ensures SharesInRange(PenalizeExplicit(s, penalty, party, counterparty).value)
  {
    if ShareOf(s, party) != Some(0) {
      var x, y := ShareOf(s, party).value, ShareOf(s, counterparty).value;
      ShareInRange(s, party);
      SetShareInRange(s, party, x - penalty);
      SetShareInRange(SetShare(s, party, x - penalty), counterparty, y + penalty);
    }
  }

  lemma {:induction false} ShareInRange(s: Split, a: Addr)
    requires SharesInRange(s)
    ensures ShareOf(s, a).Some? ==> ShareOf(s, a).value <= U128_MAX
  {
    if s != [] {
      ShareInRange(s[1..], a);
    }
  }

  /** The total survives exactly when the routers differ or there is nothing to move. */
  lemma PenaltyKeepsTotalIff(s: Split, penalty: nat, party: Addr, counterparty: Addr)
    requires MovePenalty(s, penalty, party, counterparty).Some?
    ensures TotalShares(MovePenalty(s, penalty, party, counterparty).value) == TotalShares(s)
            <==> party != counterparty || penalty == 0
  {
    if party != counterparty {
      MovePenaltyKeepsSplit(s, penalty, party, counterparty, party);
    } else {
      var x := ShareOf(s, party).value;
      SetShareOf(s, party, x - penalty, party);
      SetShareTotal(s, party, x - penalty);
      SetShareTotal(SetShare(s, party, x - penalty), party, x + penalty);
    }
  }

  /** A split for one shared router passes validation as it is, and a penalty inflates it. */
  lemma SharedRouterInflates(router: Addr)
    ensures var s := [Receiver(router, ONE / 2)];
            var t := MovePenalty(s, ONE / 10, router, router);
            && ValidatedFor(s, router, router)
            && t == Some([Receiver(router, ONE / 2 + ONE / 10)])
            && TotalShares(t.value) == TotalShares(s) + ONE / 10
  {
    var s := [Receiver(router, ONE / 2)];
    var t := [Receiver(router, ONE / 2 + ONE / 10)];
    assert s[1..] == [] && t[1..] == [] && [Receiver(router, ONE / 2 - ONE / 10)][1..] == [];
    assert SetShare(SetShare(s, router, ONE / 2 - ONE / 10), router, ONE / 2 + ONE / 10) == t + [];
    assert t + [] == t;
  }

  /** When the penalty can be applied: a check on the table alone, before any withdrawal. */
  predicate PenaltyFits(ds: DenomSplits, penalty: nat, party: Addr, counterparty: Addr) {
    && (forall d :: d in ds.explicit ==> SplitFits(ds.explicit[d], penalty, party, counterparty, true))
    && (ds.fallback.Some? ==> SplitFits(ds.fallback.value, penalty, party, counterparty, false))
  }

  predicate SplitFits(s: Split, penalty: nat, party: Addr, counterparty: Addr, spareZero: bool) {
    && ShareOf(s, party).Some?
    && ((spareZero && ShareOf(s, party).value == 0)
        || (&& ShareOf(s, party).value >= penalty
            && ShareOf(s, counterparty).Some?
            && ShareOf(s, counterparty).value + penalty <= U128_MAX))
  }

  /** For any two routers, equal ones included, fitting is all it takes. */
  lemma PenalizedIffFits(ds: DenomSplits, penalty: nat, party: Addr, counterparty: Addr)
    ensures Penalized(ds, penalty, party, counterparty).Some? <==> PenaltyFits(ds, penalty, party, counterparty)
  {
  }

  ghost predicate SameKeysAndTotal(s: Split, t: Split) {
    SameKeys(s, t) && TotalShares(t) == TotalShares(s)
  }

  lemma SameKeysStayDistinct(s: Split, t: Split)
    requires SameKeys(s, t) && DistinctKeys(s)
    ensures DistinctKeys(t)
  {
  }

  lemma PenalizeExplicitKeeps(s: Split, penalty: nat, party: Addr, counterparty: Addr)
    requires party != counterparty
    ensures PenalizeExplicit(s, penalty, party, counterparty).Some? <==>
            SplitFits(s, penalty, party, counterparty, true)
    ensures PenalizeExplicit(s, penalty, party, counterparty).Some? ==>
              var t := PenalizeExplicit(s, penalty, party, counterparty).value;
              && SameKeysAndTotal(s, t)
              && (ShareOf(s, party) == Some(0) ==> t == s)
  {
    if MovePenalty(s, penalty, party, counterparty).Some? {
      MovePenaltyKeepsSplit(s, penalty, party, counterparty, party);
    }
  }

  /**
   apply_penalty succeeds exactly when the penalty fits every split; then it keeps every
   denomination, receiver and per-split total, leaves splits in which the party holds nothing
   as they are, and a following shared distribution still never overpays.
   */
  lemma PenaltyPreservesSplits(ds: DenomSplits, penalty: nat, party: Addr, counterparty: Addr)
    requires party != counterparty && WellKeyed(ds)
    ensures Penalized(ds, penalty, party, counterparty).Some? <==> PenaltyFits(ds, penalty, party, counterparty)
    ensures Penalized(ds, penalty, party, counterparty).Some? ==>
              var p := Penalized(ds, penalty, party, counterparty).value;
              && PenaltyKept(ds, p, party)
              && WellKeyed(p)
              && (WithinOne(ds) ==> WithinOne(p))
  {
    forall d | d in ds.explicit
      ensures PenalizeExplicit(ds.explicit[d], penalty, party, counterparty).Some? <==>
              SplitFits(ds.explicit[d], penalty, party, counterparty, true)
    {
      PenalizeExplicitKeeps(ds.explicit[d], penalty, party, counterparty);
    }
    if Penalized(ds, penalty, party, counterparty).Some? {
      var p := Penalized(ds, penalty, party, counterparty).value;
      forall d | d in ds.explicit
        ensures SameKeysAndTotal(ds.explicit[d], p.explicit[d]) && DistinctKeys(p.explicit[d])
        ensures ShareOf(ds.explicit[d], party) == Some(0) ==> p.explicit[d] == ds.explicit[d]
      {
        PenalizeExplicitKeeps(ds.explicit[d], penalty, party, counterparty);
        SameKeysStayDistinct(ds.explicit[d], p.explicit[d]);
      }
      if ds.fallback.Some? {
        MovePenaltyKeepsSplit(ds.fallback.value, penalty, party, counterparty, party);
        SameKeysStayDistinct(ds.fallback.value, p.fallback.value);
      }
    }
  }

  /** The penalized table against the original one. */
  ghost predicate PenaltyKept(ds: DenomSplits, p: DenomSplits, party: Addr) {
    && p.explicit.Keys == ds.explicit.Keys
    && p.fallback.Some? == ds.fallback.Some?
    && (forall d :: d in ds.explicit ==>
          && SameKeysAndTotal(ds.explicit[d], p.explicit[d])
          && (ShareOf(ds.explicit[d], party) == Some(0) ==> p.explicit[d] == ds.explicit[d]))
    && (ds.fallback.Some? ==> SameKeysAndTotal(ds.fallback.value, p.fallback.value))
  }
}
