/**
 Who is paid what: a shared distribution, a single-receiver distribution and the holder's
 payouts, address by address and denomination by denomination.
 */
module Entitlements {
  import opened Base
  import opened Decimals
  import opened Splits
  import opened Distribution
  import opened Holder
  import opened HolderRuns

  // ---------- Distributions ----------

  /** The floor of a's share of one coin; nothing without a split, or when the split fails. */
  function Entitled(ds: DenomSplits, c: Coin, a: Addr): nat {
    if c.denom !in ds.explicit || Overflows(ds.explicit[c.denom], c.amount) then 0
    else match ShareOf(ds.explicit[c.denom], a) case Some(x) => c.amount * x / ONE case None => 0
  }

  /** What a is due of one denomination, coin by coin. */
  function EntitledTo(ds: DenomSplits, coins: seq<Coin>, a: Addr, d: Denom): nat {
    if coins == [] then 0
    else (if coins[0].denom == d then Entitled(ds, coins[0], a) else 0) + EntitledTo(ds, coins[1..], a, d)
  }

  lemma {:induction false} SentToSends(ps: seq<Payment>, d: Denom, a: Addr, e: Denom)
    ensures SentTo(ToSends(ps, d), a, e) == if d == e then PaidTo(ps, a) else 0
  {
    if ps != [] {
      SentToSends(ps[1..], d, a, e);
      assert ToSends(ps, d)[1..] == ToSends(ps[1..], d);
    }
  }

  lemma CoinPaysEntitled(ds: DenomSplits, c: Coin, a: Addr, d: Denom)
    requires ExplicitKeyed(ds)
    ensures SentTo(CoinMessages(ds, c, None), a, d) == if c.denom == d then Entitled(ds, c, a) else 0
  {
    if c.denom in ds.explicit {
      var s := ds.explicit[c.denom];
      TransferFailsIff(s, c.amount);
      if !Overflows(s, c.amount) {
        PaidUnlessItFails(s, c.amount, a);
        SentToSends(TransferMessages(s, c.amount, None).value, c.denom, a, d);
      }
    }
  }

  /**
   A shared distribution sends every address exactly what it is due of every denomination:
   receivers the floors of their shares, coin by coin, and nobody else anything.
   */
  lemma {:induction false} SharedPaysEntitled(ds: DenomSplits, coins: seq<Coin>, a: Addr, d: Denom)
    requires ExplicitKeyed(ds)
    ensures SentTo(DistributionMessages(ds, coins, None), a, d) == EntitledTo(ds, coins, a, d)
  {
    if coins != [] {
      SharedPaysEntitled(ds, coins[1..], a, d);
      CoinPaysEntitled(ds, coins[0], a, d);
      SentToConcat(CoinMessages(ds, coins[0], None), DistributionMessages(ds, coins[1..], None), a, d);
    }
  }

  /** When everything is sent to one address, what it gets is what is sent. */
  lemma {:induction false} AllToOne(sends: seq<Send>, router: Addr, a: Addr, d: Denom)
    requires forall i :: 0 <= i < |sends| ==> sends[i].to == router
    ensures SentTo(sends, a, d) == if a == router then SentOf(sends, d) else 0
  {
    if sends != [] {
      AllToOne(sends[1..], router, a, d);
    }
  }

  // ---------- The holder's payouts ----------

  /** Total amount of `d` that a message of the holder pays to one address. */
  function PaidOutTo(es: seq<Effect>, a: Addr, d: Denom): nat {
    if es == [] then 0
    else
      (if es[0].Pay? && es[0].send.to == a && es[0].send.coin.denom == d then es[0].send.coin.amount else 0)
      + PaidOutTo(es[1..], a, d)
  }

  lemma {:induction false} PaidOutToPayments(sends: seq<Send>, tail: seq<Effect>, a: Addr, d: Denom)
    ensures PaidOutTo(Payments(sends) + tail, a, d) == SentTo(sends, a, d) + PaidOutTo(tail, a, d)
  {
    if sends == [] {
      assert Payments(sends) + tail == tail;
    } else {
      assert (Payments(sends) + tail)[1..] == Payments(sends[1..]) + tail;
      PaidOutToPayments(sends[1..], tail, a, d);
    }
  }

  lemma PaidOutToTail(sends: seq<Send>, a: Addr, d: Denom)
    ensures PaidOutTo(Payments(sends), a, d) == SentTo(sends, a, d)
    ensures PaidOutTo(Payments(sends) + [LeaveClock], a, d) == SentTo(sends, a, d)
  {
    PaidOutToPayments(sends, [], a, d);
    assert Payments(sends) + [] == Payments(sends);
    PaidOutToPayments(sends, [LeaveClock], a, d);
    assert [LeaveClock][1..] == [];
  }

  /** The share of `a` that the pending withdrawal is paid by: the agreed one, moved by a ragequit's penalty. */
  function AgreedShare(s: State, d: Denom, a: Addr): Option<int>
    requires s.lock.Some? && d in s.splits.explicit
  {
    var split := s.splits.explicit[d];
    match s.lock.value
    case ProcessingRagequit(claimer, terms) =>
      (match AuthorizeSender(s.config, claimer)
       case Err(_) => None
       case Ok((party, counterparty)) =>
         if ShareOf(split, party.router) == Some(0) then ShareOf(split, a)
         else MovedShare(split, terms.penalty, party.router, counterparty.router, a))
    case _ => ShareOf(split, a)
  }

  /** The table a distribution is paid by holds the agreed shares. */
  lemma EffectiveSharesAgreed(s: State, d: Denom, a: Addr)
    requires Handle(s, DistributeMsg(s.pooler, [])).Ok? && d in s.splits.explicit
    ensures d in EffectiveSplits(s).explicit
    ensures ShareOf(EffectiveSplits(s).explicit[d], a) == AgreedShare(s, d, a)
  {
    if s.lock.value.ProcessingRagequit? {
      var (party, counterparty) := AuthorizeSender(s.config, s.lock.value.claimer).value;
      PenalizedMoves(s.splits, s.lock.value.terms.penalty, party.router, counterparty.router, a);
    }
  }

  /**
   Every payout of every committed distribution, in every reachable state, address by address: a
   share-based withdrawal hands the claimer's router everything covered by a split; a side-based
   or emergency one pays each address what it is due by the table. Nobody else gets anything.
   */
  lemma PayoutsAreDue(init: State, s: State, funds: seq<Coin>, a: Addr, d: Denom)
    requires Fresh(init) && Inv(init, s) && ExplicitKeyed(init.splits) && InRange(funds)
    requires Handle(s, DistributeMsg(s.pooler, funds)).Ok?
    ensures Handle(s, DistributeMsg(s.pooler, [])).Ok?
    ensures PaidOutTo(Handle(s, DistributeMsg(s.pooler, funds)).value.effects, a, d) ==
            if ShareBased(s) then
              if a == AuthorizeSender(s.config, s.lock.value.claimer).value.0.router && d in s.splits.explicit
              then AmountOf(funds, d) else 0
            else EntitledTo(EffectiveSplits(s), funds, a, d)
  {
    DistributeCommitsIff(init, s, funds);
    DistributeCommitsIff(init, s, []);
    PaysByEffectiveSplits(s, funds);
    EffectiveSplitsKeep(init, s);
    var ds := EffectiveSplits(s);
    if ShareBased(s) {
      var router := AuthorizeSender(s.config, s.lock.value.claimer).value.0.router;
      RoutersAreNamed(init, s, router);
      SingleReceiverGetsAll(ds, funds, router, d);
      AllToOne(DistributionMessages(ds, funds, Some(router)), router, a, d);
      PaidOutToTail(DistributionMessages(ds, funds, Some(router)), a, d);
    } else {
      SharedPaysEntitled(ds, funds, a, d);
      PaidOutToTail(DistributionMessages(ds, funds, None), a, d);
    }
  }

  /**
   A side-based or emergency payout of one coin gives each router the floor of its agreed share:
   after a ragequit less the penalty for the party that quit, and with it for the other.
   */
  lemma RouterGetsAgreedShare(init: State, s: State, c: Coin, a: Addr)
    requires Fresh(init) && Inv(init, s) && WellKeyed(init.splits) && WithinOne(init.splits)
    requires init.config.a.router != init.config.b.router
    requires c.amount <= U128_MAX && c.denom in s.splits.explicit && !ShareBased(s)
    requires Handle(s, DistributeMsg(s.pooler, [c])).Ok?
    ensures s.lock.Some?
    ensures PaidOutTo(Handle(s, DistributeMsg(s.pooler, [c])).value.effects, a, c.denom) ==
            match AgreedShare(s, c.denom, a) case Some(x) => c.amount * x / ONE case None => 0
  {
    PayoutsAreDue(init, s, [c], a, c.denom);
    EffectiveSharesAgreed(s, c.denom, a);
    EffectiveSplitsKeep(init, s);
    var ds := EffectiveSplits(s);
    assert [c][1..] == [];
    assert EntitledTo(ds, [c], a, c.denom) == Entitled(ds, c, a) + EntitledTo(ds, [], a, c.denom);
    if s.lock.value.ProcessingRagequit? {
      var (party, counterparty) := AuthorizeSender(s.config, s.lock.value.claimer).value;
      PenaltyPreservesSplits(s.splits, s.lock.value.terms.penalty, party.router, counterparty.router);
    }
    EntitlementBounds(ds.explicit[c.denom], c.amount);
    TransferFailsIff(ds.explicit[c.denom], c.amount);
  }
}
