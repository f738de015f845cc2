/**
 When an exit from the position happens: the telescoping account says what the exits of a run
 add up to, this module says exactly which requests become exits.
 */
module PositionExits {
  import opened Base
  import opened Decimals
  import opened Distribution
  import opened Astroport
  import opened Telescoping
  import H = Holder
  import HR = HolderRuns
  import C = Clock
  import CR = ClockRuns

  /** What the pooler can redeem: LP tokens in 18 decimals, or all of them, or leftover coins. */
  predicate Redeemable(s: System, p: nat, funds: seq<Coin>) {
    if s.lp == 0 then funds != [] else p == ONE || s.lp * ONE <= U128_MAX
  }

  /** The holder can leave the clock, if it has to. */
  predicate MayLeave(s: System, last: bool) {
    last ==> !s.clock.paused && s.holderAddr in s.clock.queue
  }

  // ---------- The pooler's side ----------

  /** A withdrawal goes through exactly when the pooler can redeem, the holder settles, and the clock lets it go. */
  lemma WithdrawIff(s: System, p: nat, funds: seq<Coin>)
    requires 0 < p <= ONE && s.lp <= U128_MAX && s.holder.lock.Some?
    ensures var m := H.DistributeMsg(s.holder.pooler, funds);
            && (Withdraw(s, Some(p), funds).Some? <==>
                  && Redeemable(s, p, funds)
                  && H.Handle(s.holder, m).Ok?
                  && ClockAfter(s, H.Handle(s.holder, m).value.effects).Some?)
            && (Withdraw(s, Some(p), funds).Some? ==>
                  var t := Withdraw(s, Some(p), funds).value;
                  var lock := s.holder.lock.value;
                  && s.lp * p / ONE <= s.lp && t.lp == s.lp - s.lp * p / ONE
                  && t.holder == HR.After(s.holder, m) && t.clock.paused == s.clock.paused
                  && t.exits == s.exits + [if lock.Emergency? then EmergencyExit(s.lp * p / ONE)
                                           else Exit(lock.claimer, lock.ProcessingRagequit?, p, s.lp * p / ONE)])
  {
    PoolersComputeSameFloor(s.lp, p);
  }

  /** The holder's settlement leaves the clock exactly when nobody is left. */
  lemma ClockLetsGoIff(s: System, funds: seq<Coin>)
    requires H.Handle(s.holder, H.DistributeMsg(s.holder.pooler, funds)).Ok?
    ensures var t := H.Handle(s.holder, H.DistributeMsg(s.holder.pooler, funds)).value;
            ClockAfter(s, t.effects).Some? <==> MayLeave(s, HR.Live(t.state) == 0)
  {
    var d := H.Handle(s.holder, H.DistributeMsg(s.holder.pooler, funds)).value;
    var party, counterparty, sends := HR.DistributeSettles(s.holder, s.holder.pooler, funds);
    HR.StoredBack(s.holder.config, party, counterparty, 0, HR.Inherited(s.holder, counterparty));
    PaymentsStayInClock(sends);
    assert HR.Inherited(s.holder, counterparty) == 0 ==> H.LeaveClock in d.effects;
  }

  // ---------- Claims ----------

  /**
   In every reachable state of a share covenant with claims open, the claim of a host with the
   allocation x becomes an exit exactly when its fraction is redeemable and a last exit finds the
   clock running; it redeems the floor of lp * x.
   */
  lemma ClaimExitsIff(init: H.State, total: nat, s: System, host: Addr, funds: seq<Coin>)
    requires HR.Fresh(init) && init.config.kind.Share? && total <= U128_MAX
    requires Inv(init, total, s) && s.holder.lock == None
    requires s.holder.phase == H.Expired || s.holder.phase == H.Ragequit
    requires H.AuthorizeSender(s.holder.config, host).Ok?
    ensures var (party, counterparty) := H.AuthorizeSender(s.holder.config, host).value;
            var x := party.allocation;
            var t := HolderStep(s, H.ClaimMsg(host), funds);
            && (t.Some? <==> Redeemable(s, x, funds) && MayLeave(s, counterparty.allocation == 0))
            && (t.Some? ==>
                  && t.value.exits == s.exits + [Exit(host, false, x, s.lp * x / ONE)]
                  && t.value.lp == s.lp - s.lp * x / ONE
                  && Settled(s, t.value, counterparty, s.holder.phase))
  {
    var m := H.ClaimMsg(host);
    var party, counterparty, p := TakesLock(s.holder, m);
    var s1 := s.(holder := H.Handle(s.holder, m).value.state);
    HR.StepKeepsInv(init, s.holder, m);
    Settles(init, s1, party, counterparty, p, funds);
  }

  /** One party less owns a part; the counterparty goes on in `phase`, or the covenant is over. */
  predicate Settled(s: System, t: System, counterparty: H.Party, phase: H.Phase) {
    && HR.Live(t.holder) == HR.Live(s.holder) - 1
    && t.holder.phase == (if counterparty.allocation == 0 then H.Complete else phase)
    && t.holder.lock == None && t.clock.paused == s.clock.paused
  }

  /** The settlement of a share covenant's lock within the transaction. */
  lemma Settles(init: H.State, s: System, party: H.Party, counterparty: H.Party, p: nat, funds: seq<Coin>)
    requires HR.Fresh(init) && HR.Inv(init, s.holder) && init.config.kind.Share?
    requires s.holder.lock.Some? && !s.holder.lock.value.Emergency? && s.lp <= U128_MAX && 0 < p <= ONE
    requires H.AuthorizeSender(s.holder.config, s.holder.lock.value.claimer) == Ok((party, counterparty))
    ensures Withdraw(s, Some(p), funds).Some? <==>
            && Redeemable(s, p, funds)
            && MayLeave(s, counterparty.allocation == 0)
            && (s.holder.lock.value.ProcessingRagequit? ==>
                  PenaltyFits(s.holder.splits, s.holder.lock.value.terms.penalty, party.router, counterparty.router))
    ensures Withdraw(s, Some(p), funds).Some? ==>
              var t := Withdraw(s, Some(p), funds).value;
              var lock := s.holder.lock.value;
              && s.lp * p / ONE <= s.lp && t.lp == s.lp - s.lp * p / ONE
              && t.exits == s.exits + [Exit(lock.claimer, lock.ProcessingRagequit?, p, s.lp * p / ONE)]
              && Settled(s, t, counterparty, if lock.ProcessingRagequit? then H.Ragequit else s.holder.phase)
  {
    var m := H.DistributeMsg(s.holder.pooler, funds);
    WithdrawIff(s, p, funds);
    HR.DistributeCommitsIff(init, s.holder, funds);
    if H.Handle(s.holder, m).Ok? {
      ClockLetsGoIff(s, funds);
      var party', counterparty', _ := HR.DistributeSettles(s.holder, s.holder.pooler, funds);
      HR.StoredBack(s.holder.config, party', counterparty', 0, HR.Inherited(s.holder, counterparty'));
    }
  }

  // ---------- Ragequits ----------

  /**
   An accepted ragequit becomes an exit exactly when the penalty is below the allocation and fits
   the splits, what remains is redeemable, and a last exit finds the clock running.
   */
  lemma RagequitExitsIff(init: H.State, total: nat, s: System, host: Addr, funds: seq<Coin>)
    returns (party: H.Party, counterparty: H.Party, p: nat)
    requires HR.Fresh(init) && init.config.kind.Share? && total <= U128_MAX
    requires Inv(init, total, s) && H.Handle(s.holder, H.RagequitMsg(host, false)).Ok?
    ensures H.AuthorizeSender(s.holder.config, host) == Ok((party, counterparty)) && s.holder.ragequit.Enabled?
    ensures p + s.holder.ragequit.terms.penalty == party.allocation
    ensures HolderStep(s, H.RagequitMsg(host, false), funds).Some? <==>
            && p > 0 && Redeemable(s, p, funds)
            && PenaltyFits(s.holder.splits, s.holder.ragequit.terms.penalty, party.router, counterparty.router)
            && MayLeave(s, counterparty.allocation == 0)
    ensures HolderStep(s, H.RagequitMsg(host, false), funds).Some? ==>
              var t := HolderStep(s, H.RagequitMsg(host, false), funds).value;
              && t.exits == s.exits + [Exit(host, true, p, s.lp * p / ONE)]
              && s.lp * p / ONE <= s.lp && t.lp == s.lp - s.lp * p / ONE
              && Settled(s, t, counterparty, H.Ragequit)
  {
    var m := H.RagequitMsg(host, false);
    party, counterparty, p := TakesLock(s.holder, m);
    var s1 := s.(holder := H.Handle(s.holder, m).value.state);
    assert s1.holder.lock == Some(H.ProcessingRagequit(host, s.holder.ragequit.terms));
    assert HolderStep(s, m, funds) == Withdraw(s1, Some(p), funds);
    HR.StepKeepsInv(init, s.holder, m);
    if p > 0 {
      Settles(init, s1, party, counterparty, p, funds);
    }
  }

  // ---------- The committee ----------

  /**
   Without a lock the committee's withdrawal goes through exactly when there is something to
   withdraw, somebody still owns a part of the position, and the clock is running; it redeems
   everything and ends the covenant.
   */
  lemma CommitteeExitsIff(init: H.State, total: nat, s: System, committee: Addr, funds: seq<Coin>)
    requires HR.Fresh(init) && total <= U128_MAX && Inv(init, total, s)
    requires s.holder.lock == None && s.holder.committee == Some(committee)
    ensures var t := HolderStep(s, H.EmergencyMsg(committee), funds);
            && (t.Some? <==> (s.lp == 0 ==> funds != []) && HR.Live(s.holder) > 0 && !s.clock.paused)
            && (t.Some? ==>
                  && t.value.exits == s.exits + [EmergencyExit(s.lp)] && t.value.lp == 0
                  && t.value.holder.phase == H.Complete && HR.Live(t.value.holder) == 0)
  {
    var m := H.EmergencyMsg(committee);
    var s1 := s.(holder := H.Handle(s.holder, m).value.state);
    var h := H.DistributeMsg(s1.holder.pooler, funds);
    assert H.Handle(s.holder, m).value.effects == [H.WithdrawLp(None)];
    assert Withdraw(s1, None, funds) == Withdraw(s1, Some(ONE), funds);
    WithdrawIff(s1, ONE, funds);
    ClockLetsGoIff(s1, funds);
    var party, counterparty, _ := HR.DistributeSettles(s1.holder, s1.holder.pooler, funds);
    HR.StoredBack(s1.holder.config, party, counterparty, 0, 0);
    FloorUnique(s.lp * ONE, ONE, s.lp);
  }

  // ---------- A run from instantiation ----------

  /** A freshly wired share covenant of two halves with a hundred LP tokens. */
  function SampleSystem(hostA: Addr, hostB: Addr): System {
    var clock := C.State(["holder"], 1, false, ["holder"]);
    System(H.Instantiate(HR.Sample(hostA, hostB, 0)).value, clock, "holder", 100, [])
  }

  /** Two ticks open the claims; each party claims its half, and together they redeem the whole position. */
  lemma TwoClaimsRedeemAll(hostA: Addr, hostB: Addr, funds: seq<Coin>)
    requires hostA != hostB
    ensures var s := SampleSystem(hostA, hostB);
            var tick := ToHolder(H.TickMsg("clock", false, true, 1, 1), [], true);
            var t := Run(s, [tick, tick, ToHolder(H.ClaimMsg(hostA), funds, true),
                             ToHolder(H.ClaimMsg(hostB), funds, true)]);
            && t.exits == [Exit(hostA, false, ONE / 2, 50), Exit(hostB, false, ONE, 50)]
            && t.lp == 0 && t.holder.phase == H.Complete && t.holderAddr !in t.clock.queue
  {
    var s := SampleSystem(hostA, hostB);
    var tick := ToHolder(H.TickMsg("clock", false, true, 1, 1), [], true);
    var claimA, claimB := ToHolder(H.ClaimMsg(hostA), funds, true), ToHolder(H.ClaimMsg(hostB), funds, true);
    RunFour(s, tick, tick, claimA, claimB);
    var t := AfterTicks(hostA, hostB);
    FirstHalf(s.holder, t, hostA, funds);
    SecondHalf(s.holder, Step(t, claimA), hostB, funds);
    var first, second := Exit(hostA, false, ONE / 2, 50), Exit(hostB, false, ONE, 50);
    assert [first] + [second] == [first, second];
  }

  lemma RunFour(s: System, i: Input, j: Input, k: Input, l: Input)
    ensures Run(s, [i, j, k, l]) == Step(Step(Step(Step(s, i), j), k), l)
  {
    assert [i, j, k, l][1..] == [j, k, l] && [j, k, l][1..] == [k, l] && [k, l][1..] == [l] && [l][1..] == [];
    var u := Step(Step(Step(s, i), j), k);
    assert Run(u, [l]) == Run(Step(u, l), []);
    assert Run(Step(Step(s, i), j), [k, l]) == Run(u, [l]);
  }

  lemma AfterTicks(hostA: Addr, hostB: Addr) returns (t: System)
    requires hostA != hostB
    ensures var s := SampleSystem(hostA, hostB);
            var tick := ToHolder(H.TickMsg("clock", false, true, 1, 1), [], true);
            && t == Step(Step(s, tick), tick) == s.(holder := s.holder.(phase := H.Expired))
            && HR.Fresh(s.holder) && Inv(s.holder, 100, t)
            && s.holder.lock == None && !s.clock.paused && s.lp == 100 && s.exits == []
    ensures var c := SampleSystem(hostA, hostB).holder.config;
            && c.kind.Share? && c.a.host == hostA && c.b.host == hostB
            && c.a.allocation == c.b.allocation == ONE / 2 && c.a.controller != c.b.controller
  {
    var s := SampleSystem(hostA, hostB);
    var tick := ToHolder(H.TickMsg("clock", false, true, 1, 1), [], true);
    HR.InstantiateIsFresh(HR.Sample(hostA, hostB, 0));
    var s1 := Step(s, tick);
    assert s1 == s.(holder := s.holder.(phase := H.Active));
    t := Step(s1, tick);
    HR.FreshInv(s.holder);
    HR.StepKeepsInv(s.holder, s.holder, tick.m);
    HR.StepKeepsInv(s.holder, s1.holder, tick.m);
    assert Redeemed([]) == 0;
    assert "controllerA"[10] != "controllerB"[10];
  }

  lemma FirstHalf(init: H.State, t: System, hostA: Addr, funds: seq<Coin>)
    requires HR.Fresh(init) && init.config.kind.Share? && Inv(init, 100, t)
    requires t.lp == 100 && t.exits == [] && t.holder == init.(phase := H.Expired) && init.lock == None
    requires init.config.a.host == hostA && init.config.a.allocation == ONE / 2
    ensures var u := Step(t, ToHolder(H.ClaimMsg(hostA), funds, true));
            && u.exits == [Exit(hostA, false, ONE / 2, 50)] && u.lp == 50
            && Inv(init, 100, u) && u.holder.lock == None && HR.Live(u.holder) == 1 && u.clock.paused == t.clock.paused
            && u.holder.phase == H.Expired
            && u.holder.config ==
               H.UpdateParties(init.config, init.config.a.(allocation := 0), init.config.b.(allocation := ONE))
  {
    FloorUnique(100 * (ONE / 2), ONE, 50);
    ClaimExitsIff(init, 100, t, hostA, funds);
    ExitKeepsInv(init, 100, t, H.ClaimMsg(hostA), funds);
    var party, counterparty, p := ExitShape(init, t, H.ClaimMsg(hostA), funds);
  }

  lemma SecondHalf(init: H.State, u: System, hostB: Addr, funds: seq<Coin>)
    requires HR.Fresh(init) && init.config.kind.Share? && Inv(init, 100, u)
    requires u.lp == 50 && |u.exits| == 1 && u.holder.lock == None && u.holder.phase == H.Expired
    requires HR.Live(u.holder) == 1 && !u.clock.paused
    requires init.config.a.host != hostB && init.config.b.host == hostB
    requires init.config.a.controller != init.config.b.controller
    requires u.holder.config ==
             H.UpdateParties(init.config, init.config.a.(allocation := 0), init.config.b.(allocation := ONE))
    ensures var t := Step(u, ToHolder(H.ClaimMsg(hostB), funds, true));
            && t.exits == u.exits + [Exit(hostB, false, ONE, 50)] && t.lp == 0
            && t.holder.phase == H.Complete && t.holderAddr !in t.clock.queue
  {
    FloorUnique(50 * ONE, ONE, 50);
    ClaimExitsIff(init, 100, u, hostB, funds);
    ExitKeepsInv(init, 100, u, H.ClaimMsg(hostB), funds);
  }
}
