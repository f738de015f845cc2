/**
 The holder with the clock and the Astroport pooler, which answers a withdrawal within the same
 transaction: how the LP position is divided over every run.
 */
module Telescoping {
  import opened Base
  import opened Decimals
  import opened Astroport
  import H = Holder
  import HR = HolderRuns
  import C = Clock
  import CR = ClockRuns

  /**
   One exit and the LP tokens redeemed: who asked, by claim or ragequit, for which fraction, or
   the committee for everything.
   */
  datatype Exit =
    | Exit(host: Addr, ragequit: bool, fraction: nat, redeemed: nat)
    | EmergencyExit(redeemed: nat)

  datatype System = System(holder: H.State, clock: C.State, holderAddr: Addr, lp: nat, exits: seq<Exit>)

  /**
   A message to the holder, with the coins the pool hands out in case of a withdrawal and
   whether the contracts outside the model accept the transaction; or a message to the clock.
   */
  datatype Input =
    | ToHolder(m: H.Message, funds: seq<Coin>, accepted: bool)
    | ToClock(e: C.Event)

  /** The clock after the holder's messages to it; None where it refuses one. */
  function ClockAfter(s: System, es: seq<H.Effect>): Option<C.State> {
    if H.LeaveClock !in es then Some(s.clock)
    else match C.Handle(s.clock, C.Dequeue(s.holderAddr)) case Some(d) => Some(d.state) case None => None
  }

  /** try_withdraw followed by the Distribute message it sends; None aborts everything. */
  function Withdraw(s: System, fraction: Option<nat>, funds: seq<Coin>): Option<System> {
    var p := if fraction.Some? then fraction.value else ONE;
    if !(0 < p <= ONE) then None
    else if s.lp == 0 && funds == [] then None
    else
      var redeemed := if s.lp == 0 then Some(0) else Redeem(s.lp, p);
      var r := H.Handle(s.holder, H.DistributeMsg(s.holder.pooler, funds));
      if redeemed.None? || r.Err? || s.holder.lock.None? || redeemed.value > s.lp then None
      else
        var lock := s.holder.lock.value;
        var exit := if lock.Emergency? then EmergencyExit(redeemed.value)
                    else Exit(lock.claimer, lock.ProcessingRagequit?, p, redeemed.value);
        match ClockAfter(s, r.value.effects)
        case None => None
        case Some(clock) =>
          Some(System(r.value.state, clock, s.holderAddr, s.lp - redeemed.value, s.exits + [exit]))
  }

  function HolderStep(s: System, m: H.Message, funds: seq<Coin>): Option<System> {
    match H.Handle(s.holder, m)
    case Err(_) => None
    case Ok(d) =>
      if |d.effects| == 1 && d.effects[0].WithdrawLp? then
        Withdraw(s.(holder := d.state), d.effects[0].fraction, funds)
      else Some(s.(holder := d.state))
  }

  /** One transaction; one that aborts changes nothing. */
  function Step(s: System, i: Input): System {
    match i
    case ToHolder(m, funds, accepted) =>
      if !accepted then s else (match HolderStep(s, m, funds) case None => s case Some(t) => t)
    case ToClock(e) => s.(clock := CR.After(s.clock, e))
  }

  function Run(s: System, ins: seq<Input>): System
    decreases |ins|
  {
    if ins == [] then s else Run(Step(s, ins[0]), ins[1..])
  }

  /** Nobody forges the pooler's messages, and the holder's place in the clock is left to it. */
  predicate Genuine(init: H.State, holderAddr: Addr, i: Input) {
    match i
    case ToHolder(m, _, _) => m.sender != init.pooler
    case ToClock(e) => !CR.Mentions(e, holderAddr)
  }

  function Redeemed(exits: seq<Exit>): nat {
    if exits == [] then 0 else Redeemed(exits[..|exits| - 1]) + exits[|exits| - 1].redeemed
  }

  /** The fraction of a first exit: the host's allocation, less the penalty when ragequitting. */
  predicate FirstFraction(init: H.State, e: Exit)
    requires e.Exit?
  {
    var auth := H.AuthorizeSender(init.config, e.host);
    && auth.Ok?
    && (if e.ragequit
        then init.ragequit.Enabled? && e.fraction + init.ragequit.terms.penalty == auth.value.0.allocation
        else e.fraction == auth.value.0.allocation)
  }

  /** At most two exits of parties: the first by the agreed terms, the second of everything left. */
  ghost predicate Divided(init: H.State, total: nat, exits: seq<Exit>) {
    && |exits| <= 2
    && (forall i :: 0 <= i < |exits| ==> exits[i].Exit?)
    && (exits != [] ==>
          && 0 < exits[0].fraction <= ONE
          && exits[0].redeemed == total * exits[0].fraction / ONE <= total
          && FirstFraction(init, exits[0]))
    && (|exits| == 2 ==> Redeemed(exits) == total)
  }

  /** How the position stands between two transactions; `total` is the LP balance at the start. */
  ghost predicate Inv(init: H.State, total: nat, s: System) {
    && HR.Inv(init, s.holder)
    && s.lp + Redeemed(s.exits) == total
    && (s.holderAddr in s.clock.queue <==> HR.Live(s.holder) > 0)
    && match s.holder.lock
       case None => Divided(init, total, s.exits) && StillDividing(init, s)
       case Some(Emergency) =>
         var n := |s.exits|;
         0 < n <= 2 && s.exits[n - 1].EmergencyExit? && s.lp == 0 && Divided(init, total, s.exits[..n - 1])
       case _ => false
  }

  /** What the holder knows about the exits so far, while the committee has not withdrawn. */
  ghost predicate StillDividing(init: H.State, s: System)
    requires s.exits != [] ==> s.exits[0].Exit?
  {
    && (s.exits == [] ==> s.holder.config == init.config)
    && (s.exits != [] ==> s.holder.phase != H.Instantiated && s.holder.phase != H.Active)
    && (|s.exits| == 1 ==>
          && (s.holder.config.a.allocation == 0 || s.holder.config.b.allocation == 0)
          && (HR.Live(s.holder) == 0 ==> s.exits[0].fraction == ONE))
    && (|s.exits| == 2 ==> HR.Live(s.holder) == 0)
  }

  /** What an exit by (party, counterparty) for the fraction p does to the system. */
  ghost predicate ExitBy(init: H.State, s: System, t: System,
                         party: H.Party, counterparty: H.Party, ragequit: bool, p: nat) {
    var x := s.lp * p / ONE;
    var y := if counterparty.allocation == 0 then 0 else ONE;
    && H.AuthorizeSender(s.holder.config, party.host) == Ok((party, counterparty))
    && (if ragequit
        then s.holder.ragequit.Enabled? && s.holder.phase == H.Active
             && p + s.holder.ragequit.terms.penalty == party.allocation
        else (s.holder.phase == H.Expired || s.holder.phase == H.Ragequit) && p == party.allocation)
    && 0 < p <= ONE
    && x <= s.lp
    && t == System(t.holder, t.clock, s.holderAddr, s.lp - x, s.exits + [Exit(party.host, ragequit, p, x)])
    && (t.holderAddr in t.clock.queue <==> HR.Live(t.holder) > 0)
    && HR.Inv(init, t.holder)
    && t.holder.lock == None
    && t.holder.phase != H.Instantiated && t.holder.phase != H.Active
    && t.holder.config == H.UpdateParties(s.holder.config, party.(allocation := 0), counterparty.(allocation := y))
  }

  /** A claim or ragequit takes the lock and asks for a fraction. */
  lemma TakesLock(h: H.State, m: H.Message) returns (party: H.Party, counterparty: H.Party, p: nat)
    requires m.ClaimMsg? || m.RagequitMsg?
    requires H.Handle(h, m).Ok? && h.config.kind.Share?
    ensures H.AuthorizeSender(h.config, m.sender) == Ok((party, counterparty)) && party.host == m.sender
    ensures H.Handle(h, m).value.effects == [H.WithdrawLp(Some(p))]
    ensures var t := H.Handle(h, m).value.state;
            && t == h.(lock := t.lock)
            && t.lock.Some? && !t.lock.value.Emergency?
            && t.lock.value.claimer == party.host
            && t.lock.value.ProcessingRagequit? == m.RagequitMsg?
    ensures if m.RagequitMsg?
            then h.ragequit.Enabled? && h.phase == H.Active && p + h.ragequit.terms.penalty == party.allocation
            else (h.phase == H.Expired || h.phase == H.Ragequit) && p == party.allocation
  {
    var parties := H.AuthorizeSender(h.config, m.sender).value;
    party, counterparty := parties.0, parties.1;
    p := H.Handle(h, m).value.effects[0].fraction.value;
  }

  lemma {:induction false} PaymentsStayInClock(sends: seq<Send>)
    ensures H.LeaveClock !in H.Payments(sends)
  {
    if sends != [] {
      PaymentsStayInClock(sends[1..]);
    }
  }

  /** The holder leaves the clock exactly when nobody owns anything any more, and only once. */
  lemma LeavesOnce(s: System, funds: seq<Coin>)
    requires s.holderAddr in s.clock.queue <==> HR.Live(s.holder) > 0
    requires H.Handle(s.holder, H.DistributeMsg(s.holder.pooler, funds)).Ok?
    ensures var d := H.Handle(s.holder, H.DistributeMsg(s.holder.pooler, funds)).value;
            var clock := ClockAfter(s, d.effects);
            clock.Some? ==>
              && HR.Live(d.state) < HR.Live(s.holder)
              && (s.holderAddr in clock.value.queue <==> HR.Live(d.state) > 0)
  {
    var d := H.Handle(s.holder, H.DistributeMsg(s.holder.pooler, funds)).value;
    var party, counterparty, sends := HR.DistributeSettles(s.holder, s.holder.pooler, funds);
    HR.StoredBack(s.holder.config, party, counterparty, 0, HR.Inherited(s.holder, counterparty));
    PaymentsStayInClock(sends);
    CR.WithoutMembers(s.clock.queue, s.holderAddr);
    assert HR.Inherited(s.holder, counterparty) == 0 ==> H.LeaveClock in d.effects;
  }

  /** The pooler's part of the transaction, down to the holder's distribution. */
  lemma WithdrawShape(s: System, p: nat, funds: seq<Coin>) returns (party: H.Party, counterparty: H.Party)
    requires s.lp <= U128_MAX
    requires s.holderAddr in s.clock.queue <==> HR.Live(s.holder) > 0
    requires s.holder.config.kind.Share? && s.holder.lock.Some? && !s.holder.lock.value.Emergency?
    requires Withdraw(s, Some(p), funds).Some?
    ensures var m := H.DistributeMsg(s.holder.pooler, funds);
            var lock := s.holder.lock.value;
            var t := Withdraw(s, Some(p), funds).value;
            && 0 < p <= ONE && s.lp * p / ONE <= s.lp
            && H.Handle(s.holder, m).Ok?
            && t == System(HR.After(s.holder, m), t.clock, s.holderAddr, s.lp - s.lp * p / ONE,
                           s.exits + [Exit(lock.claimer, lock.ProcessingRagequit?, p, s.lp * p / ONE)])
            && (t.holderAddr in t.clock.queue <==> HR.Live(t.holder) > 0)
            && H.AuthorizeSender(s.holder.config, lock.claimer) == Ok((party, counterparty))
            && HR.Settled(s.holder, HR.After(s.holder, m), party, counterparty)
  {
    RedeemsTheFloor(s.lp, p);
    LeavesOnce(s, funds);
    var party', counterparty', _ := HR.DistributeSettles(s.holder, s.holder.pooler, funds);
    party, counterparty := party', counterparty';
  }

  /** A claim or ragequit in one transaction: the whole exit, or nothing. */
  lemma ExitShape(init: H.State, s: System, m: H.Message, funds: seq<Coin>)
    returns (party: H.Party, counterparty: H.Party, p: nat)
    requires HR.Fresh(init) && init.config.kind.Share? && s.lp <= U128_MAX
    requires HR.Inv(init, s.holder) && s.holder.lock == None
    requires s.holderAddr in s.clock.queue <==> HR.Live(s.holder) > 0
    requires m.ClaimMsg? || m.RagequitMsg?
    requires H.Handle(s.holder, m).Ok?
    ensures HolderStep(s, m, funds).Some? ==>
              ExitBy(init, s, HolderStep(s, m, funds).value, party, counterparty, m.RagequitMsg?, p)
  {
    party, counterparty, p := TakesLock(s.holder, m);
    var s1 := s.(holder := H.Handle(s.holder, m).value.state);
    if Withdraw(s1, Some(p), funds).Some? {
      HR.StepKeepsInv(init, s.holder, m);
      HR.StepKeepsInv(init, s1.holder, H.DistributeMsg(s1.holder.pooler, funds));
      var _, _ := WithdrawShape(s1, p, funds);
    }
  }

  /** With or without LP tokens, the balance drops by the floor of its fraction. */
  lemma RedeemsTheFloor(lp: nat, p: nat)
    requires 0 < p <= ONE && lp <= U128_MAX
    ensures lp * p / ONE <= lp
    ensures lp == 0 ==> lp * p / ONE == 0
    ensures Redeem(lp, p).Some? ==> Redeem(lp, p) == Some(lp * p / ONE)
  {
    PoolersComputeSameFloor(lp, p);
  }

  lemma RedeemedAppend(exits: seq<Exit>, e: Exit)
    ensures Redeemed(exits + [e]) == Redeemed(exits) + e.redeemed
  {
    assert (exits + [e])[..|exits|] == exits;
  }

  /** The holder's side of an exit: nobody but the counterparty owns anything afterwards. */
  lemma ExitLeaves(init: H.State, s: System, t: System,
                   party: H.Party, counterparty: H.Party, ragequit: bool, p: nat)
    requires ExitBy(init, s, t, party, counterparty, ragequit, p)
    ensures t.holder.config.a.allocation == 0 || t.holder.config.b.allocation == 0
    ensures HR.Live(t.holder) == if counterparty.allocation == 0 then 0 else 1
  {
    HR.StoredBack(s.holder.config, party, counterparty, 0, if counterparty.allocation == 0 then 0 else ONE);
  }

  /** The first exit's share of the account. */
  lemma FirstExitDivides(init: H.State, s: System, t: System,
                         party: H.Party, counterparty: H.Party, ragequit: bool, p: nat)
    requires HR.Fresh(init) && HR.Inv(init, s.holder) && s.holder.config == init.config && s.exits == []
    requires ExitBy(init, s, t, party, counterparty, ragequit, p)
    ensures Divided(init, s.lp, t.exits) && t.lp + Redeemed(t.exits) == s.lp
    ensures t.exits[0].fraction == p && (counterparty.allocation == 0 ==> p == ONE)
  {
    RedeemedAppend([], t.exits[0]);
    assert Redeemed([]) == 0;
  }

  lemma FirstExitKeepsInv(init: H.State, total: nat, s: System, t: System,
                          party: H.Party, counterparty: H.Party, ragequit: bool, p: nat)
    requires HR.Fresh(init) && Inv(init, total, s) && s.exits == []
    requires init.config.kind.Share? && ExitBy(init, s, t, party, counterparty, ragequit, p)
    ensures Inv(init, total, t)
  {
    assert Redeemed([]) == 0 && s.lp == total;
    FirstExitDivides(init, s, t, party, counterparty, ragequit, p);
    ExitLeaves(init, s, t, party, counterparty, ragequit, p);
  }

  lemma SecondExitKeepsInv(init: H.State, total: nat, s: System, t: System,
                           party: H.Party, counterparty: H.Party, ragequit: bool, p: nat)
    requires HR.Fresh(init) && Inv(init, total, s) && s.holder.lock == None && |s.exits| == 1
    requires init.config.kind.Share? && ExitBy(init, s, t, party, counterparty, ragequit, p)
    ensures Inv(init, total, t)
  {
    HR.StoredBack(s.holder.config, party, counterparty, 0, if counterparty.allocation == 0 then 0 else ONE);
    RedeemedAppend(s.exits, t.exits[1]);
    FloorUnique(s.lp * ONE, ONE, s.lp);
  }

  lemma ExitKeepsInv(init: H.State, total: nat, s: System, m: H.Message, funds: seq<Coin>)
    requires HR.Fresh(init) && init.config.kind.Share? && total <= U128_MAX
    requires Inv(init, total, s) && HolderStep(s, m, funds).Some?
    requires m.ClaimMsg? || m.RagequitMsg?
    ensures Inv(init, total, HolderStep(s, m, funds).value)
  {
    var t := HolderStep(s, m, funds).value;
    var party, counterparty, p := ExitShape(init, s, m, funds);
    if s.exits == [] {
      FirstExitKeepsInv(init, total, s, t, party, counterparty, m.RagequitMsg?, p);
    } else if |s.exits| == 1 {
      SecondExitKeepsInv(init, total, s, t, party, counterparty, m.RagequitMsg?, p);
    } else {
      assert false;
    }
  }

  /** The committee's transaction as a whole. */
  lemma EmergencyShape(init: H.State, s: System, m: H.Message, funds: seq<Coin>)
    requires HR.Fresh(init) && HR.Inv(init, s.holder)
    requires s.holderAddr in s.clock.queue <==> HR.Live(s.holder) > 0
    requires m.EmergencyMsg? && HolderStep(s, m, funds).Some?
    ensures var t := HolderStep(s, m, funds).value;
            && t == System(t.holder, t.clock, s.holderAddr, 0, s.exits + [EmergencyExit(s.lp)])
            && HR.Inv(init, t.holder)
            && s.holder.lock == None && t.holder.lock == Some(H.Emergency)
            && HR.Live(t.holder) < HR.Live(s.holder)
            && (t.holderAddr in t.clock.queue <==> HR.Live(t.holder) > 0)
  {
    var s1 := s.(holder := H.Handle(s.holder, m).value.state);
    var h := s1.holder;
    assert H.Handle(s.holder, m).value.effects == [H.WithdrawLp(None)];
    HR.StepKeepsInv(init, s.holder, m);
    HR.StepKeepsInv(init, h, H.DistributeMsg(h.pooler, funds));
    LeavesOnce(s1, funds);
    var _, _, _ := HR.DistributeSettles(h, h.pooler, funds);
  }

  /** The committee takes everything that is left, and the lock it takes stays. */
  lemma EmergencyKeepsInv(init: H.State, total: nat, s: System, m: H.Message, funds: seq<Coin>)
    requires HR.Fresh(init) && Inv(init, total, s) && m.EmergencyMsg? && HolderStep(s, m, funds).Some?
    ensures Inv(init, total, HolderStep(s, m, funds).value)
  {
    EmergencyShape(init, s, m, funds);
    RedeemedAppend(s.exits, EmergencyExit(s.lp));
    assert (s.exits + [EmergencyExit(s.lp)])[..|s.exits|] == s.exits;
  }

  lemma HolderStepKeepsInv(init: H.State, total: nat, s: System, m: H.Message, funds: seq<Coin>)
    requires HR.Fresh(init) && init.config.kind.Share? && total <= U128_MAX
    requires Inv(init, total, s) && m.sender != init.pooler && HolderStep(s, m, funds).Some?
    ensures Inv(init, total, HolderStep(s, m, funds).value)
    ensures HolderStep(s, m, funds).value.holderAddr == s.holderAddr
  {
    if m.ClaimMsg? || m.RagequitMsg? {
      ExitKeepsInv(init, total, s, m, funds);
    } else if m.EmergencyMsg? {
      EmergencyKeepsInv(init, total, s, m, funds);
    } else {
      HR.StepKeepsInv(init, s.holder, m);
      QuietMessages(s.holder, m);
      HR.ConfigFrame(s.holder, m);
      HR.StepKeepsRank(init, s.holder, m);
    }
  }

  lemma StepKeepsInv(init: H.State, total: nat, s: System, i: Input)
    requires HR.Fresh(init) && init.config.kind.Share? && total <= U128_MAX
    requires Inv(init, total, s) && Genuine(init, s.holderAddr, i)
    ensures Inv(init, total, Step(s, i))
    ensures Step(s, i).holderAddr == s.holderAddr
  {
    match i
    case ToHolder(m, funds, accepted) =>
      if accepted && HolderStep(s, m, funds).Some? {
        HolderStepKeepsInv(init, total, s, m, funds);
        assert Step(s, i) == HolderStep(s, m, funds).value;
      } else {
        assert Step(s, i) == s;
      }
    case ToClock(e) =>
      CR.UnmentionedKeepsMembership(s.clock, e, s.holderAddr);
      ClockKeepsInv(init, total, s, CR.After(s.clock, e));
  }

  /** The account does not look at the clock beyond the holder's place in it. */
  lemma ClockKeepsInv(init: H.State, total: nat, s: System, clock: C.State)
    requires Inv(init, total, s)
    requires s.holderAddr in clock.queue <==> s.holderAddr in s.clock.queue
    ensures Inv(init, total, s.(clock := clock))
  {
  }

  /** Ticks and failed withdrawals ask the pooler for nothing. */
  lemma QuietMessages(h: H.State, m: H.Message)
    requires m.TickMsg? || m.WithdrawFailedMsg?
    requires H.Handle(h, m).Ok?
    ensures var es := H.Handle(h, m).value.effects;
            !(|es| == 1 && es[0].WithdrawLp?)
  {
  }

  lemma {:induction false} RunKeepsInv(init: H.State, total: nat, s: System, ins: seq<Input>)
    requires HR.Fresh(init) && init.config.kind.Share? && total <= U128_MAX
    requires Inv(init, total, s)
    requires forall i :: i in ins ==> Genuine(init, s.holderAddr, i)
    ensures Inv(init, total, Run(s, ins))
    decreases |ins|
  {
    if ins != [] {
      StepKeepsInv(init, total, s, ins[0]);
      RunKeepsInv(init, total, Step(s, ins[0]), ins[1..]);
    }
  }

  /** The account of the position: `lp` is left, and `exits` were made. */
  predicate Telescopes(init: H.State, total: nat, lp: nat, exits: seq<Exit>) {
    && |exits| <= 2
    && lp + Redeemed(exits) == total
    && (exits != [] && exits[0].EmergencyExit? ==> exits == [EmergencyExit(total)])
    && (exits != [] && exits[0].Exit? ==>
          && FirstFraction(init, exits[0])
          && exits[0].redeemed == total * exits[0].fraction / ONE
          && (exits[0].fraction < ONE ==> exits[0].redeemed < total))
    && (|exits| == 2 ==>
          && exits[0].Exit?
          && exits[1].redeemed == total - exits[0].redeemed
          && lp == 0
          && total * Owed(init, exits[0]) <= exits[1].redeemed * ONE)
  }

  /** What a first exit leaves to the counterparty: its share, and the penalty after a ragequit. */
  function Owed(init: H.State, e: Exit): nat
    requires e.Exit? && FirstFraction(init, e)
  {
    H.AuthorizeSender(init.config, e.host).value.1.allocation
    + if e.ragequit then init.ragequit.terms.penalty else 0
  }

  /**
   Telescoping, over every run of a share covenant, the committee included: there are at most two
   exits, and what is redeemed and what is left always make up the position; the first exit
   redeems the floor of its fraction, and not everything unless it asked for everything, or is
   the committee's and redeems it all; the second one, a party's or the committee's, redeems
   exactly the rest: at least the counterparty's own share plus the penalty after a ragequit.
   */
  lemma LpTelescopes(init: H.State, clock: C.State, holderAddr: Addr, total: nat, ins: seq<Input>)
    requires HR.Fresh(init) && init.config.kind.Share?
    requires holderAddr in clock.queue && NoDuplicates(clock.queue)
    requires 0 < total <= U128_MAX
    requires forall i :: i in ins ==> Genuine(init, holderAddr, i)
    ensures var s := Run(System(init, clock, holderAddr, total, []), ins);
            Telescopes(init, total, s.lp, s.exits)
  {
    var s0 := System(init, clock, holderAddr, total, []);
    HR.FreshInv(init);
    assert Redeemed([]) == 0;
    RunKeepsInv(init, total, s0, ins);
    InvTelescopes(init, total, Run(s0, ins));
  }

  lemma InvTelescopes(init: H.State, total: nat, s: System)
    requires HR.Fresh(init) && 0 < total <= U128_MAX && Inv(init, total, s)
    ensures Telescopes(init, total, s.lp, s.exits)
  {
    ExitList(init, total, s);
    if s.exits != [] && s.exits[0].Exit? {
      FirstExitBound(init, total, s.exits[0]);
    }
  }

  /** The invariant read off the list of exits. */
  lemma ExitList(init: H.State, total: nat, s: System)
    requires Inv(init, total, s)
    ensures |s.exits| <= 2
    ensures s.exits != [] && s.exits[0].EmergencyExit? ==> s.exits == [EmergencyExit(total)]
    ensures s.exits != [] && s.exits[0].Exit? ==> Divided(init, total, [s.exits[0]])
    ensures |s.exits| == 2 ==> s.exits[0].Exit? && s.exits[0].redeemed + s.exits[1].redeemed == total && s.lp == 0
  {
    RedeemedOf(s.exits);
    if |s.exits| == 2 {
      assert s.exits[..1] == [s.exits[0]];
    } else if |s.exits| == 1 {
      assert s.exits == [s.exits[0]];
      assert s.exits[..0] == [];
    }
  }

  lemma RedeemedOf(exits: seq<Exit>)
    ensures exits == [] ==> Redeemed(exits) == 0
    ensures |exits| == 1 ==> Redeemed(exits) == exits[0].redeemed
    ensures |exits| == 2 ==> Redeemed(exits) == exits[0].redeemed + exits[1].redeemed
  {
    if 0 < |exits| <= 2 {
      assert exits[..|exits| - 1] == [] ==> Redeemed(exits[..|exits| - 1]) == 0;
      RedeemedOf(exits[..|exits| - 1]);
    }
  }

  /**
   What the first exit takes and leaves: not everything unless everything was asked for, and at
   least what the counterparty is owed, the penalty of a ragequit included.
   */
  lemma FirstExitBound(init: H.State, total: nat, e: Exit)
    requires HR.Fresh(init) && 0 < total <= U128_MAX
    requires e.Exit? && FirstFraction(init, e) && 0 < e.fraction <= ONE
    requires e.redeemed == total * e.fraction / ONE
    ensures e.redeemed <= total
    ensures e.fraction < ONE ==> e.redeemed < total
    ensures e.fraction == ONE ==> e.redeemed == total
    ensures total * Owed(init, e) <= (total - e.redeemed) * ONE
  {
    PoolersComputeSameFloor(total, e.fraction);
    ComplementBound(total, e.fraction);
    FractionComplement(init, e);
    FloorUnique(total * ONE, ONE, total);
  }

  lemma ComplementBound(total: nat, p: nat)
    requires p <= ONE
    ensures total * (ONE - p) <= (total - total * p / ONE) * ONE
  {
    FloorBounds(total * p, ONE);
    assert total * (ONE - p) == total * ONE - total * p;
  }

  /** What the first exit leaves is the counterparty's allocation and the penalty. */
  lemma FractionComplement(init: H.State, e: Exit)
    requires HR.Fresh(init) && e.Exit? && FirstFraction(init, e)
    ensures ONE - e.fraction == Owed(init, e)
  {
  }
}
