/**
 What the pooler redeems is what the holder asked for: over every run of the joint system the
 pending share is the one the holder's lock stands for, and exits ask for its floor.
 */
module PendingShares {
  import opened Base
  import opened Decimals
  import opened Covenant
  import opened CovenantRuns
  import opened OwnExits
  import H = Holder
  import HR = HolderRuns
  import P = OsmoPooler
  import S = Settlement

  /**
   The fraction of the position a lock stands for: everything for the committee and in a side
   covenant; otherwise the claimer's allocation, less the penalty when ragequitting.
   */
  function StandsFor(h: H.State): int
    requires h.lock.Some?
  {
    if h.lock.value.Emergency? || h.config.kind.Side? then ONE
    else
      match H.AuthorizeSender(h.config, h.lock.value.claimer)
      case Err(_) => 0
      case Ok((party, _)) =>
        party.allocation - if h.lock.value.ProcessingRagequit? then h.lock.value.terms.penalty else 0
  }

  predicate ShareStands(h: H.State, p: P.State) {
    h.lock.Some? && p.phase.PendingWithdrawal? ==> p.phase.share == StandsFor(h)
  }

  // ---------- Taking the lock ----------

  /** Within one transaction the lock is taken and the pooler told what it stands for. */
  lemma RequestStands(s: System, m: H.Message)
    requires m.ClaimMsg? || m.RagequitMsg? || m.EmergencyMsg?
    requires HolderStep(s, m).Some?
    ensures var t := HolderStep(s, m).value;
            && t.holder.lock.Some? && t.pooler.phase.PendingWithdrawal?
            && t.pooler.phase.share == StandsFor(t.holder)
  {
    var d := H.Handle(s.holder, m).value;
    OneHolderEffect(s.(holder := d.state), d.effects[0]);
    assert d.effects == [d.effects[0]];
    match m
    case ClaimMsg(_) =>
    case RagequitMsg(_, _) =>
    case EmergencyMsg(_) =>
  }

  /** Ticks and failures leave what a lock stands for as it is. */
  lemma OtherMessagesStand(s: System, m: H.Message)
    requires m.TickMsg? || m.WithdrawFailedMsg?
    requires HolderStep(s, m).Some? && ShareStands(s.holder, s.pooler)
    ensures ShareStands(HolderStep(s, m).value.holder, HolderStep(s, m).value.pooler)
  {
    OtherHolderStep(s, m);
    var d := H.Handle(s.holder, m).value;
    if m.TickMsg? {
      TickLeavesPooler(s, m);
    }
  }

  lemma TickLeavesPooler(s: System, m: H.Message)
    requires m.TickMsg? && HolderStep(s, m).Some?
    ensures HolderStep(s, m).value.pooler == s.pooler
  {
    var d := H.Handle(s.holder, m).value;
    var s1 := s.(holder := d.state);
    if s.holder.phase.Complete? {
      var sends := TickSends(s.holder, m);
      assert H.Payments(sends) + [] == H.Payments(sends);
      PaymentsDoNothing(s1, sends, []);
    } else if d.effects != [] {
      OneHolderEffect(s1, d.effects[0]);
      assert d.effects == [d.effects[0]];
    }
  }

  // ---------- Every transaction ----------

  lemma PoolerStepStands(s: System, m: P.Message)
    requires Legitimate(s, ToPooler(m, true)) && s.pooler.settings.holder == s.holderAddr
    requires ShareStands(s.holder, s.pooler) && PoolerStep(s, m).Some?
    ensures ShareStands(PoolerStep(s, m).value.holder, PoolerStep(s, m).value.pooler)
  {
    var d := P.Handle(s.pooler, m).value;
    if Reports(d) {
      ReportingPoolerStep(s, m);
      if d.effects[0].HolderDistribute? {
        DistributeStep(s.(pooler := d.state), d.effects[0].funds);
      }
    } else {
      QuietPoolerStep(s, m);
      PendingStays(s.pooler, m);
    }
  }

  /** The pooler alone never sets or changes a pending share. */
  lemma PendingStays(p: P.State, m: P.Message)
    requires P.Handle(p, m).Ok? && !m.WithdrawMsg?
    ensures P.Handle(p, m).value.state.phase.PendingWithdrawal? ==> P.Handle(p, m).value.state.phase == p.phase
  {
    match m
    case TickMsg(_, _, _, _, _) =>
    case CallbackMsg(_, _, _, _) =>
  }

  lemma StepStands(init: System, s: System, i: Input)
    requires HR.Fresh(init.holder) && Inv(init, s) && Legitimate(s, i)
    requires ShareStands(s.holder, s.pooler)
    ensures ShareStands(Step(s, i).holder, Step(s, i).pooler)
  {
    if TryStep(s, i).Some? {
      match i
      case ToHolder(m, _) =>
        if m.ClaimMsg? || m.RagequitMsg? || m.EmergencyMsg? {
          RequestStands(s, m);
        } else {
          OtherMessagesStand(s, m);
        }
      case ToPooler(m, _) =>
        if !m.WithdrawMsg? {
          PoolerStepStands(s, m);
        }
      case ToClock(_) =>
    }
  }

  lemma {:induction false} RunStands(init: System, s: System, ins: seq<Input>)
    requires HR.Fresh(init.holder) && Inv(init, s) && LegitimateRun(s, ins)
    requires ShareStands(s.holder, s.pooler)
    ensures ShareStands(Run(s, ins).holder, Run(s, ins).pooler)
    decreases |ins|
  {
    if ins != [] {
      StepKeepsInv(init, s, ins[0]);
      StepStands(init, s, ins[0]);
      RunStands(init, Step(s, ins[0]), ins[1..]);
    }
  }

  // ---------- The laws ----------

  /**
   In every reachable joint state, while the holder's lock is held and the pooler has a pending
   withdrawal, the pending share is what the lock stands for, by the agreed terms.
   */
  lemma PendingShareIsAsked(init: System, ins: seq<Input>)
    requires Initial(init) && LegitimateRun(init, ins)
    ensures var s := Run(init, ins);
            s.holder.lock.Some? && s.pooler.phase.PendingWithdrawal? ==> s.pooler.phase.share == StandsFor(s.holder)
  {
    InitialInv(init);
    RunStands(init, init, ins);
  }

  /**
   Every exit request sent in a run while the lock is held asks for the floor of what the lock
   stands for: x LP tokens of a cached balance of `lp`.
   */
  lemma ExitsAskWhatTheLockStandsFor(init: System, ins: seq<Input>, m: P.Message, x: nat)
    requires Initial(init) && LegitimateRun(init, ins)
    requires var s := Run(init, ins);
             && s.holder.lock.Some? && P.Handle(s.pooler, m).Ok?
             && P.Note(P.ExitPool(x)) in P.Handle(s.pooler, m).value.effects
    ensures var s := Run(init, ins);
            && s.pooler.settings.lpDenom in s.pooler.balances
            && var lp := s.pooler.balances[s.pooler.settings.lpDenom];
            && 0 < StandsFor(s.holder) <= ONE
            && x * ONE <= lp * StandsFor(s.holder) < (x + 1) * ONE
            && (StandsFor(s.holder) == ONE ==> x == lp)
  {
    var s := Run(init, ins);
    PendingShareIsAsked(init, ins);
    InitialInv(init);
    assert m.TickMsg? && m.sender == s.pooler.settings.clock;
    TickSendsExitIff(s.pooler, m, x);
    var lp := s.pooler.balances[s.pooler.settings.lpDenom];
    SharesInRange(init, ins);
    if StandsFor(s.holder) == ONE {
      MulMonotone(x, lp, ONE);
      MulMonotone(lp, x, ONE);
      FloorUnique(lp * ONE, ONE, lp);
      FloorUnique(lp * ONE, ONE, x);
    }
  }

  lemma SharesInRange(init: System, ins: seq<Input>)
    requires Initial(init) && LegitimateRun(init, ins)
    ensures var p := Run(init, ins).pooler;
            p.phase.PendingWithdrawal? ==> 0 < p.phase.share <= ONE
  {
    S.RunKeepsInformed(init, ins);
  }
}
