/** Safety and progress of the whole covenant, over every legitimate run. */
module CovenantRuns {
  import opened Base
  import opened Decimals
  import opened Splits
  import opened Distribution
  import opened Covenant
  import H = Holder
  import HR = HolderRuns
  import P = OsmoPooler
  import C = Clock
  import CR = ClockRuns

  // ---------- Transactions of the pooler ----------

  lemma OnePoolerEffect(s: System, e: P.Effect)
    ensures e.Note? ==> ApplyPoolerEffects(s, [e]) == Some(s.(sent := s.sent + multiset{e.request}))
    ensures e.HolderDistribute? ==>
              ApplyPoolerEffects(s, [e]) == HolderStep(s, H.DistributeMsg(s.holder.pooler, e.funds))
    ensures e.HolderWithdrawFailed? ==>
              ApplyPoolerEffects(s, [e]) == Some(s.(holder := s.holder.(lock := None)))
  {
    assert [e][1..] == [];
    assert forall t: System :: ApplyPoolerEffects(t, []) == Some(t);
    assert forall t: System :: ApplyHolderEffects(t, []) == Some(t);
  }

  lemma TwoNotes(s: System, r1: P.Request, r2: P.Request)
    ensures ApplyPoolerEffects(s, [P.Note(r1), P.Note(r2)]) == Some(s.(sent := s.sent + multiset{r1} + multiset{r2}))
  {
    assert [P.Note(r1), P.Note(r2)][1..] == [P.Note(r2)];
    OnePoolerEffect(s.(sent := s.sent + multiset{r1}), P.Note(r2));
  }

  lemma {:induction false} FundingOnly(s: System, es: seq<P.Effect>)
    requires forall i :: 0 <= i < |es| ==> es[i].FundProxy?
    ensures ApplyPoolerEffects(s, es) == Some(s)
    decreases |es|
  {
    if es != [] {
      FundingOnly(s, es[1..]);
    }
  }

  /** A message of the pooler that involves the holder. */
  predicate Reports(d: P.Done) {
    |d.effects| == 1 && (d.effects[0].HolderDistribute? || d.effects[0].HolderWithdrawFailed?)
  }

  /** The effects of a message that does not involve the holder. */
  predicate Quiet(es: seq<P.Effect>) {
    || (forall i :: 0 <= i < |es| ==> es[i].FundProxy?)
    || (|es| == 1 && es[0].Note?)
    || (|es| == 2 && es[0].Note? && es[1].Note?)
  }

  lemma QuietOrReports(s: P.State, m: P.Message)
    requires P.Handle(s, m).Ok?
    ensures Quiet(P.Handle(s, m).value.effects) || Reports(P.Handle(s, m).value)
  {
  }

  /** Requests to the note are in flight from now on; nothing else happens. */
  lemma QuietEffects(s: System, es: seq<P.Effect>)
    requires Quiet(es)
    ensures ApplyPoolerEffects(s, es).Some?
    ensures var t := ApplyPoolerEffects(s, es).value;
            && t == s.(sent := t.sent)
            && s.sent <= t.sent
            && forall r :: r in t.sent ==> r in s.sent || P.Note(r) in es
  {
    if forall i :: 0 <= i < |es| ==> es[i].FundProxy? {
      FundingOnly(s, es);
    } else if |es| == 1 {
      var r := es[0].request;
      assert es == [P.Note(r)];
      OnePoolerEffect(s, P.Note(r));
      assert forall x :: x in s.sent + multiset{r} ==> x in s.sent || x == r;
    } else {
      var q, r := es[0].request, es[1].request;
      assert es == [P.Note(q), P.Note(r)];
      TwoNotes(s, q, r);
      assert forall x :: x in s.sent + multiset{q} + multiset{r} ==> x in s.sent || x == q || x == r;
    }
  }

  /** A pooler transaction that does not report to the holder only sends requests. */
  lemma QuietPoolerStep(s: System, m: P.Message)
    requires P.Handle(s.pooler, m).Ok? && !Reports(P.Handle(s.pooler, m).value)
    ensures var d := P.Handle(s.pooler, m).value;
            && PoolerStep(s, m).Some?
            && var t := PoolerStep(s, m).value;
            && t == s.(pooler := d.state, sent := t.sent)
            && s.sent <= t.sent
            && forall r :: r in t.sent ==> r in s.sent || P.Note(r) in d.effects
  {
    QuietOrReports(s.pooler, m);
    var d := P.Handle(s.pooler, m).value;
    QuietEffects(s.(pooler := d.state), d.effects);
  }

  /** The pooler reports a failed withdrawal, or distributes and goes back to Active. */
  lemma ReportingPoolerStep(s: System, m: P.Message)
    requires P.Handle(s.pooler, m).Ok? && Reports(P.Handle(s.pooler, m).value)
    ensures var d := P.Handle(s.pooler, m).value;
            if d.effects[0].HolderDistribute?
            then
              && s.pooler.phase.Distributing? && d.state.phase.Active?
              && PoolerStep(s, m) ==
                 HolderStep(s.(pooler := d.state), H.DistributeMsg(s.holder.pooler, d.effects[0].funds))
            else
              && PoolerStep(s, m) == Some(s.(pooler := d.state, holder := s.holder.(lock := None)))
  {
    var d := P.Handle(s.pooler, m).value;
    OnePoolerEffect(s.(pooler := d.state), d.effects[0]);
  }

  // ---------- The invariant is inductive ----------

  /** What the pooler alone keeps: the proxy is known wherever it is needed. */
  lemma PoolerKeepsProxy(s: System, m: P.Message, t: System)
    requires P.Handle(s.pooler, m).Ok?
    requires NeedsProxy(s) ==> s.pooler.proxy.Some?
    requires m.CallbackMsg? && m.sender == s.pooler.settings.note ==> Answerable(s, m.id)
    requires t.pooler == P.Handle(s.pooler, m).value.state
    requires forall r :: r in t.sent ==> r in s.sent || P.Note(r) in P.Handle(s.pooler, m).value.effects
    ensures NeedsProxy(t) ==> t.pooler.proxy.Some?
    ensures t.pooler.settings == s.pooler.settings
  {
    match m
    case TickMsg(_, _, _, _, _) =>
    case WithdrawMsg(_, _) =>
    case CallbackMsg(_, id, _, _) =>
      assert id == P.PROXY_BALANCES_QUERY_CALLBACK_ID || id == P.WITHDRAW_LIQUIDITY_CALLBACK_ID ==>
          exists r :: r in s.sent && !r.CreateProxy?;
  }

  /** The pooler leaves the withdrawal states only when it reports to the holder. */
  lemma QuietPoolerStaysPending(s: P.State, m: P.Message)
    requires P.Handle(s, m).Ok? && !Reports(P.Handle(s, m).value) && Pending(s)
    ensures Pending(P.Handle(s, m).value.state)
  {
  }

  lemma PoolerStepKeepsInv(init: System, s: System, m: P.Message)
    requires HR.Fresh(init.holder) && Inv(init, s)
    requires m.CallbackMsg? && m.sender == s.pooler.settings.note ==> Answerable(s, m.id)
    requires PoolerStep(s, m).Some?
    ensures Inv(init, PoolerStep(s, m).value)
    ensures HR.Live(PoolerStep(s, m).value.holder) <= HR.Live(s.holder)
  {
    if !Reports(P.Handle(s.pooler, m).value) {
      QuietKeepsInv(init, s, m);
    } else if P.Handle(s.pooler, m).value.effects[0].HolderDistribute? {
      DistributionKeepsInv(init, s, m);
    } else {
      FailureKeepsInv(init, s, m);
    }
  }

  lemma QuietKeepsInv(init: System, s: System, m: P.Message)
    requires HR.Fresh(init.holder) && Inv(init, s)
    requires m.CallbackMsg? && m.sender == s.pooler.settings.note ==> Answerable(s, m.id)
    requires P.Handle(s.pooler, m).Ok? && !Reports(P.Handle(s.pooler, m).value)
    ensures PoolerStep(s, m).Some? && PoolerStep(s, m).value.holder == s.holder
    ensures Inv(init, PoolerStep(s, m).value)
  {
    QuietPoolerStep(s, m);
    PoolerKeepsProxy(s, m, PoolerStep(s, m).value);
    if Pending(s.pooler) {
      QuietPoolerStaysPending(s.pooler, m);
    }
  }

  lemma DistributionKeepsInv(init: System, s: System, m: P.Message)
    requires HR.Fresh(init.holder) && Inv(init, s)
    requires m.CallbackMsg? && m.sender == s.pooler.settings.note ==> Answerable(s, m.id)
    requires PoolerStep(s, m).Some? && Reports(P.Handle(s.pooler, m).value)
    requires P.Handle(s.pooler, m).value.effects[0].HolderDistribute?
    ensures Inv(init, PoolerStep(s, m).value)
    ensures HR.Live(PoolerStep(s, m).value.holder) <= HR.Live(s.holder)
  {
    var d := P.Handle(s.pooler, m).value;
    var h := H.DistributeMsg(s.holder.pooler, d.effects[0].funds);
    ReportingPoolerStep(s, m);
    DistributeStep(s.(pooler := d.state), d.effects[0].funds);
    HR.StepKeepsInv(init.holder, s.holder, h);
    CR.WithoutMembers(s.clock.queue, s.holderAddr);
    LockAfterDistribute(s.holder, h);
    PoolerKeepsProxy(s, m, PoolerStep(s, m).value);
    DistributeNeedsPosition(s.(pooler := d.state), d.effects[0].funds);
  }

  lemma FailureKeepsInv(init: System, s: System, m: P.Message)
    requires HR.Fresh(init.holder) && Inv(init, s)
    requires m.CallbackMsg? && m.sender == s.pooler.settings.note ==> Answerable(s, m.id)
    requires P.Handle(s.pooler, m).Ok? && Reports(P.Handle(s.pooler, m).value)
    requires P.Handle(s.pooler, m).value.effects[0].HolderWithdrawFailed?
    ensures PoolerStep(s, m).Some? && PoolerStep(s, m).value.holder == s.holder.(lock := None)
    ensures Inv(init, PoolerStep(s, m).value)
  {
    ReportingPoolerStep(s, m);
    HR.StepKeepsInv(init.holder, s.holder, H.WithdrawFailedMsg(s.holder.pooler));
    PoolerKeepsProxy(s, m, PoolerStep(s, m).value);
  }

  lemma LockAfterDistribute(h: H.State, m: H.Message)
    requires m.DistributeMsg? && H.Handle(h, m).Ok?
    ensures !Claimed(HR.After(h, m))
  {
    var _, _, _ := HR.DistributeSettles(h, m.sender, m.funds);
  }

  /**
   A distribution that commits finds somebody still owning a part of the position: even under
   the emergency lock, which stays in place, the holder cannot leave the clock twice.
   */
  lemma DistributeNeedsPosition(s: System, funds: seq<Coin>)
    requires s.holderAddr in s.clock.queue <==> HR.Live(s.holder) > 0
    ensures HolderStep(s, H.DistributeMsg(s.holder.pooler, funds)).Some? ==>
              HR.Live(HolderStep(s, H.DistributeMsg(s.holder.pooler, funds)).value.holder) < HR.Live(s.holder)
  {
    var m := H.DistributeMsg(s.holder.pooler, funds);
    DistributeStep(s, funds);
    if HolderStep(s, m).Some? {
      var party, counterparty, _ := HR.DistributeSettles(s.holder, m.sender, funds);
      HR.StoredBack(s.holder.config, party, counterparty, 0, HR.Inherited(s.holder, counterparty));
    }
  }

  lemma HolderStepKeepsInv(init: System, s: System, m: H.Message)
    requires HR.Fresh(init.holder) && Inv(init, s)
    requires m.sender != s.holder.pooler && HolderStep(s, m).Some?
    ensures Inv(init, HolderStep(s, m).value)
    ensures HR.Live(HolderStep(s, m).value.holder) == HR.Live(s.holder)
  {
    OtherHolderStep(s, m);
    HR.StepKeepsInv(init.holder, s.holder, m);
    HR.ConfigFrame(s.holder, m);
  }

  lemma StepKeepsInv(init: System, s: System, i: Input)
    requires HR.Fresh(init.holder) && Inv(init, s) && Legitimate(s, i)
    ensures Inv(init, Step(s, i))
    ensures HR.Live(Step(s, i).holder) <= HR.Live(s.holder)
  {
    if TryStep(s, i).Some? {
      match i
      case ToHolder(m, _) => HolderStepKeepsInv(init, s, m);
      case ToPooler(m, _) => PoolerStepKeepsInv(init, s, m);
      case ToClock(e) => CR.UnmentionedKeepsMembership(s.clock, e, s.holderAddr);
    }
  }

  lemma {:induction false} RunKeepsInv(init: System, s: System, ins: seq<Input>)
    requires HR.Fresh(init.holder) && Inv(init, s) && LegitimateRun(s, ins)
    ensures Inv(init, Run(s, ins))
    decreases |ins|
  {
    if ins != [] {
      StepKeepsInv(init, s, ins[0]);
      RunKeepsInv(init, Step(s, ins[0]), ins[1..]);
    }
  }

  // ---------- Safety ----------

  /**
   In every reachable state of the joint system, with late and repeated callbacks, a claim or
   ragequit that is pending at the holder is being worked on by the pooler, and so is a
   withdrawal of the committee as long as anybody owns a part of the position.
   */
  lemma LockProtocol(init: System, ins: seq<Input>)
    requires Initial(init) && LegitimateRun(init, ins)
    ensures var s := Run(init, ins);
            && (s.holder.lock.Some? && HR.Live(s.holder) > 0 ==>
                  s.pooler.phase.PendingWithdrawal? || s.pooler.phase.Distributing?)
            && (Claimed(s.holder) ==> HR.Live(s.holder) > 0)
  {
    InitialInv(init);
    RunKeepsInv(init, init, ins);
  }

  /**
   In every reachable state the proxy address is known wherever a balance is cached, a query or
   an exit request may still be answered, or the pooler is past its creation; so a tick misses
   it exactly when a withdrawal is pending and no proxy is known.
   */
  lemma ProxyAvailability(init: System, ins: seq<Input>, m: P.Message)
    requires Initial(init) && LegitimateRun(init, ins)
    ensures var s := Run(init, ins);
            && (NeedsProxy(s) ==> s.pooler.proxy.Some?)
            && (m.TickMsg? && m.sender == s.pooler.settings.clock ==>
                  (P.Handle(s.pooler, m) == Err(P.ProxyMissing) <==>
                   s.pooler.phase.PendingWithdrawal? && s.pooler.proxy.None?))
  {
    InitialInv(init);
    RunKeepsInv(init, init, ins);
    if m.TickMsg? && m.sender == Run(init, ins).pooler.settings.clock {
      TickMissesProxyIff(Run(init, ins).pooler, m);
    }
  }

  lemma TickMissesProxyIff(p: P.State, m: P.Message)
    requires m.TickMsg? && m.sender == p.settings.clock
    requires p.balances != map[] || !(p.phase.Instantiated? || p.phase.PendingWithdrawal?) ==> p.proxy.Some?
    ensures P.Handle(p, m) == Err(P.ProxyMissing) <==> p.phase.PendingWithdrawal? && p.proxy.None?
  {
  }

  /** The transaction in which the holder commits a distribution. */
  predicate Commits(s: System, i: Input) {
    && i.ToPooler? && TryStep(s, i).Some?
    && P.Handle(s.pooler, i.p).Ok?
    && P.Handle(s.pooler, i.p).value.effects != []
    && P.Handle(s.pooler, i.p).value.effects[0].HolderDistribute?
  }

  function CommitCount(s: System, ins: seq<Input>): nat
    decreases |ins|
  {
    if ins == [] then 0 else (if Commits(s, ins[0]) then 1 else 0) + CommitCount(Step(s, ins[0]), ins[1..])
  }

  /** A distribution commits only while a withdrawal is pending, and settles a position. */
  lemma CommitSettles(init: System, s: System, i: Input)
    requires HR.Fresh(init.holder) && Inv(init, s) && Legitimate(s, i) && Commits(s, i)
    ensures s.holder.lock.Some?
    ensures HR.Live(Step(s, i).holder) < HR.Live(s.holder)
    ensures !Claimed(Step(s, i).holder)
  {
    var d := P.Handle(s.pooler, i.p).value;
    QuietOrReports(s.pooler, i.p);
    ReportingPoolerStep(s, i.p);
    DistributeStep(s.(pooler := d.state), d.effects[0].funds);
    DistributeNeedsPosition(s.(pooler := d.state), d.effects[0].funds);
    LockAfterDistribute(s.holder, H.DistributeMsg(s.holder.pooler, d.effects[0].funds));
  }

  lemma {:induction false} CommitsBounded(init: System, s: System, ins: seq<Input>)
    requires HR.Fresh(init.holder) && Inv(init, s) && LegitimateRun(s, ins)
    ensures CommitCount(s, ins) <= HR.Live(s.holder)
    decreases |ins|
  {
    if ins != [] {
      StepKeepsInv(init, s, ins[0]);
      CommitsBounded(init, Step(s, ins[0]), ins[1..]);
      if Commits(s, ins[0]) {
        CommitSettles(init, s, ins[0]);
      }
    }
  }

  /**
   In any run, emergency withdrawals and repeated callbacks included, at most two
   distributions are ever committed: the third would have to leave the clock a second time.
   */
  lemma AtMostTwoDistributions(init: System, ins: seq<Input>)
    requires Initial(init) && LegitimateRun(init, ins)
    ensures CommitCount(init, ins) <= 2
  {
    InitialInv(init);
    CommitsBounded(init, init, ins);
  }

  // ---------- Progress, and where there is none ----------

  /** The coins a distributing pooler waits for have arrived. */
  predicate Arrived(p: P.State, m: P.Message) {
    && m.TickMsg? && m.sender == p.settings.clock && p.phase.Distributing?
    && m.balance1 >= P.Withdrawn(p.phase.coins, p.settings.coin1.denom)
    && m.balance2 >= P.Withdrawn(p.phase.coins, p.settings.coin2.denom)
  }

  /** Nobody owns anything once the pending distribution is settled. */
  predicate LastExit(h: H.State) {
    && h.lock.Some?
    && (h.lock.value.Emergency? || h.config.kind.Side? || h.config.a.allocation == 0 || h.config.b.allocation == 0)
  }

  predicate PenaltyFitsPending(h: H.State) {
    h.lock.Some? && h.lock.value.ProcessingRagequit? ==>
      var auth := H.AuthorizeSender(h.config, h.lock.value.claimer);
      && auth.Ok?
      && PenaltyFits(h.splits, h.lock.value.terms.penalty, auth.value.0.router, auth.value.1.router)
  }

  /**
   The tick that finds the coins home completes the withdrawal exactly when one is pending, a
   ragequit's penalty fits the stored splits, and a last exit finds the holder still ticking
   and the clock running.
   */
  lemma ArrivalCompletesIff(init: System, s: System, m: P.Message)
    requires HR.Fresh(init.holder) && Inv(init, s)
    requires Arrived(s.pooler, m)
    ensures var t := PoolerStep(s, m);
            && (t.Some? <==>
                  && s.holder.lock.Some?
                  && PenaltyFitsPending(s.holder)
                  && (LastExit(s.holder) ==> !s.clock.paused && s.holderAddr in s.clock.queue))
            && (t.Some? ==> t.value.pooler.phase.Active? && !Claimed(t.value.holder))
  {
    var d := P.Handle(s.pooler, m).value;
    ReportingPoolerStep(s, m);
    var s1 := s.(pooler := d.state);
    DistributeStep(s1, d.effects[0].funds);
    var h := H.DistributeMsg(s.holder.pooler, d.effects[0].funds);
    HR.DistributeCommitsIff(init.holder, s.holder, d.effects[0].funds);
    if H.Handle(s.holder, h).Ok? {
      var party, counterparty, _ := HR.DistributeSettles(s.holder, h.sender, h.funds);
      HR.StoredBack(s.holder.config, party, counterparty, 0, HR.Inherited(s.holder, counterparty));
      LockAfterDistribute(s.holder, h);
      assert HR.Live(HR.After(s.holder, h)) == 0 <==> LastExit(s.holder);
    }
  }

  /** Run one input further. */
  lemma {:induction false} RunAppend(s: System, ins: seq<Input>, i: Input)
    ensures Run(s, ins + [i]) == Step(Run(s, ins), i)
    ensures LegitimateRun(s, ins + [i]) <==> LegitimateRun(s, ins) && Legitimate(Run(s, ins), i)
    decreases |ins|
  {
    if ins == [] {
      assert [] + [i] == [i] && [i][1..] == [];
      assert Run(s, [i]) == Run(Step(s, i), []);
      assert LegitimateRun(Step(s, i), []);
    } else {
      assert (ins + [i])[1..] == ins[1..] + [i];
      RunAppend(Step(s, ins[0]), ins[1..], i);
    }
  }

  /** The tick that finds home exactly what a distributing pooler waits for. */
  function ArrivalTick(p: P.State): P.Message
    requires p.phase.Distributing?
  {
    P.TickMsg(p.settings.clock, false, P.Withdrawn(p.phase.coins, p.settings.coin1.denom),
              P.Withdrawn(p.phase.coins, p.settings.coin2.denom), false)
  }

  /** A withdrawal that can still be settled: somebody owns something and the penalty fits. */
  predicate CanSettle(h: H.State) {
    h.lock.Some? && HR.Live(h) > 0 && PenaltyFitsPending(h)
  }

  /** With the clock running, the coins' arrival settles whatever can be settled. */
  lemma ArrivalSettles(init: System, s: System)
    requires HR.Fresh(init.holder) && Inv(init, s)
    requires s.pooler.phase.Distributing? && CanSettle(s.holder)
    ensures var i := ToPooler(ArrivalTick(s.pooler), true);
            var s1 := Step(s, ToClock(C.Unpause));
            var t := Step(s1, i);
            && Legitimate(s, ToClock(C.Unpause)) && Legitimate(s1, i)
            && s1 == s.(clock := s1.clock)
            && Commits(s1, i)
            && t.sent == s.sent
            && HR.Live(t.holder) < HR.Live(s.holder)
            && !Claimed(t.holder)
  {
    var i := ToPooler(ArrivalTick(s.pooler), true);
    var s1 := Step(s, ToClock(C.Unpause));
    StepKeepsInv(init, s, ToClock(C.Unpause));
    ArrivalCompletesIff(init, s1, i.p);
    CommitSettles(init, s1, i);
    var d := P.Handle(s1.pooler, i.p).value;
    ReportingPoolerStep(s1, i.p);
    DistributeStep(s1.(pooler := d.state), d.effects[0].funds);
  }

  /** A ragequit is pending whose penalty does not fit some stored split. */
  predicate Stuck(s: System) {
    && s.holder.lock.Some? && s.holder.lock.value.ProcessingRagequit?
    && !PenaltyFitsPending(s.holder)
    && s.pooler.phase.Distributing?
  }

  /** An answered exit while the penalty does not fit leads there. */
  lemma AnsweredExitGetsStuck(s: System, refunds: seq<P.Refund>, remote: Option<Option<Addr>>)
    requires s.holder.lock.Some? && s.holder.lock.value.ProcessingRagequit? && !PenaltyFitsPending(s.holder)
    requires refunds != []
    ensures Stuck(Step(s, ToPooler(P.CallbackMsg(s.pooler.settings.note, P.WITHDRAW_LIQUIDITY_CALLBACK_ID,
                                                 P.ExecuteOk(refunds), remote), true)))
  {
    var m := P.CallbackMsg(s.pooler.settings.note, P.WITHDRAW_LIQUIDITY_CALLBACK_ID, P.ExecuteOk(refunds), remote);
    QuietPoolerStep(s, m);
  }

  /** Instantiation accepts a ragequit penalty that exceeds a party's share of some split. */
  lemma UnfitPenaltyIsAccepted(m: H.InstantiateMsg, d: Denom)
    requires !m.depositDeadlinePassed && m.deadlineBeforeLockup && m.addressesValid
    requires m.config.a.contribution.amount > 0 && m.config.b.contribution.amount > 0
    requires m.config.a.allocation == m.config.b.allocation == ONE / 2
    requires m.ragequit == H.Enabled(H.RagequitTerms(ONE / 10, None)) && m.fallback == None
    requires m.config.a.router != m.config.b.router
    requires m.splits == map[d := [Receiver(m.config.a.router, ONE / 20), Receiver(m.config.b.router, ONE - ONE / 20)]]
    ensures var r := H.Instantiate(m);
            && r.Ok?
            && !PenaltyFits(r.value.splits, ONE / 10, m.config.a.router, m.config.b.router)
  {
    var s := m.splits[d];
    assert ShareOf(s, m.config.a.router) == Some(ONE / 20);
    assert s[1..] == [s[1]];
    assert ShareOf(s, m.config.b.router) == Some(ONE - ONE / 20);
    assert d in m.splits;
    var r := H.Instantiate(m);
    assert d in r.value.splits.explicit && r.value.splits.explicit[d] == s;
    assert !SplitFits(s, ONE / 10, m.config.a.router, m.config.b.router, true);
  }

  lemma StuckPoolerStep(init: System, s: System, m: P.Message)
    requires HR.Fresh(init.holder) && Inv(init, s) && Stuck(s)
    requires m.WithdrawMsg? ==> m.sender != s.holderAddr
    ensures PoolerStep(s, m).Some? ==>
              PoolerStep(s, m).value.holder == s.holder && PoolerStep(s, m).value.pooler.phase.Distributing?
  {
    if P.Handle(s.pooler, m).Ok? {
      if Reports(P.Handle(s.pooler, m).value) {
        ArrivalCompletesIff(init, s, m);
      } else {
        QuietPoolerStep(s, m);
      }
    }
  }

  lemma StuckStep(init: System, s: System, i: Input)
    requires HR.Fresh(init.holder) && Inv(init, s) && Legitimate(s, i) && Stuck(s)
    ensures Stuck(Step(s, i)) && Step(s, i).holder.lock == s.holder.lock
  {
    match i
    case ToHolder(m, _) =>
      if TryStep(s, i).Some? {
        OtherHolderStep(s, m);
        HR.ConfigFrame(s.holder, m);
      }
    case ToPooler(m, _) => StuckPoolerStep(init, s, m);
    case ToClock(e) =>
  }

  /**
   A ragequit checked against the allocations alone can be accepted although its penalty does
   not fit a split. Once its withdrawal is under way no run ever releases the lock, so neither
   party can exit and the committee cannot withdraw.
   */
  lemma {:induction false} UnfitPenaltyLocksForever(init: System, s: System, ins: seq<Input>)
    requires HR.Fresh(init.holder) && Inv(init, s) && LegitimateRun(s, ins) && Stuck(s)
    ensures Stuck(Run(s, ins)) && Run(s, ins).holder.lock == s.holder.lock
    decreases |ins|
  {
    if ins != [] {
      StepKeepsInv(init, s, ins[0]);
      StuckStep(init, s, ins[0]);
      UnfitPenaltyLocksForever(init, Step(s, ins[0]), ins[1..]);
    }
  }

  /** A ragequit under distribution stays locked for ever exactly when its penalty does not fit. */
  lemma LockedForeverIff(init: System, s: System)
    requires HR.Fresh(init.holder) && Inv(init, s)
    requires s.holder.lock.Some? && s.holder.lock.value.ProcessingRagequit? && s.pooler.phase.Distributing?
    ensures (forall ins :: LegitimateRun(s, ins) ==> Run(s, ins).holder.lock == s.holder.lock)
            <==> !PenaltyFitsPending(s.holder)
  {
    if PenaltyFitsPending(s.holder) {
      ArrivalSettles(init, s);
      var i, j := ToClock(C.Unpause), ToPooler(ArrivalTick(s.pooler), true);
      RunAppend(s, [], i);
      RunAppend(s, [] + [i], j);
      assert LegitimateRun(s, [] + [i] + [j]) && Run(s, [] + [i] + [j]).holder.lock != s.holder.lock;
    } else {
      forall ins | LegitimateRun(s, ins) ensures Run(s, ins).holder.lock == s.holder.lock {
        UnfitPenaltyLocksForever(init, s, ins);
      }
    }
  }

  /** A withdrawal was requested before the proxy exists, and no proxy is being created. */
  predicate Stranded(s: System) {
    && s.holder.lock.Some?
    && s.pooler.phase.PendingWithdrawal? && s.pooler.proxy.None?
    && P.CreateProxy !in s.sent
  }

  /** Any withdrawal request that reaches a pooler which has not asked for its proxy strands it. */
  lemma WithdrawBeforeProxyStrands(init: System, s: System, m: H.Message)
    requires HR.Fresh(init.holder) && Inv(init, s)
    requires s.pooler.proxy.None? && P.CreateProxy !in s.sent
    requires m.ClaimMsg? || m.RagequitMsg? || m.EmergencyMsg?
    requires HolderStep(s, m).Some?
    ensures Stranded(HolderStep(s, m).value)
  {
    OtherHolderStep(s, m);
  }

  /** No message to a stranded pooler succeeds. */
  lemma StrandedPoolerIsDeaf(s: System, m: P.Message)
    requires Stranded(s) && (NeedsProxy(s) ==> s.pooler.proxy.Some?) && s.pooler.settings.holder == s.holderAddr
    requires Legitimate(s, ToPooler(m, true))
    ensures P.Handle(s.pooler, m).Err?
  {
    match m
    case TickMsg(_, _, _, _, _) =>
    case WithdrawMsg(_, _) =>
    case CallbackMsg(_, _, _, _) =>
      assert forall r :: r in s.sent ==> r.CreateProxy?;
  }

  /** The holder, its lock held, asks the pooler for nothing. */
  lemma StrandedHolderStep(s: System, m: H.Message)
    requires Stranded(s) && m.sender != s.holder.pooler && HolderStep(s, m).Some?
    ensures var t := HolderStep(s, m).value;
            && t.holder.lock == s.holder.lock && t.sent == s.sent
            && t.pooler.phase.PendingWithdrawal? && t.pooler.proxy == s.pooler.proxy
  {
    OtherHolderStep(s, m);
  }

  lemma StrandedStep(init: System, s: System, i: Input)
    requires HR.Fresh(init.holder) && Inv(init, s) && Legitimate(s, i) && Stranded(s)
    ensures Stranded(Step(s, i)) && Step(s, i).holder.lock == s.holder.lock
  {
    if TryStep(s, i).Some? {
      match i
      case ToHolder(m, _) => StrandedHolderStep(s, m);
      case ToPooler(m, _) => StrandedPoolerIsDeaf(s, m);
      case ToClock(_) =>
    }
  }

  /** A stranded withdrawal never ends: the pooler asks for its proxy only when Instantiated. */
  lemma {:induction false} StrandedForever(init: System, s: System, ins: seq<Input>)
    requires HR.Fresh(init.holder) && Inv(init, s) && LegitimateRun(s, ins) && Stranded(s)
    ensures Stranded(Run(s, ins)) && Run(s, ins).holder.lock == s.holder.lock
    decreases |ins|
  {
    if ins != [] {
      StepKeepsInv(init, s, ins[0]);
      StrandedStep(init, s, ins[0]);
      StrandedForever(init, Step(s, ins[0]), ins[1..]);
    }
  }

  /**
   A pending withdrawal without a proxy never gets one exactly when the proxy was not asked for
   before: a request still in flight can be answered at any time.
   */
  lemma StrandedIff(init: System, s: System)
    requires HR.Fresh(init.holder) && Inv(init, s)
    requires s.holder.lock.Some? && s.pooler.phase.PendingWithdrawal? && s.pooler.proxy.None?
    ensures Stranded(s) <==> forall ins :: LegitimateRun(s, ins) ==> Run(s, ins).pooler.proxy.None?
  {
    if Stranded(s) {
      forall ins | LegitimateRun(s, ins) ensures Run(s, ins).pooler.proxy.None? {
        StrandedForever(init, s, ins);
      }
    } else {
      var m := P.CallbackMsg(s.pooler.settings.note, P.CREATE_PROXY_CALLBACK_ID, P.ExecuteOk([]), Some(Some("proxy")));
      QuietPoolerStep(s, m);
      RunAppend(s, [], ToPooler(m, true));
      assert Answerable(s, m.id) by {
        assert P.Request.CreateProxy.CallbackId() == Some(m.id);
      }
      assert Run(s, [] + [ToPooler(m, true)]).pooler.proxy.Some?;
    }
  }

  /** The real input: the committee withdraws right after instantiation. */
  lemma EmergencyStrands(s: System, committee: Addr)
    requires Initial(s) && s.holder.committee == Some(committee)
    ensures var t := Step(s, ToHolder(H.EmergencyMsg(committee), true));
            && Stranded(t)
            && (committee != s.holder.pooler ==>
                  forall ins :: LegitimateRun(t, ins) ==>
                    Stranded(Run(t, ins)) && Run(t, ins).holder.lock == Some(H.Emergency))
  {
    var i := ToHolder(H.EmergencyMsg(committee), true);
    var t := Step(s, i);
    InitialInv(s);
    var d := H.Handle(s.holder, i.h).value;
    OneHolderEffect(s.(holder := d.state), d.effects[0]);
    assert d.effects == [H.WithdrawLp(None)];
    if committee != s.holder.pooler {
      StepKeepsInv(s, s, i);
      forall ins | LegitimateRun(t, ins)
        ensures Stranded(Run(t, ins)) && Run(t, ins).holder.lock == Some(H.Emergency)
      {
        StrandedForever(s, t, ins);
      }
    }
  }

  // ---------- Exit requests ----------

  /** The pooler is about to redeem a share of the LP balance it has cached. */
  predicate Exiting(p: P.State, x: nat) {
    && p.phase.PendingWithdrawal? && P.AllCached(p) && p.balances[p.settings.lpDenom] > 0
    && CheckedMultiplyRatio(p.balances[p.settings.lpDenom], p.phase.share, ONE) == Some(x)
  }

  function Repeat(i: Input, n: nat): seq<Input> {
    if n == 0 then [] else [i] + Repeat(i, n - 1)
  }

  /** A tick sends an exit request exactly when the pooler is exiting, and leaves it exiting. */
  lemma TickSendsExitIff(p: P.State, m: P.Message, x: nat)
    requires m.TickMsg? && m.sender == p.settings.clock
    ensures P.Handle(p, m).Ok? && P.Note(P.ExitPool(x)) in P.Handle(p, m).value.effects <==> Exiting(p, x)
    ensures Exiting(p, x) ==> P.Handle(p, m) == Ok(P.Done(p, [P.Note(P.ExitPool(x))]))
  {
  }

  lemma ExitingTick(s: System, m: P.Message, x: nat)
    requires m.TickMsg? && m.sender == s.pooler.settings.clock && Exiting(s.pooler, x)
    ensures Step(s, ToPooler(m, true)) == s.(sent := s.sent + multiset{P.ExitPool(x)})
  {
    TickSendsExitIff(s.pooler, m, x);
    OnePoolerEffect(s, P.Note(P.ExitPool(x)));
  }

  /**
   One exit per withdrawal is not guaranteed: until an answer arrives every tick sends the same
   request again, so n ticks put n exits of the full share in flight.
   */
  lemma {:induction false} EveryTickExitsAgain(s: System, m: P.Message, x: nat, n: nat)
    requires m.TickMsg? && m.sender == s.pooler.settings.clock && Exiting(s.pooler, x)
    ensures var t := Run(s, Repeat(ToPooler(m, true), n));
            t == s.(sent := t.sent) && t.sent[P.ExitPool(x)] == s.sent[P.ExitPool(x)] + n
    decreases n
  {
    if n > 0 {
      var i := ToPooler(m, true);
      ExitingTick(s, m, x);
      assert Repeat(i, n)[1..] == Repeat(i, n - 1);
      EveryTickExitsAgain(Step(s, i), m, x, n - 1);
    }
  }
}
