/**
 When a pending withdrawal can still be settled by some run: exactly when its terms allow it and
 the pooler is not stranded.
 */
module Settlement {
  import opened Base
  import opened Decimals
  import opened Covenant
  import opened CovenantRuns
  import opened OwnExits
  import HR = HolderRuns
  import P = OsmoPooler
  import C = Clock

  // ---------- What the pooler knows in every reachable state ----------

  /** Cached balances were asked for, and a pending share is one the pooler accepts. */
  predicate Informed(s: System) {
    KnowsOnly(s.pooler, P.QueryBalances in s.sent)
  }

  predicate KnowsOnly(p: P.State, queried: bool) {
    && (p.balances != map[] ==> queried)
    && (p.phase.PendingWithdrawal? ==> 0 < p.phase.share <= ONE)
  }

  /** The pooler alone keeps it, as long as nobody answers a query that was not sent. */
  lemma HandleKeepsKnowledge(p: P.State, m: P.Message, queried: bool)
    requires KnowsOnly(p, queried) && P.Handle(p, m).Ok?
    requires m.CallbackMsg? && m.sender == p.settings.note && m.id == P.PROXY_BALANCES_QUERY_CALLBACK_ID ==> queried
    ensures KnowsOnly(P.Handle(p, m).value.state, queried)
  {
    match m
    case TickMsg(_, _, _, _, _) =>
    case WithdrawMsg(_, _) =>
    case CallbackMsg(_, _, _, _) =>
  }

  lemma PoolerStepSetsPooler(s: System, m: P.Message)
    requires PoolerStep(s, m).Some?
    ensures PoolerStep(s, m).value.pooler == P.Handle(s.pooler, m).value.state
  {
    var d := P.Handle(s.pooler, m).value;
    if Reports(d) {
      ReportingPoolerStep(s, m);
      if d.effects[0].HolderDistribute? {
        DistributeStep(s.(pooler := d.state), d.effects[0].funds);
      }
    } else {
      QuietPoolerStep(s, m);
    }
  }

  lemma PoolerStepKeepsInformed(s: System, m: P.Message)
    requires Legitimate(s, ToPooler(m, true)) && Informed(s) && PoolerStep(s, m).Some?
    ensures Informed(PoolerStep(s, m).value)
  {
    if m.CallbackMsg? && m.sender == s.pooler.settings.note && m.id == P.PROXY_BALANCES_QUERY_CALLBACK_ID {
      var r :| r in s.sent && r.CallbackId() == Some(m.id);
      assert r == P.QueryBalances;
    }
    HandleKeepsKnowledge(s.pooler, m, P.QueryBalances in s.sent);
    PoolerStepSetsPooler(s, m);
    SentGrows(s, ToPooler(m, true));
    assert Step(s, ToPooler(m, true)) == PoolerStep(s, m).value;
  }

  lemma StepKeepsInformed(s: System, i: Input)
    requires Legitimate(s, i) && Informed(s)
    ensures Informed(Step(s, i))
  {
    if TryStep(s, i).Some? {
      match i
      case ToHolder(m, _) => OtherHolderStep(s, m);
      case ToPooler(m, _) => PoolerStepKeepsInformed(s, m);
      case ToClock(_) =>
    }
  }

  lemma {:induction false} RunKeepsInformed(s: System, ins: seq<Input>)
    requires Informed(s) && LegitimateRun(s, ins)
    ensures Informed(Run(s, ins))
    decreases |ins|
  {
    if ins != [] {
      StepKeepsInformed(s, ins[0]);
      RunKeepsInformed(Step(s, ins[0]), ins[1..]);
    }
  }

  // ---------- One step towards the settlement ----------

  /** A withdrawal that is pending at the holder and at the pooler, and can be settled. */
  ghost predicate Open(init: System, s: System) {
    && HR.Fresh(init.holder) && Inv(init, s) && Informed(s)
    && CanSettle(s.holder) && s.pooler.phase.PendingWithdrawal?
  }

  ghost predicate Settleable(s: System) {
    exists ins, i :: Settles(s, ins, i)
  }

  /** A step that leaves the lock alone can be put before a settlement. */
  lemma StepFirst(s: System, j: Input)
    requires Legitimate(s, j) && Step(s, j).holder.lock == s.holder.lock && Settleable(Step(s, j))
    ensures Settleable(s)
  {
    var ins, i :| Settles(Step(s, j), ins, i);
    assert ([j] + ins)[1..] == ins;
    assert Run(s, [j] + ins) == Run(Step(s, j), ins);
    assert Settles(s, [j] + ins, i);
  }

  function ClockTick(s: System): Input {
    ToPooler(P.TickMsg(s.pooler.settings.clock, false, 0, 0, false), true)
  }

  function Answer(s: System, id: nat, result: P.Callback): Input {
    ToPooler(P.CallbackMsg(s.pooler.settings.note, id, result, Some(Some("proxy"))), true)
  }

  /** An exit is in flight: it is answered, and the coins arrive. */
  lemma FromExit(init: System, s: System, x: nat)
    requires Open(init, s) && P.ExitPool(x) in s.sent
    ensures Settleable(s)
  {
    var ins, i := ForeignAnswerSettles(init, s, x, []);
    assert Settles(s, ins, i);
  }

  /** One LP token is known of: the tick asks for the exit. */
  lemma FromBalances(init: System, s: System)
    requires Open(init, s) && P.AllCached(s.pooler) && s.pooler.balances[s.pooler.settings.lpDenom] == 1
    ensures Settleable(s)
  {
    var share := s.pooler.phase.share;
    RatioInRange(1, share, ONE);
    var x := 1 * share / ONE;
    var i := ClockTick(s);
    ExitingTick(s, i.p, x);
    StepKeepsInv(init, s, i);
    StepKeepsInformed(s, i);
    FromExit(init, Step(s, i), x);
    StepFirst(s, i);
  }

  /** A balance query is in flight: it may be answered with one LP token. */
  lemma FromQuery(init: System, s: System)
    requires Open(init, s) && P.QueryBalances in s.sent
    ensures Settleable(s)
  {
    var c := s.pooler.settings;
    var rs := [P.Reported(c.coin1.denom, 0), P.Reported(c.coin2.denom, 0), P.Reported(c.lpDenom, 1)];
    var i := Answer(s, P.PROXY_BALANCES_QUERY_CALLBACK_ID, P.QueryOk(rs));
    AbsorbThree(s.pooler.balances, rs);
    assert P.Request.QueryBalances.CallbackId() == Some(P.PROXY_BALANCES_QUERY_CALLBACK_ID);
    assert Legitimate(s, i);
    QuietPoolerStep(s, i.p);
    StepKeepsInv(init, s, i);
    StepKeepsInformed(s, i);
    FromBalances(init, Step(s, i));
    StepFirst(s, i);
  }

  lemma AbsorbThree(b: map<Denom, nat>, rs: seq<P.BalanceResponse>)
    requires |rs| == 3 && rs[0].Reported? && rs[1].Reported? && rs[2].Reported?
    ensures P.Absorb(b, rs) ==
            Some(b[rs[0].denom := rs[0].amount][rs[1].denom := rs[1].amount][rs[2].denom := rs[2].amount])
  {
    var b1 := b[rs[0].denom := rs[0].amount];
    var b2 := b1[rs[1].denom := rs[1].amount];
    assert rs[1..][1..] == rs[2..] && rs[2..][1..] == [];
    assert P.Absorb(b2, rs[2..]) == P.Absorb(b2[rs[2].denom := rs[2].amount], []);
    assert P.Absorb(b1, rs[1..]) == P.Absorb(b2, rs[2..]);
  }

  /** The proxy is known: without cached balances the tick asks for them. */
  lemma FromProxy(init: System, s: System)
    requires Open(init, s) && s.pooler.proxy.Some?
    ensures Settleable(s)
  {
    if P.QueryBalances in s.sent {
      FromQuery(init, s);
    } else {
      var i := ClockTick(s);
      assert s.pooler.balances == map[];
      assert P.Handle(s.pooler, i.p) == Ok(P.Done(P.Reset(s.pooler), [P.Note(P.QueryBalances)]));
      OnePoolerEffect(s.(pooler := P.Reset(s.pooler)), P.Note(P.QueryBalances));
      StepKeepsInv(init, s, i);
      StepKeepsInformed(s, i);
      FromQuery(init, Step(s, i));
      StepFirst(s, i);
    }
  }

  /** The proxy was asked for: it may still be created. */
  lemma FromCreation(init: System, s: System)
    requires Open(init, s) && P.CreateProxy in s.sent
    ensures Settleable(s)
  {
    var i := Answer(s, P.CREATE_PROXY_CALLBACK_ID, P.ExecuteOk([]));
    assert P.Request.CreateProxy.CallbackId() == Some(P.CREATE_PROXY_CALLBACK_ID);
    assert Legitimate(s, i);
    QuietPoolerStep(s, i.p);
    StepKeepsInv(init, s, i);
    StepKeepsInformed(s, i);
    FromProxy(init, Step(s, i));
    StepFirst(s, i);
  }

  /** The coins are on their way: they arrive, and the clock runs. */
  lemma FromDistribution(init: System, s: System)
    requires HR.Fresh(init.holder) && Inv(init, s) && CanSettle(s.holder) && s.pooler.phase.Distributing?
    ensures Settleable(s)
  {
    ArrivalSettles(init, s);
    var j := ToClock(C.Unpause);
    assert Settles(Step(s, j), [], ToPooler(ArrivalTick(s.pooler), true));
    StepFirst(s, j);
  }

  // ---------- The whole ----------

  /** A stranded withdrawal is never settled. */
  lemma StrandedNeverSettles(init: System, s: System, ins: seq<Input>, i: Input)
    requires HR.Fresh(init.holder) && Inv(init, s) && Stranded(s)
    ensures !Settles(s, ins, i)
  {
    if Settles(s, ins, i) {
      StrandedForever(init, s, ins);
      CommitFindsArrival(Run(s, ins), i);
    }
  }

  /**
   In every reachable state with a lock held, some run settles this lock exactly when somebody
   owns a part of the position, a ragequit's penalty fits, and the pooler is not stranded. So
   unfit penalties and stranded poolers are the only ways to get stuck.
   */
  lemma SettleableIff(init: System, past: seq<Input>)
    requires Initial(init) && LegitimateRun(init, past) && Run(init, past).holder.lock.Some?
    ensures var s := Run(init, past);
            (exists ins, i :: Settles(s, ins, i)) <==> CanSettle(s.holder) && !Stranded(s)
  {
    var s := Run(init, past);
    InitialInv(init);
    RunKeepsInv(init, init, past);
    RunKeepsInformed(init, past);
    if CanSettle(s.holder) && !Stranded(s) {
      if s.pooler.phase.Distributing? {
        FromDistribution(init, s);
      } else if s.pooler.proxy.Some? {
        FromProxy(init, s);
      } else {
        FromCreation(init, s);
      }
      assert Settleable(s);
    }
    forall ins, i | Settles(s, ins, i) ensures CanSettle(s.holder) && !Stranded(s) {
      OnlySettleable(init, s, ins, i);
      if Stranded(s) {
        StrandedNeverSettles(init, s, ins, i);
      }
    }
  }
}
