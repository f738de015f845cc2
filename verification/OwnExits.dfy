/**
 Whether a settled withdrawal had an exit of its own. Answers do not say which withdrawal they
 belong to, so an exit that is still in flight when a lock is taken can settle it.
 */
module OwnExits {
  import opened Base
  import opened Decimals
  import opened Covenant
  import opened CovenantRuns
  import H = Holder
  import HR = HolderRuns
  import P = OsmoPooler
  import C = Clock

  // ---------- What counts as a withdrawal's own exit ----------

  /** The pooler redeems LP tokens: it sends an exit request. */
  ghost predicate AsksExit(s: System, i: Input) {
    && i.ToPooler? && TryStep(s, i).Some? && P.Handle(s.pooler, i.p).Ok?
    && exists x :: P.Note(P.ExitPool(x)) in P.Handle(s.pooler, i.p).value.effects
  }

  /** Without LP tokens, the pooler falls back to the party denominations it holds. */
  predicate FallsBack(s: System, i: Input) {
    && i.ToPooler? && i.p.TickMsg?
    && s.pooler.phase.PendingWithdrawal? && Step(s, i).pooler.phase.Distributing?
  }

  ghost predicate Redeems(s: System, i: Input) {
    AsksExit(s, i) || FallsBack(s, i)
  }

  /** Some transaction of the run redeems. */
  ghost predicate RedeemsIn(s: System, ins: seq<Input>)
    decreases |ins|
  {
    ins != [] && (Redeems(s, ins[0]) || RedeemsIn(Step(s, ins[0]), ins[1..]))
  }

  ghost predicate ExitInFlight(s: System) {
    exists x :: P.ExitPool(x) in s.sent
  }

  /** The run up to here, and then the transaction that settles the lock held at s. */
  ghost predicate Settles(s: System, ins: seq<Input>, i: Input) {
    && LegitimateRun(s, ins) && Legitimate(Run(s, ins), i)
    && Commits(Run(s, ins), i)
    && Run(s, ins).holder.lock == s.holder.lock
  }

  /** However the lock held at s is settled, the pooler has redeemed for it since. */
  ghost predicate HasOwnExit(s: System) {
    forall ins, i :: Settles(s, ins, i) ==> RedeemsIn(s, ins)
  }

  // ---------- Without an exit in flight ----------

  /** Nothing that is in flight can move the pooler to a distribution. */
  ghost predicate Unanswerable(s: System) {
    !ExitInFlight(s) && !s.pooler.phase.Distributing?
  }

  lemma QuietStaysUnanswerable(s: System, m: P.Message)
    requires Unanswerable(s) && Legitimate(s, ToPooler(m, true))
    requires P.Handle(s.pooler, m).Ok? && !Reports(P.Handle(s.pooler, m).value)
    requires !Redeems(s, ToPooler(m, true))
    ensures PoolerStep(s, m).Some? && Unanswerable(PoolerStep(s, m).value)
  {
    QuietPoolerStep(s, m);
    var t := PoolerStep(s, m).value;
    if m.CallbackMsg? && m.sender == s.pooler.settings.note && m.id == P.WITHDRAW_LIQUIDITY_CALLBACK_ID {
      var r :| r in s.sent && r.CallbackId() == Some(m.id);
      assert r.ExitPool? && !ExitInFlight(s);
    }
  }

  /** Only redeeming leads on from there. */
  lemma StepStaysUnanswerable(s: System, i: Input)
    requires Unanswerable(s) && Legitimate(s, i) && !Redeems(s, i)
    ensures Unanswerable(Step(s, i))
  {
    if TryStep(s, i).Some? {
      match i
      case ToHolder(m, _) => OtherHolderStep(s, m);
      case ToPooler(m, _) =>
        if Reports(P.Handle(s.pooler, m).value) {
          ReportingPoolerStep(s, m);
        } else {
          assert TryStep(s, i) == TryStep(s, ToPooler(m, true));
          QuietStaysUnanswerable(s, m);
        }
      case ToClock(_) =>
    }
  }

  lemma {:induction false} RunStaysUnanswerable(s: System, ins: seq<Input>)
    requires Unanswerable(s) && LegitimateRun(s, ins) && !RedeemsIn(s, ins)
    ensures Unanswerable(Run(s, ins))
    decreases |ins|
  {
    if ins != [] {
      StepStaysUnanswerable(s, ins[0]);
      RunStaysUnanswerable(Step(s, ins[0]), ins[1..]);
    }
  }

  // ---------- With an exit in flight ----------

  /** One late answer to any exit, however old, naming any coins. */
  function LateAnswer(s: System, coins: seq<Coin>): Input {
    ToPooler(P.CallbackMsg(s.pooler.settings.note, P.WITHDRAW_LIQUIDITY_CALLBACK_ID,
                           P.ExecuteOk([P.Refunded(coins)]), None), true)
  }

  lemma LateAnswerDistributes(s: System, x: nat, coins: seq<Coin>)
    requires s.pooler.phase.PendingWithdrawal? && P.ExitPool(x) in s.sent
    ensures Legitimate(s, LateAnswer(s, coins)) && !Redeems(s, LateAnswer(s, coins))
    ensures Step(s, LateAnswer(s, coins)) == s.(pooler := s.pooler.(phase := P.Distributing(coins)))
  {
    assert P.ExitPool(x).CallbackId() == Some(P.WITHDRAW_LIQUIDITY_CALLBACK_ID);
    var m := LateAnswer(s, coins).p;
    assert [P.Refunded(coins)][|[P.Refunded(coins)]| - 1] == P.Refunded(coins);
    assert P.Handle(s.pooler, m) == Ok(P.Done(s.pooler.(phase := P.Distributing(coins)), []));
  }

  /**
   The failing run, for any coins the answer may name: one late answer and one tick of a running
   clock, which finds these coins home, settle the lock, while the pooler has redeemed nothing
   for it.
   */
  lemma ForeignAnswerSettles(init: System, s: System, x: nat, coins: seq<Coin>)
    returns (ins: seq<Input>, i: Input)
    requires HR.Fresh(init.holder) && Inv(init, s)
    requires s.pooler.phase.PendingWithdrawal? && P.ExitPool(x) in s.sent && CanSettle(s.holder)
    ensures Settles(s, ins, i) && !RedeemsIn(s, ins)
    ensures i == ToPooler(ArrivalTick(s.pooler.(phase := P.Distributing(coins))), true)
    ensures var u := Run(s, ins + [i]);
            && u.sent == s.sent
            && HR.Live(u.holder) < HR.Live(s.holder)
            && !Claimed(u.holder)
  {
    var j, k := LateAnswer(s, coins), ToClock(C.Unpause);
    LateAnswerDistributes(s, x, coins);
    var s1 := Step(s, j);
    StepKeepsInv(init, s, j);
    ArrivalSettles(init, s1);
    i := ToPooler(ArrivalTick(s1.pooler), true);
    ins := [j] + [k];
    assert [] + [j] == [j];
    RunAppend(s, [], j);
    RunAppend(s, [j], k);
    RunAppend(s, ins, i);
    assert ins[1..] == [k] && [k][1..] == [];
    assert !RedeemsIn(Step(s1, k), []);
    assert !RedeemsIn(s1, [k]);
  }

  // ---------- What a settlement carries ----------

  /** The coins the pooler sends along with a distribution. */
  function Carried(s: System, i: Input): seq<Coin>
    requires Commits(s, i)
  {
    P.Handle(s.pooler, i.p).value.effects[0].funds
  }

  /** A committed distribution carries at least what the answer named of each party denomination. */
  lemma CommitCarries(s: System, i: Input)
    requires Commits(s, i)
    ensures s.pooler.phase.Distributing? && |Carried(s, i)| == 2
    ensures var (coins, c) := (s.pooler.phase.coins, s.pooler.settings);
            && Carried(s, i)[0].denom == c.local1 && Carried(s, i)[1].denom == c.local2
            && Carried(s, i)[0].amount >= P.Withdrawn(coins, c.coin1.denom)
            && Carried(s, i)[1].amount >= P.Withdrawn(coins, c.coin2.denom)
  {
  }

  ghost predicate CommitsEmptyHanded(s: System, i: Input) {
    Legitimate(s, i) && Commits(s, i) && forall c :: c in Carried(s, i) ==> c.amount == 0
  }

  /**
   A settlement can carry nothing exactly when it can be settled, by a running clock where it is
   the last one, and the answer names no positive amount of either party denomination.
   */
  lemma EmptyHandedIff(init: System, s: System)
    requires HR.Fresh(init.holder) && Inv(init, s) && s.pooler.phase.Distributing?
    ensures (exists i :: CommitsEmptyHanded(s, i)) <==>
            && CanSettle(s.holder) && (LastExit(s.holder) ==> !s.clock.paused)
            && P.Withdrawn(s.pooler.phase.coins, s.pooler.settings.coin1.denom) == 0
            && P.Withdrawn(s.pooler.phase.coins, s.pooler.settings.coin2.denom) == 0
  {
    var tick := ToPooler(ArrivalTick(s.pooler), true);
    ArrivalCompletesIff(init, s, tick.p);
    if i :| CommitsEmptyHanded(s, i) {
      CommitCarries(s, i);
      CommitSettles(init, s, i);
      CommitFindsArrival(s, i);
      ArrivalCompletesIff(init, s, i.p);
    }
    if CanSettle(s.holder) && (LastExit(s.holder) ==> !s.clock.paused)
       && P.Withdrawn(s.pooler.phase.coins, s.pooler.settings.coin1.denom) == 0
       && P.Withdrawn(s.pooler.phase.coins, s.pooler.settings.coin2.denom) == 0 {
      assert Commits(s, tick);
      assert CommitsEmptyHanded(s, tick);
    }
  }

  /**
   An exit that failed, its LP tokens handed back, settles the withdrawal as if it had been paid:
   the holder receives nothing and the claimer's position is gone.
   */
  lemma FailedExitSettlesForNothing(init: System, s: System, x: nat, y: nat)
    returns (ins: seq<Input>, i: Input)
    requires HR.Fresh(init.holder) && Inv(init, s)
    requires s.pooler.phase.PendingWithdrawal? && P.ExitPool(x) in s.sent && CanSettle(s.holder)
    requires s.pooler.settings.lpDenom != s.pooler.settings.coin1.denom
    requires s.pooler.settings.lpDenom != s.pooler.settings.coin2.denom
    ensures Settles(s, ins, i)
    ensures var c := s.pooler.settings;
            Carried(Run(s, ins), i) == [Coin(c.local1, 0), Coin(c.local2, 0)]
    ensures HR.Live(Run(s, ins + [i]).holder) < HR.Live(s.holder)
  {
    var coins := [Coin(s.pooler.settings.lpDenom, y)];
    assert coins[1..] == [];
    assert P.Withdrawn(coins, s.pooler.settings.coin1.denom) == P.Withdrawn([], s.pooler.settings.coin1.denom);
    assert P.Withdrawn(coins, s.pooler.settings.coin2.denom) == P.Withdrawn([], s.pooler.settings.coin2.denom);
    ins, i := ForeignAnswerSettles(init, s, x, coins);
    var t := Run(s, ins);
    CommitCarries(t, i);
    RunKeepsInv(init, s, ins);
    assert t.pooler.settings == s.pooler.settings;
  }

  // ---------- When nothing can be settled ----------

  lemma {:induction false} LiveOverRuns(init: System, s: System, ins: seq<Input>)
    requires HR.Fresh(init.holder) && Inv(init, s) && LegitimateRun(s, ins)
    ensures HR.Live(Run(s, ins).holder) <= HR.Live(s.holder)
    decreases |ins|
  {
    if ins != [] {
      StepKeepsInv(init, s, ins[0]);
      LiveOverRuns(init, Step(s, ins[0]), ins[1..]);
    }
  }

  lemma CommitFindsArrival(s: System, i: Input)
    requires Commits(s, i)
    ensures Arrived(s.pooler, i.p) && PoolerStep(s, i.p).Some?
  {
  }

  /** A lock that cannot be settled now is never settled while it is held. */
  lemma OnlySettleable(init: System, s: System, ins: seq<Input>, i: Input)
    requires HR.Fresh(init.holder) && Inv(init, s) && s.holder.lock.Some?
    requires Settles(s, ins, i)
    ensures CanSettle(s.holder)
  {
    var t := Run(s, ins);
    RunKeepsInv(init, s, ins);
    LiveOverRuns(init, s, ins);
    CommitSettles(init, t, i);
    CommitFindsArrival(t, i);
    ArrivalCompletesIff(init, t, i.p);
  }

  // ---------- The exact condition ----------

  /**
   Every settlement of a withdrawal is preceded, since its lock was taken, by an exit of its own
   or the fallback to the party denominations, exactly when no exit was in flight at that point
   (or the lock cannot be settled at all).
   */
  lemma OwnExitIff(init: System, s: System)
    requires HR.Fresh(init.holder) && Inv(init, s)
    requires s.holder.lock.Some? && s.pooler.phase.PendingWithdrawal?
    ensures HasOwnExit(s) <==> !ExitInFlight(s) || !CanSettle(s.holder)
  {
    if !ExitInFlight(s) || !CanSettle(s.holder) {
      forall ins, i | Settles(s, ins, i) ensures RedeemsIn(s, ins) {
        OnlySettleable(init, s, ins, i);
        if !RedeemsIn(s, ins) {
          RunStaysUnanswerable(s, ins);
          CommitFindsArrival(Run(s, ins), i);
        }
      }
    } else {
      var x :| P.ExitPool(x) in s.sent;
      var ins, i := ForeignAnswerSettles(init, s, x, []);
      assert Settles(s, ins, i) && !RedeemsIn(s, ins);
    }
  }

  /** Requests stay in flight. */
  lemma SentGrows(s: System, i: Input)
    requires Legitimate(s, i)
    ensures s.sent <= Step(s, i).sent
  {
    if TryStep(s, i).Some? {
      match i
      case ToHolder(m, _) => OtherHolderStep(s, m);
      case ToPooler(m, _) =>
        var d := P.Handle(s.pooler, m).value;
        if Reports(d) {
          ReportingPoolerStep(s, m);
          if d.effects[0].HolderDistribute? {
            DistributeStep(s.(pooler := d.state), d.effects[0].funds);
          }
        } else {
          QuietPoolerStep(s, m);
        }
      case ToClock(_) =>
    }
  }

  /**
   After the first exit request of a covenant no later withdrawal that can be settled is sure of
   an exit of its own.
   */
  lemma {:induction false} NoLaterOwnExit(init: System, s: System, ins: seq<Input>)
    requires HR.Fresh(init.holder) && Inv(init, s) && LegitimateRun(s, ins) && ExitInFlight(s)
    ensures var t := Run(s, ins);
            && ExitInFlight(t)
            && (t.pooler.phase.PendingWithdrawal? && CanSettle(t.holder) ==> !HasOwnExit(t))
    decreases |ins|
  {
    if ins == [] {
      if s.pooler.phase.PendingWithdrawal? && CanSettle(s.holder) {
        OwnExitIff(init, s);
      }
    } else {
      StepKeepsInv(init, s, ins[0]);
      SentGrows(s, ins[0]);
      var x :| P.ExitPool(x) in s.sent;
      assert P.ExitPool(x) in Step(s, ins[0]).sent;
      NoLaterOwnExit(init, Step(s, ins[0]), ins[1..]);
    }
  }

  // ---------- A run from instantiation ----------

  /** A freshly wired share covenant of two halves. */
  function SampleSystem(hostA: Addr, hostB: Addr, d1: Denom, d2: Denom, lp: Denom): System {
    var holder := H.Instantiate(HR.Sample(hostA, hostB, 0)).value;
    var settings := P.Settings(Coin(d1, 1), Coin(d2, 1), "a", "b", lp, "clock", "holder", "note");
    System(holder, P.State(P.Instantiated, None, map[], settings),
           C.State(["holder", "pooler"], 2, false, ["holder", "pooler"]), multiset{}, "holder")
  }

  function PoolerTick(): Input {
    ToPooler(P.TickMsg("clock", false, 0, 0, false), true)
  }

  function HolderTick(): Input {
    ToHolder(H.TickMsg("clock", false, true, 1, 1), true)
  }

  function Note(id: nat, result: P.Callback): Input {
    ToPooler(P.CallbackMsg("note", id, result, Some(Some("proxy"))), true)
  }

  /** What the run has made of the system, phase by phase. */
  function Sampled(s: System, h: H.State, phase: P.Phase, proxy: Option<Addr>, balances: map<Denom, nat>,
                   sent: multiset<P.Request>): System
  {
    s.(holder := h, pooler := P.State(phase, proxy, balances, s.pooler.settings), sent := sent)
  }

  ghost predicate Reaches(s: System, ins: seq<Input>, t: System) {
    LegitimateRun(s, ins) && Run(s, ins) == t
  }

  lemma ReachesNext(s: System, ins: seq<Input>, t: System, i: Input)
    requires Reaches(s, ins, t) && Legitimate(t, i)
    ensures Reaches(s, ins + [i], Step(t, i))
  {
    RunAppend(s, ins, i);
  }

  /** The proxy is created, the deposits arrive and the lockup expires. */
  lemma ToExpiry(hostA: Addr, hostB: Addr, d1: Denom, d2: Denom, lp: Denom) returns (ins: seq<Input>, t: System)
    ensures var s := SampleSystem(hostA, hostB, d1, d2, lp);
            && Initial(s) && Reaches(s, ins, t)
            && t == Sampled(s, s.holder.(phase := H.Expired), P.ProxyCreated, Some("proxy"), map[],
                            multiset{P.CreateProxy})
  {
    var s := SampleSystem(hostA, hostB, d1, d2, lp);
    HR.InstantiateIsFresh(HR.Sample(hostA, hostB, 0));
    assert "holder"[0] != "pooler"[0];
    ins, t := [], s;
    OnePoolerEffect(t, P.Note(P.CreateProxy));
    ReachesNext(s, ins, t, PoolerTick());
    ins, t := ins + [PoolerTick()], Step(t, PoolerTick());
    assert t == s.(sent := multiset{P.CreateProxy});
    var created := Note(P.CREATE_PROXY_CALLBACK_ID, P.ExecuteOk([]));
    assert P.Request.CreateProxy.CallbackId() == Some(P.CREATE_PROXY_CALLBACK_ID);
    ReachesNext(s, ins, t, created);
    ins, t := ins + [created], Step(t, created);
    assert t == Sampled(s, s.holder, P.ProxyCreated, Some("proxy"), map[], multiset{P.CreateProxy});
    assert H.Handle(t.holder, HolderTick().h).Ok?;
    var deposit := H.Handle(t.holder, HolderTick().h).value;
    OneHolderEffect(t.(holder := deposit.state), deposit.effects[0]);
    ReachesNext(s, ins, t, HolderTick());
    ins, t := ins + [HolderTick()], Step(t, HolderTick());
    assert t == Sampled(s, s.holder.(phase := H.Active), P.ProxyCreated, Some("proxy"), map[], multiset{P.CreateProxy});
    ReachesNext(s, ins, t, HolderTick());
    ins, t := ins + [HolderTick()], Step(t, HolderTick());
  }

  /** The holder while the first party's claim is pending. */
  function FirstClaim(s: System, hostA: Addr): H.State {
    s.holder.(phase := H.Expired, lock := Some(H.Processing(hostA)))
  }

  function Requests(x: nat): multiset<P.Request> {
    multiset{P.CreateProxy} + multiset{P.QueryBalances} + multiset{P.ExitPool(x)}
  }

  /** The first party claims; the pooler asks for its balances and then for the exit of one LP token of two. */
  lemma ToFirstExit(hostA: Addr, hostB: Addr, d1: Denom, d2: Denom, lp: Denom) returns (ins: seq<Input>, t: System)
    requires d1 != d2 && d1 != lp && d2 != lp && hostA != "pooler"
    ensures var s := SampleSystem(hostA, hostB, d1, d2, lp);
            && Initial(s) && Reaches(s, ins, t)
            && t == Sampled(s, FirstClaim(s, hostA), P.PendingWithdrawal(ONE / 2), Some("proxy"),
                            map[d1 := 0, d2 := 0, lp := 2], Requests(1))
  {
    var s := SampleSystem(hostA, hostB, d1, d2, lp);
    ins, t := ToExpiry(hostA, hostB, d1, d2, lp);
    var claim := ToHolder(H.ClaimMsg(hostA), true);
    var h := H.Handle(t.holder, claim.h).value;
    assert h.effects == [H.WithdrawLp(Some(ONE / 2))];
    OneHolderEffect(t.(holder := h.state), h.effects[0]);
    ReachesNext(s, ins, t, claim);
    ins, t := ins + [claim], Step(t, claim);
    assert t == Sampled(s, FirstClaim(s, hostA), P.PendingWithdrawal(ONE / 2), Some("proxy"), map[],
                        multiset{P.CreateProxy});
    OnePoolerEffect(t, P.Note(P.QueryBalances));
    ReachesNext(s, ins, t, PoolerTick());
    ins, t := ins + [PoolerTick()], Step(t, PoolerTick());
    ins, t := BalancesArrive(s, ins, t, hostA, d1, d2, lp);
    RatioInRange(2, ONE / 2, ONE);
    FloorUnique(2 * (ONE / 2), ONE, 1);
    ExitingTick(t, PoolerTick().p, 1);
    ReachesNext(s, ins, t, PoolerTick());
    ins, t := ins + [PoolerTick()], Step(t, PoolerTick());
  }

  lemma BalancesArrive(s: System, ins: seq<Input>, t: System, hostA: Addr, d1: Denom, d2: Denom, lp: Denom)
    returns (ins': seq<Input>, t': System)
    requires d1 != d2 && d1 != lp && d2 != lp
    requires s.pooler.settings.note == "note" && Reaches(s, ins, t)
    requires t == Sampled(s, FirstClaim(s, hostA), P.PendingWithdrawal(ONE / 2), Some("proxy"), map[],
                          multiset{P.CreateProxy} + multiset{P.QueryBalances})
    ensures Reaches(s, ins', t')
    ensures t' == Sampled(s, FirstClaim(s, hostA), P.PendingWithdrawal(ONE / 2), Some("proxy"),
                          map[d1 := 0, d2 := 0, lp := 2], t.sent)
  {
    var rs := [P.Reported(d1, 0), P.Reported(d2, 0), P.Reported(lp, 2)];
    var b := map[d1 := 0, d2 := 0, lp := 2];
    assert rs[1..] == [rs[1], rs[2]] && rs[1..][1..] == [rs[2]] && rs[1..][1..][1..] == [];
    assert P.Absorb(map[d1 := 0, d2 := 0], rs[1..][1..]) == P.Absorb(b, []);
    assert P.Absorb(map[d1 := 0], rs[1..]) == P.Absorb(map[d1 := 0, d2 := 0], rs[1..][1..]);
    assert P.Absorb(map[], rs) == P.Absorb(map[d1 := 0], rs[1..]) == Some(b);
    var answer := Note(P.PROXY_BALANCES_QUERY_CALLBACK_ID, P.QueryOk(rs));
    assert P.Request.QueryBalances.CallbackId() == Some(P.PROXY_BALANCES_QUERY_CALLBACK_ID);
    ReachesNext(s, ins, t, answer);
    ins', t' := ins + [answer], Step(t, answer);
  }

  lemma FirstSettled(s: System, ins: seq<Input>, t: System, hostA: Addr) returns (ins': seq<Input>, t': System)
    requires Initial(s) && Reaches(s, ins, t)
    requires s.pooler.settings.clock == "clock" && s.holder.config.a.host == hostA
    requires s.holder.config.kind.Share? && s.holder.config.a.allocation == s.holder.config.b.allocation == ONE / 2
    requires t.holder == FirstClaim(s, hostA) && t.pooler.phase == P.Distributing([])
    requires t.pooler.settings == s.pooler.settings
    ensures Reaches(s, ins', t') && t'.sent == t.sent && t'.holderAddr == t.holderAddr
    ensures t'.pooler.phase == P.Active && t'.pooler.settings == t.pooler.settings
    ensures t'.holder.phase == H.Expired && t'.holder.lock == None && HR.Live(t'.holder) == 1
    ensures H.AuthorizeSender(t'.holder.config, s.holder.config.b.host).Ok? || s.holder.config.b.host == hostA
    ensures t'.holder.config.kind.Share?
  {
    InitialInv(s);
    RunKeepsInv(s, s, ins);
    var m := PoolerTick().p;
    var d := P.Handle(t.pooler, m).value;
    ReportingPoolerStep(t, m);
    DistributeStep(t.(pooler := d.state), d.effects[0].funds);
    var funds := d.effects[0].funds;
    var party, counterparty, _ := HR.DistributeSettles(t.holder, t.holder.pooler, funds);
    HR.StoredBack(t.holder.config, party, counterparty, 0, ONE);
    ReachesNext(s, ins, t, PoolerTick());
    ins', t' := ins + [PoolerTick()], Step(t, PoolerTick());
  }

  /** The exit is answered and the first claim settled; its request stays in flight. */
  lemma ToFirstSettled(hostA: Addr, hostB: Addr, d1: Denom, d2: Denom, lp: Denom)
    returns (ins: seq<Input>, t: System)
    requires d1 != d2 && d1 != lp && d2 != lp && hostA != "pooler" && hostA != hostB
    ensures var s := SampleSystem(hostA, hostB, d1, d2, lp);
            && Initial(s) && Reaches(s, ins, t) && Inv(s, t)
            && P.ExitPool(1) in t.sent
            && t.holder.phase == H.Expired && t.holder.lock == None
            && t.holder.config.kind.Share? && HR.Live(t.holder) == 1
            && H.AuthorizeSender(t.holder.config, hostB).Ok?
  {
    var s := SampleSystem(hostA, hostB, d1, d2, lp);
    ins, t := ToFirstExit(hostA, hostB, d1, d2, lp);
    InitialInv(s);
    RunKeepsInv(s, s, ins);
    var answer := LateAnswer(t, []);
    assert P.ExitPool(1) in t.sent;
    LateAnswerDistributes(t, 1, []);
    ReachesNext(s, ins, t, answer);
    ins, t := ins + [answer], Step(t, answer);
    ins, t := FirstSettled(s, ins, t, hostA);
    RunKeepsInv(s, s, ins);
  }

  /**
   A run from instantiation in which the second party's claim is not sure of an exit of its own:
   the first claim is settled, the second one takes the lock, and the exit of the first is still
   in flight to be answered again.
   */
  lemma SecondClaimHasNoOwnExit(hostA: Addr, hostB: Addr, d1: Denom, d2: Denom, lp: Denom)
    returns (ins: seq<Input>, t: System)
    requires d1 != d2 && d1 != lp && d2 != lp
    requires hostA != "pooler" && hostB != "pooler" && hostA != hostB
    ensures var s := SampleSystem(hostA, hostB, d1, d2, lp);
            && Initial(s) && Reaches(s, ins, t)
            && t.holder.lock == Some(H.Processing(hostB))
            && HR.Live(t.holder) == 1
            && !HasOwnExit(t)
  {
    var s := SampleSystem(hostA, hostB, d1, d2, lp);
    ins, t := ToFirstSettled(hostA, hostB, d1, d2, lp);
    var i := ToHolder(H.ClaimMsg(hostB), true);
    ReachesNext(s, ins, t, i);
    ClaimTakesLock(s, t, hostB);
    StepKeepsInv(s, t, i);
    ins, t := ins + [i], Step(t, i);
    OwnExitIff(s, t);
  }

  lemma ClaimTakesLock(s: System, t: System, host: Addr)
    requires HR.Fresh(s.holder) && Inv(s, t) && t.holder.lock == None
    requires t.holder.config.kind.Share? && t.holder.phase == H.Expired
    requires H.AuthorizeSender(t.holder.config, host).Ok?
    ensures var u := Step(t, ToHolder(H.ClaimMsg(host), true));
            && u.sent == t.sent && u.pooler.phase.PendingWithdrawal?
            && u.holder == t.holder.(lock := Some(H.Processing(host)))
  {
    var h := H.Handle(t.holder, H.ClaimMsg(host)).value;
    OneHolderEffect(t.(holder := h.state), h.effects[0]);
    assert h.effects == [h.effects[0]];
  }
}
