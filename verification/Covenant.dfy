/**
 The two-party covenant with the Osmosis pooler as one system: holder, pooler and clock, and
 the requests sent through polytone. One transaction is one step, messages between the three
 contracts included; callbacks may arrive late, repeatedly, or never.
 */
module Covenant {
  import opened Base
  import H = Holder
  import HR = HolderRuns
  import P = OsmoPooler
  import C = Clock
  import CR = ClockRuns

  /** `sent` keeps every request ever sent: each of them may still be answered, any number of times. */
  datatype System = System(
    holder: H.State,
    pooler: P.State,
    clock: C.State,
    sent: multiset<P.Request>,
    holderAddr: Addr)

  /**
   What the outside world does. `accepted` says whether the contracts outside this model (bank,
   note, Neutron's transfer module) accept what the transaction asks of them.
   */
  datatype Input =
    | ToHolder(h: H.Message, accepted: bool)
    | ToPooler(p: P.Message, accepted: bool)
    | ToClock(e: C.Event)

  // ---------- One transaction ----------

  /** Executes the submessages of the holder; None aborts the transaction. */
  function ApplyHolderEffects(s: System, es: seq<H.Effect>): Option<System>
    decreases |es|
  {
    if es == [] then Some(s)
    else
      match es[0]
      case WithdrawLp(fraction) =>
        var r := P.Handle(s.pooler, P.WithdrawMsg(s.holderAddr, fraction));
        if r.Err? then None else ApplyHolderEffects(s.(pooler := r.value.state), es[1..])
      case LeaveClock =>
        var r := C.Handle(s.clock, C.Dequeue(s.holderAddr));
        if r.None? then None else ApplyHolderEffects(s.(clock := r.value.state), es[1..])
      case Pay(_) => ApplyHolderEffects(s, es[1..])
      case DepositToPooler(_) => ApplyHolderEffects(s, es[1..])
  }

  function HolderStep(s: System, m: H.Message): Option<System> {
    var r := H.Handle(s.holder, m);
    if r.Err? then None else ApplyHolderEffects(s.(holder := r.value.state), r.value.effects)
  }

  /** Executes the submessages of the pooler; requests to the note are in flight from now on. */
  function ApplyPoolerEffects(s: System, es: seq<P.Effect>): Option<System>
    decreases |es|
  {
    if es == [] then Some(s)
    else
      match es[0]
      case Note(r) => ApplyPoolerEffects(s.(sent := s.sent + multiset{r}), es[1..])
      case FundProxy(_, _) => ApplyPoolerEffects(s, es[1..])
      case HolderDistribute(funds) =>
        var t := HolderStep(s, H.DistributeMsg(s.holder.pooler, funds));
        if t.None? then None else ApplyPoolerEffects(t.value, es[1..])
      case HolderWithdrawFailed =>
        var t := HolderStep(s, H.WithdrawFailedMsg(s.holder.pooler));
        if t.None? then None else ApplyPoolerEffects(t.value, es[1..])
  }

  function PoolerStep(s: System, m: P.Message): Option<System> {
    var r := P.Handle(s.pooler, m);
    if r.Err? then None else ApplyPoolerEffects(s.(pooler := r.value.state), r.value.effects)
  }

  function TryStep(s: System, i: Input): Option<System> {
    match i
    case ToHolder(m, accepted) => if accepted then HolderStep(s, m) else None
    case ToPooler(m, accepted) => if accepted then PoolerStep(s, m) else None
    case ToClock(e) =>
      var r := C.Handle(s.clock, e);
      if r.None? then None else Some(s.(clock := r.value.state))
  }

  /** A transaction that aborts changes nothing. */
  function Step(s: System, i: Input): System {
    match TryStep(s, i) case None => s case Some(t) => t
  }

  function Run(s: System, ins: seq<Input>): System
    decreases |ins|
  {
    if ins == [] then s else Run(Step(s, ins[0]), ins[1..])
  }

  // ---------- What the outside world can do ----------

  ghost predicate Answerable(s: System, id: nat) {
    exists r :: r in s.sent && r.CallbackId() == Some(id)
  }

  /**
   Nobody forges the contracts' own messages; the note answers only requests that were sent;
   and the holder's place in the clock is left to the holder.
   */
  ghost predicate Legitimate(s: System, i: Input) {
    match i
    case ToHolder(m, _) => m.sender != s.holder.pooler
    case ToPooler(m, _) =>
      && (m.WithdrawMsg? ==> m.sender != s.holderAddr)
      && (m.CallbackMsg? && m.sender == s.pooler.settings.note ==> Answerable(s, m.id))
    case ToClock(e) => !CR.Mentions(e, s.holderAddr)
  }

  ghost predicate LegitimateRun(s: System, ins: seq<Input>)
    decreases |ins|
  {
    ins != [] ==> Legitimate(s, ins[0]) && LegitimateRun(Step(s, ins[0]), ins[1..])
  }

  // ---------- The joint invariant ----------

  predicate Pending(p: P.State) {
    p.phase.PendingWithdrawal? || p.phase.Distributing?
  }

  predicate Claimed(h: H.State) {
    h.lock.Some? && !h.lock.value.Emergency?
  }

  ghost predicate NeedsProxy(s: System) {
    || s.pooler.balances != map[]
    || (exists r :: r in s.sent && !r.CreateProxy?)
    || s.pooler.phase.ProxyCreated?
    || s.pooler.phase.ProxyFunded?
    || s.pooler.phase.Active?
    || s.pooler.phase.Distributing?
  }

  ghost predicate Inv(init: System, s: System) {
    && HR.Inv(init.holder, s.holder)
    && s.holderAddr == init.holderAddr
    && s.pooler.settings == init.pooler.settings
    && s.pooler.settings.holder == s.holderAddr
    && (s.holder.lock.Some? && HR.Live(s.holder) > 0 ==> Pending(s.pooler))
    && (NeedsProxy(s) ==> s.pooler.proxy.Some?)
    && (s.holderAddr in s.clock.queue <==> HR.Live(s.holder) > 0)
  }

  /** The system right after its contracts are instantiated, wired and enqueued. */
  ghost predicate Initial(s: System) {
    && HR.Fresh(s.holder)
    && s.pooler.phase.Instantiated? && s.pooler.proxy == None && s.pooler.balances == map[]
    && s.pooler.settings.holder == s.holderAddr
    && s.sent == multiset{}
    && s.holderAddr in s.clock.queue && NoDuplicates(s.clock.queue)
  }

  lemma InitialInv(s: System)
    requires Initial(s)
    ensures Inv(s, s)
  {
    HR.FreshInv(s.holder);
  }

  // ---------- The shape of a holder transaction ----------

  lemma {:induction false} PaymentsDoNothing(s: System, sends: seq<Send>, tail: seq<H.Effect>)
    ensures ApplyHolderEffects(s, H.Payments(sends) + tail) == ApplyHolderEffects(s, tail)
    decreases |sends|
  {
    if sends == [] {
      assert H.Payments(sends) + tail == tail;
    } else {
      var es := H.Payments(sends) + tail;
      assert es[0] == H.Pay(sends[0]);
      assert es[1..] == H.Payments(sends[1..]) + tail;
      PaymentsDoNothing(s, sends[1..], tail);
    }
  }

  lemma OneHolderEffect(s: System, e: H.Effect)
    ensures e.WithdrawLp? ==>
              var r := P.Handle(s.pooler, P.WithdrawMsg(s.holderAddr, e.fraction));
              ApplyHolderEffects(s, [e]) == if r.Ok? then Some(s.(pooler := r.value.state)) else None
    ensures e.LeaveClock? ==>
              var r := C.Handle(s.clock, C.Dequeue(s.holderAddr));
              ApplyHolderEffects(s, [e]) == if r.Some? then Some(s.(clock := r.value.state)) else None
    ensures e.Pay? || e.DepositToPooler? ==> ApplyHolderEffects(s, [e]) == Some(s)
  {
    assert [e][1..] == [];
    assert forall t: System :: ApplyHolderEffects(t, []) == Some(t);
  }

  /** A distribution ends the holder's place in the clock exactly when nobody is left to pay. */
  lemma DistributeStep(s: System, funds: seq<Coin>)
    ensures var m := H.DistributeMsg(s.holder.pooler, funds);
            var t := HolderStep(s, m);
            && (t.Some? ==>
                  && H.Handle(s.holder, m).Ok?
                  && t.value.holder == HR.After(s.holder, m)
                  && t.value.pooler == s.pooler && t.value.sent == s.sent && t.value.holderAddr == s.holderAddr
                  && (if HR.Live(t.value.holder) == 0
                      then && C.Handle(s.clock, C.Dequeue(s.holderAddr)).Some?
                           && t.value.clock == CR.After(s.clock, C.Dequeue(s.holderAddr))
                      else t.value.clock == s.clock))
            && (t.None? && H.Handle(s.holder, m).Ok? ==>
                  && HR.Live(HR.After(s.holder, m)) == 0
                  && C.Handle(s.clock, C.Dequeue(s.holderAddr)).None?)
  {
    var m := H.DistributeMsg(s.holder.pooler, funds);
    if H.Handle(s.holder, m).Ok? {
      var d := H.Handle(s.holder, m).value;
      var party, counterparty, sends := HR.DistributeSettles(s.holder, m.sender, funds);
      HR.StoredBack(s.holder.config, party, counterparty, 0, HR.Inherited(s.holder, counterparty));
      var s1 := s.(holder := d.state);
      PaymentsDoNothing(s1, sends, [H.LeaveClock]);
      PaymentsDoNothing(s1, sends, []);
      assert H.Payments(sends) + [] == H.Payments(sends);
      OneHolderEffect(s1, H.LeaveClock);
    }
  }

  lemma OtherHolderStep(s: System, m: H.Message)
    requires !m.DistributeMsg?
    ensures HolderStep(s, m).Some? ==>
              var t := HolderStep(s, m).value;
              && t.holder == HR.After(s.holder, m)
              && t.sent == s.sent && t.holderAddr == s.holderAddr && t.clock == s.clock
              && (t.pooler == s.pooler
                  || exists f :: P.Handle(s.pooler, P.WithdrawMsg(s.holderAddr, f)) == Ok(P.Done(t.pooler, [])))
              && (m.ClaimMsg? || m.RagequitMsg? || m.EmergencyMsg? ==>
                    s.holder.lock == None && t.pooler.phase.PendingWithdrawal?)
  {
    if H.Handle(s.holder, m).Ok? {
      var d := H.Handle(s.holder, m).value;
      var s1 := s.(holder := d.state);
      match m
      case TickMsg(_, _, _, _, _) =>
        if d.effects != [] {
          var sends := TickSends(s.holder, m);
          if s.holder.phase.Complete? {
            assert H.Payments(sends) + [] == H.Payments(sends);
            PaymentsDoNothing(s1, sends, []);
          } else {
            OneHolderEffect(s1, d.effects[0]);
          }
        }
      case ClaimMsg(_) => OneHolderEffect(s1, d.effects[0]);
      case RagequitMsg(_, _) => OneHolderEffect(s1, d.effects[0]);
      case EmergencyMsg(_) => OneHolderEffect(s1, d.effects[0]);
      case WithdrawFailedMsg(_) =>
    }
  }

  /** A tick of a completed covenant only sends refunds. */
  lemma TickSends(h: H.State, m: H.Message) returns (sends: seq<Send>)
    requires m.TickMsg? && H.Handle(h, m).Ok?
    ensures h.phase.Complete? ==> H.Handle(h, m).value.effects == H.Payments(sends)
  {
    var (a, b) := (h.config.a, h.config.b);
    var toA := if m.balanceA == 0 then [] else [Send(a.router, Coin(a.contribution.denom, m.balanceA))];
    var toB := if m.balanceB == 0 then [] else [Send(b.router, Coin(b.contribution.denom, m.balanceB))];
    sends := toA + toB;
    assert H.Payments(toA) == H.Refund(a, m.balanceA) && H.Payments(toB) == H.Refund(b, m.balanceB) by {
      assert m.balanceA != 0 ==> toA[1..] == [];
      assert m.balanceB != 0 ==> toB[1..] == [];
    }
    assert m.balanceA == 0 ==> sends == toB;
    assert m.balanceA != 0 ==> sends[0] == toA[0] && sends[1..] == toB;
  }
}
