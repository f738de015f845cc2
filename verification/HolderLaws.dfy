/**
 The holder read from the outside: exactly when it accepts a message, what moves its phase, what
 a request asks for, what deposits and refunds carry, and what instantiation stores.
 */
module HolderLaws {
  import opened Base
  import opened Decimals
  import opened Splits
  import opened Distribution
  import opened Holder
  import opened HolderRuns
  import opened Entitlements

  // ---------- Instantiation ----------

  /** What the two routers hold together, if the split names both. */
  function Together(s: Split, a: Addr, b: Addr): Option<nat> {
    match (ShareOf(s, a), ShareOf(s, b))
    case (Some(x), Some(y)) => Some(x + y)
    case _ => None
  }

  /** Exactly when an instantiation is accepted. */
  lemma InstantiateIff(m: InstantiateMsg)
    ensures Instantiate(m).Ok? <==>
            && !m.depositDeadlinePassed && m.deadlineBeforeLockup && m.addressesValid
            && m.config.a.contribution.amount > 0 && m.config.b.contribution.amount > 0
            && m.config.a.allocation + m.config.b.allocation == ONE
            && (m.ragequit.Enabled? ==>
                  var p := m.ragequit.terms.penalty;
                  p < ONE && p <= m.config.a.allocation && p <= m.config.b.allocation)
            && (forall d :: d in m.splits ==>
                  var sum := Together(m.splits[d], m.config.a.router, m.config.b.router);
                  sum.Some? ==> sum.value <= U128_MAX)
            && (m.fallback.Some? ==> Together(m.fallback.value, m.config.a.router, m.config.b.router) == Some(ONE))
  {
    forall d | d in m.splits
      ensures SumAborts(m.splits[d], m.config.a.router, m.config.b.router) <==>
              var sum := Together(m.splits[d], m.config.a.router, m.config.b.router);
              sum.Some? && sum.value > U128_MAX
    {
    }
  }

  /** What an accepted one stores: the agreed terms, and exactly the explicit splits that validate. */
  lemma InstantiateStores(m: InstantiateMsg, d: Denom)
    requires Instantiate(m).Ok?
    ensures var s := Instantiate(m).value;
            && s.phase == Instantiated && s.lock == None
            && s.config == m.config && s.ragequit == m.ragequit && s.splits.fallback == m.fallback
            && s.clock == m.clock && s.pooler == m.pooler && s.committee == m.committee
            && (d in s.splits.explicit <==>
                  d in m.splits && Together(m.splits[d], m.config.a.router, m.config.b.router) == Some(ONE))
            && (d in s.splits.explicit ==> s.splits.explicit[d] == m.splits[d])
  {
  }

  // ---------- Who may do what, and when ----------

  /** The host stands for a party that owns a part; one host for both stands for the first party. */
  predicate Owns(c: Config, host: Addr) {
    if c.a.host == host then c.a.allocation > 0 else c.b.host == host && c.b.allocation > 0
  }

  /** Exactly when each request is accepted. */
  lemma AcceptedIff(s: State, sender: Addr, expired: bool)
    ensures Handle(s, ClaimMsg(sender)).Ok? <==>
            s.lock == None && (s.phase == Expired || s.phase == Ragequit) && Owns(s.config, sender)
    ensures Handle(s, RagequitMsg(sender, expired)).Ok? <==>
            && s.ragequit.Enabled? && s.phase == Active && s.lock == None && !expired && Owns(s.config, sender)
            && (s.config.kind.Share? ==>
                  s.ragequit.terms.penalty <= AuthorizeSender(s.config, sender).value.0.allocation)
    ensures Handle(s, EmergencyMsg(sender)).Ok? <==> s.lock == None && s.committee == Some(sender)
    ensures Handle(s, WithdrawFailedMsg(sender)).Ok? <==> sender == s.pooler
    ensures Handle(s, WithdrawFailedMsg(sender)).Ok? ==>
              Handle(s, WithdrawFailedMsg(sender)).value == Done(s.(lock := None), [])
  {
  }

  /** A tick is for the clock; the only one that fails is an early one without the deposits. */
  lemma TickAcceptedIff(s: State, m: Message)
    requires m.TickMsg?
    ensures Handle(s, m).Ok? <==>
            && m.sender == s.clock
            && (s.phase == Instantiated && !m.depositExpired ==>
                  m.balanceA >= s.config.a.contribution.amount && m.balanceB >= s.config.b.contribution.amount)
  {
  }

  /** In every run an emergency lock that was not there before was taken by the committee. */
  lemma {:induction false} EmergencyByCommittee(s: State, ms: seq<Message>)
    requires s.lock != Some(Emergency) && Run(s, ms).lock == Some(Emergency)
    ensures exists m :: m in ms && m.EmergencyMsg? && s.committee == Some(m.sender)
    decreases |ms|
  {
    if ms != [] {
      var t := After(s, ms[0]);
      assert t.committee == s.committee by {
        if Distributes(s, ms[0]) {
          var _, _, _ := DistributeSettles(s, ms[0].sender, ms[0].funds);
        }
      }
      if t.lock == Some(Emergency) {
        LockTaken(s, ms[0]);
        assert ms[0] in ms;
      } else {
        EmergencyByCommittee(t, ms[1..]);
        var m :| m in ms[1..] && m.EmergencyMsg? && t.committee == Some(m.sender);
        assert m in ms;
      }
    }
  }

  /** Which message takes which lock. */
  lemma LockTaken(s: State, m: Message)
    requires After(s, m).lock.Some? && After(s, m).lock != s.lock
    ensures s.lock == None
    ensures match After(s, m).lock.value
            case Emergency => m.EmergencyMsg? && s.committee == Some(m.sender)
            case Processing(host) => m.ClaimMsg? && host == m.sender && Owns(s.config, host)
            case ProcessingRagequit(host, terms) =>
              m.RagequitMsg? && host == m.sender && Owns(s.config, host) && s.ragequit == Enabled(terms)
  {
    if Distributes(s, m) {
      var _, _, _ := DistributeSettles(s, m.sender, m.funds);
    }
  }

  // ---------- What is asked of the pooler ----------

  /**
   What an accepted request asks for: in a share covenant the party's allocation, less the penalty
   when ragequitting; everything in a side covenant and for the committee. Nothing else asks.
   */
  lemma AskedExactly(s: State, m: Message)
    requires Handle(s, m).Ok?
    ensures Asked(s, m) ==
            match m
            case ClaimMsg(host) =>
              Some(if s.config.kind.Side? then None else Some(AuthorizeSender(s.config, host).value.0.allocation))
            case RagequitMsg(host, _) =>
              Some(if s.config.kind.Side? then None
                   else Some(AuthorizeSender(s.config, host).value.0.allocation - s.ragequit.terms.penalty))
            case EmergencyMsg(_) => Some(None)
            case _ => None
  {
    if Distributes(s, m) {
      var _, _, sends := DistributeSettles(s, m.sender, m.funds);
      NoRequestsInPayments(sends);
      var es := EffectsOf(s, m);
      assert forall e :: e in es ==> !e.WithdrawLp?;
    }
  }

  lemma {:induction false} NoRequestsInPayments(sends: seq<Send>)
    ensures forall e :: e in Payments(sends) ==> e.Pay?
  {
    if sends != [] {
      NoRequestsInPayments(sends[1..]);
    }
  }

  // ---------- Deposits and refunds ----------

  predicate Activates(s: State, m: Message) {
    && m.TickMsg? && m.sender == s.clock && s.phase == Instantiated && !m.depositExpired
    && m.balanceA >= s.config.a.contribution.amount && m.balanceB >= s.config.b.contribution.amount
  }

  /**
   The pooler receives a deposit exactly from the tick that finds both contributions in time; it
   carries the holder's whole balance of the two agreed denominations and of nothing else.
   */
  lemma DepositsIff(s: State, m: Message, d: Denom)
    ensures (exists cs :: DepositToPooler(cs) in EffectsOf(s, m)) <==> Activates(s, m)
    ensures Activates(s, m) ==>
              && |EffectsOf(s, m)| == 1 && EffectsOf(s, m)[0].DepositToPooler?
              && AmountOf(EffectsOf(s, m)[0].coins, d) ==
                 (if d == s.config.a.contribution.denom then m.balanceA else 0)
                 + (if d == s.config.b.contribution.denom then m.balanceB else 0)
  {
    var (a, b) := (s.config.a.contribution.denom, s.config.b.contribution.denom);
    if Activates(s, m) {
      var cs := [Coin(a, m.balanceA), Coin(b, m.balanceB)];
      assert EffectsOf(s, m) == [DepositToPooler(cs)];
      assert DepositToPooler(cs) in EffectsOf(s, m);
      assert cs[1..] == [Coin(b, m.balanceB)] && cs[1..][1..] == [];
      assert AmountOf(cs[1..], d) == (if d == b then m.balanceB else 0) + AmountOf([], d);
    } else if Distributes(s, m) {
      var _, _, sends := DistributeSettles(s, m.sender, m.funds);
      NoRequestsInPayments(sends);
    }
  }

  /**
   A tick of a completed covenant returns to each party's router the holder's whole balance of
   that party's denomination, and pays nobody else.
   */
  lemma RefundsGoHome(s: State, m: Message, a: Addr, d: Denom)
    requires m.TickMsg? && Handle(s, m).Ok?
    ensures After(s, m).phase == Complete && s.phase != Complete ==> EffectsOf(s, m) == []
    ensures PaidOutTo(EffectsOf(s, m), a, d) ==
            if s.phase != Complete then 0
            else (if (a, d) == (s.config.a.router, s.config.a.contribution.denom) then m.balanceA else 0)
                 + (if (a, d) == (s.config.b.router, s.config.b.contribution.denom) then m.balanceB else 0)
  {
    if s.phase == Complete {
      RefundTo(s.config.a, m.balanceA, a, d);
      RefundTo(s.config.b, m.balanceB, a, d);
      PaidOutToConcat(Refund(s.config.a, m.balanceA), Refund(s.config.b, m.balanceB), a, d);
    } else if EffectsOf(s, m) != [] {
      assert EffectsOf(s, m)[1..] == [];
    }
  }

  lemma RefundTo(p: Party, balance: nat, a: Addr, d: Denom)
    ensures PaidOutTo(Refund(p, balance), a, d) ==
            if (a, d) == (p.router, p.contribution.denom) then balance else 0
  {
    if balance != 0 {
      assert Refund(p, balance)[1..] == [];
    }
  }

  lemma {:induction false} PaidOutToConcat(es: seq<Effect>, fs: seq<Effect>, a: Addr, d: Denom)
    ensures PaidOutTo(es + fs, a, d) == PaidOutTo(es, a, d) + PaidOutTo(fs, a, d)
  {
    if es == [] {
      assert es + fs == fs;
    } else {
      assert (es + fs)[1..] == es[1..] + fs;
      PaidOutToConcat(es[1..], fs, a, d);
    }
  }

  // ---------- What moves the phase ----------

  /** The pending distribution leaves nobody with a part. */
  predicate LeavesNobody(s: State) {
    && s.lock.Some?
    && (s.lock.value.Emergency? || s.config.kind.Side? || s.config.a.allocation == 0 || s.config.b.allocation == 0)
  }

  /** In every reachable state, exactly which message enters which phase. */
  lemma PhaseMovesIff(init: State, s: State, m: Message)
    requires Fresh(init) && Inv(init, s)
    ensures var t := After(s, m);
            && (s.phase != Active && t.phase == Active <==> Activates(s, m))
            && (s.phase != Expired && t.phase == Expired <==>
                  m.TickMsg? && m.sender == s.clock && s.phase == Active && m.lockupExpired)
            && (s.phase != Ragequit && t.phase == Ragequit <==>
                  Distributes(s, m) && s.lock.value.ProcessingRagequit? && !LeavesNobody(s))
            && (s.phase != Complete && t.phase == Complete <==>
                  || (m.TickMsg? && m.sender == s.clock && s.phase == Instantiated && m.depositExpired)
                  || (s.phase != Complete && Distributes(s, m) && LeavesNobody(s)))
  {
    if Distributes(s, m) {
      var party, counterparty, _ := DistributeSettles(s, m.sender, m.funds);
    }
  }

  // ---------- What is kept ----------

  /** The ragequit terms change only when a ragequit is settled, which records who quit and what came. */
  lemma RagequitRecordedIff(init: State, s: State, m: Message)
    requires Fresh(init) && Inv(init, s)
    ensures var t := After(s, m);
            if Distributes(s, m) && s.lock.value.ProcessingRagequit? && s.ragequit.Enabled?
            then
              t.ragequit == Enabled(RagequitTerms(s.ragequit.terms.penalty,
                Some(RagequitState(m.funds, AuthorizeSender(s.config, s.lock.value.claimer).value.0))))
            else t.ragequit == s.ragequit
  {
  }

  /** Parties with different controllers keep their places in every run. */
  lemma {:induction false} PartiesKeepPlaces(init: State, s: State, ms: seq<Message>)
    requires Fresh(init) && Inv(init, s) && init.config.a.controller != init.config.b.controller
    requires SameParty(s.config.a, init.config.a) && SameParty(s.config.b, init.config.b)
    ensures var t := Run(s, ms);
            SameParty(t.config.a, init.config.a) && SameParty(t.config.b, init.config.b)
    decreases |ms|
  {
    if ms != [] {
      StepKeepsInv(init, s, ms[0]);
      if Distributes(s, ms[0]) {
        StoredPlaces(s, ms[0]);
      } else if !ms[0].DistributeMsg? {
        ConfigFrame(s, ms[0]);
      }
      PartiesKeepPlaces(init, After(s, ms[0]), ms[1..]);
    }
  }

  /**
   A settlement stores the paid party with nothing and the other with what it inherits; they swap
   places exactly when the controllers are equal and the second party was paid.
   */
  lemma StoredPlaces(s: State, m: Message)
    requires Distributes(s, m)
    ensures s.lock.Some?
    ensures var t := After(s, m).config;
            var second := !s.lock.value.Emergency? && s.config.a.host != s.lock.value.claimer;
            var (paid, other) := if second then (s.config.b, s.config.a) else (s.config.a, s.config.b);
            var (paid', other') := (paid.(allocation := 0), other.(allocation := Inherited(s, other)));
            t == if second && s.config.a.controller != s.config.b.controller
                 then Config(other', paid', s.config.kind) else Config(paid', other', s.config.kind)
  {
    var party, counterparty, _ := DistributeSettles(s, m.sender, m.funds);
  }
}
