/** What holds of the two-party holder in every run, whatever messages arrive in any order. */
module HolderRuns {
  import opened Base
  import opened Decimals
  import opened Splits
  import opened Distribution
  import opened Holder

  function After(s: State, m: Message): State {
    match Handle(s, m) case Ok(d) => d.state case Err(_) => s
  }

  function EffectsOf(s: State, m: Message): seq<Effect> {
    match Handle(s, m) case Ok(d) => d.effects case Err(_) => []
  }

  function Run(s: State, ms: seq<Message>): State
    decreases |ms|
  {
    if ms == [] then s else Run(After(s, ms[0]), ms[1..])
  }

  // ---------- The invariant ----------

  /** What instantiation establishes. */
  ghost predicate Fresh(s: State) {
    && s.phase == Instantiated
    && s.lock == None
    && s.config.a.allocation + s.config.b.allocation == ONE
    && (s.ragequit.Enabled? ==>
          && s.ragequit.terms.penalty < ONE
          && s.ragequit.terms.penalty <= s.config.a.allocation
          && s.ragequit.terms.penalty <= s.config.b.allocation)
    && SplitsValidated(s)
  }

  /** Every stored split names both routers, and gives them the whole. */
  ghost predicate SplitsValidated(s: State) {
    && (forall d :: d in s.splits.explicit ==>
          ValidatedFor(s.splits.explicit[d], s.config.a.router, s.config.b.router))
    && (s.splits.fallback.Some? ==>
          ValidatedFor(s.splits.fallback.value, s.config.a.router, s.config.b.router))
  }

  lemma InstantiateIsFresh(m: InstantiateMsg)
    ensures Instantiate(m).Ok? ==> Fresh(Instantiate(m).value)
  {
  }

  /** The same party up to its allocation. */
  predicate SameParty(p: Party, q: Party) {
    p.(allocation := 0) == q.(allocation := 0)
  }

  /** The two parties are still there; equal controller addresses may exchange their places. */
  predicate SameParties(c: Config, d: Config) {
    && c.kind == d.kind
    && ((SameParty(c.a, d.a) && SameParty(c.b, d.b)) || (SameParty(c.a, d.b) && SameParty(c.b, d.a)))
  }

  ghost predicate AllocationsSettled(s: State) {
    || s.config.a.allocation + s.config.b.allocation == ONE
    || (s.config.a.allocation == 0 && s.config.b.allocation == 0 && s.phase == Complete)
  }

  /** The lock fits the phase, and its claimer can be paid. */
  ghost predicate LockFits(init: State, s: State) {
    match s.lock
    case None => true
    case Some(Emergency) => true
    case Some(Processing(c)) => (s.phase == Expired || s.phase == Ragequit) && AuthorizeSender(s.config, c).Ok?
    case Some(ProcessingRagequit(c, terms)) =>
      && (s.phase == Active || s.phase == Expired)
      && s.config == init.config
      && init.ragequit == Enabled(terms)
      && AuthorizeSender(s.config, c).Ok?
  }

  ghost predicate Inv(init: State, s: State) {
    && s.splits == init.splits && s.clock == init.clock && s.pooler == init.pooler && s.committee == init.committee
    && SameParties(s.config, init.config)
    && AllocationsSettled(s)
    && (s.phase == Instantiated || s.phase == Active ==> s.config == init.config && s.ragequit == init.ragequit)
    && (s.phase == Ragequit ==> s.config.a.allocation == 0 || s.config.b.allocation == 0)
    && LockFits(init, s)
  }

  lemma FreshInv(init: State)
    requires Fresh(init)
    ensures Inv(init, init)
  {
  }

  /** Storing the two parties back with allocations x and y. */
  lemma StoredBack(c: Config, party: Party, counterparty: Party, x: nat, y: nat)
    requires (party, counterparty) == (c.a, c.b) || (party, counterparty) == (c.b, c.a)
    ensures var r := UpdateParties(c, party.(allocation := x), counterparty.(allocation := y));
            && SameParties(r, c)
            && (|| r == Config(party.(allocation := x), counterparty.(allocation := y), c.kind)
                || r == Config(counterparty.(allocation := y), party.(allocation := x), c.kind))
  {
  }

  /** What the counterparty owns after the pending distribution. */
  function Inherited(s: State, counterparty: Party): nat
    requires s.lock.Some?
  {
    if s.config.kind.Share? && !s.lock.value.Emergency? && counterparty.allocation != 0 then ONE else 0
  }

  /** What a committed distribution leaves behind, in terms of the party that was paid. */
  ghost predicate Settled(s: State, t: State, party: Party, counterparty: Party)
    requires s.lock.Some?
  {
    var y := Inherited(s, counterparty);
    && t.config == UpdateParties(s.config, party.(allocation := 0), counterparty.(allocation := y))
    && t.lock == (if s.lock.value.Emergency? then s.lock else None)
    && t.phase == (if y == 0 then Complete else if s.lock.value.ProcessingRagequit? then Ragequit else s.phase)
    && t.splits == s.splits && t.clock == s.clock && t.pooler == s.pooler && t.committee == s.committee
  }

  lemma DistributeSettles(s: State, sender: Addr, funds: seq<Coin>)
    returns (party: Party, counterparty: Party, sends: seq<Send>)
    requires Handle(s, DistributeMsg(sender, funds)).Ok?
    ensures sender == s.pooler && s.lock.Some?
    ensures (party, counterparty) == (s.config.a, s.config.b) || (party, counterparty) == (s.config.b, s.config.a)
    ensures !s.lock.value.Emergency? ==> AuthorizeSender(s.config, s.lock.value.claimer) == Ok((party, counterparty))
    ensures Settled(s, After(s, DistributeMsg(sender, funds)), party, counterparty)
    ensures EffectsOf(s, DistributeMsg(sender, funds))
            == Payments(sends) + if Inherited(s, counterparty) == 0 then [LeaveClock] else []
  {
    var parties := if s.lock.value.Emergency? then (s.config.a, s.config.b)
                   else AuthorizeSender(s.config, s.lock.value.claimer).value;
    party, counterparty := parties.0, parties.1;
    var splits := if s.lock.value.ProcessingRagequit?
                  then Penalized(s.splits, s.lock.value.terms.penalty, party.router, counterparty.router).value
                  else s.splits;
    var single := s.config.kind.Share? && !s.lock.value.Emergency?;
    sends := DistributionMessages(splits, funds, if single then Some(party.router) else None);
    assert Payments(sends) + [] == Payments(sends);
    match s.lock.value
    case Emergency =>
    case Processing(_) =>
    case ProcessingRagequit(_, _) =>
  }

  lemma DistributeKeepsInv(init: State, s: State, sender: Addr, funds: seq<Coin>)
    requires Fresh(init) && Inv(init, s)
    ensures Inv(init, After(s, DistributeMsg(sender, funds)))
  {
    if Handle(s, DistributeMsg(sender, funds)).Ok? {
      var party, counterparty, _ := DistributeSettles(s, sender, funds);
      StoredBack(s.config, party, counterparty, 0, Inherited(s, counterparty));
    }
  }

  lemma StepKeepsInv(init: State, s: State, m: Message)
    requires Fresh(init) && Inv(init, s)
    ensures Inv(init, After(s, m))
  {
    match m
    case DistributeMsg(sender, funds) => DistributeKeepsInv(init, s, sender, funds);
    case TickMsg(_, _, _, _, _) =>
    case ClaimMsg(_) =>
    case RagequitMsg(_, _) =>
    case EmergencyMsg(_) =>
    case WithdrawFailedMsg(_) =>
  }

  lemma {:induction false} RunKeepsInv(init: State, s: State, ms: seq<Message>)
    requires Fresh(init) && Inv(init, s)
    ensures Inv(init, Run(s, ms))
    decreases |ms|
  {
    if ms != [] {
      StepKeepsInv(init, s, ms[0]);
      RunKeepsInv(init, After(s, ms[0]), ms[1..]);
    }
  }

  /**
   In every run the allocations sum to one, or both are zero and the covenant is complete;
   before and during the lockup, and while a ragequit is pending, they are the agreed ones.
   */
  lemma AllocationInvariant(im: InstantiateMsg, ms: seq<Message>)
    requires Instantiate(im).Ok?
    ensures var s := Run(Instantiate(im).value, ms);
            && (|| s.config.a.allocation + s.config.b.allocation == ONE
                || (s.config.a.allocation == 0 && s.config.b.allocation == 0 && s.phase == Complete))
            && (s.phase == Instantiated || s.phase == Active || (s.lock.Some? && s.lock.value.ProcessingRagequit?)
                ==> s.config == im.config)
  {
    var init := Instantiate(im).value;
    InstantiateIsFresh(im);
    FreshInv(init);
    RunKeepsInv(init, init, ms);
  }

  // ---------- Progress ----------

  function Rank(p: Phase): nat {
    match p
    case Instantiated => 0
    case Active => 1
    case Expired => 2
    case Ragequit => 3
    case Complete => 4
  }

  lemma StepKeepsRank(init: State, s: State, m: Message)
    requires Fresh(init) && Inv(init, s)
    ensures Rank(s.phase) <= Rank(After(s, m).phase)
  {
    if Distributes(s, m) {
      var party, counterparty, _ := DistributeSettles(s, m.sender, m.funds);
    }
  }

  /** No message in any run lowers the rank, so Complete is final. */
  lemma {:induction false} ProgressOrder(init: State, s: State, ms: seq<Message>)
    requires Fresh(init) && Inv(init, s)
    ensures Rank(s.phase) <= Rank(Run(s, ms).phase)
    ensures s.phase == Complete ==> Run(s, ms).phase == Complete
    decreases |ms|
  {
    if ms != [] {
      StepKeepsInv(init, s, ms[0]);
      StepKeepsRank(init, s, ms[0]);
      ProgressOrder(init, After(s, ms[0]), ms[1..]);
    }
  }

  // ---------- Payouts ----------

  /** Number of parties that still own a part of the position. */
  function Live(s: State): nat {
    (if s.config.a.allocation == 0 then 0 else 1) + (if s.config.b.allocation == 0 then 0 else 1)
  }

  predicate Distributes(s: State, m: Message) {
    m.DistributeMsg? && Handle(s, m).Ok?
  }

  /** The hosts on whose behalf a distribution was committed, in order. */
  function Payouts(s: State, ms: seq<Message>): seq<Addr>
    decreases |ms|
  {
    if ms == [] then []
    else
      (if Distributes(s, ms[0]) && s.lock.Some? && !s.lock.value.Emergency? then [s.lock.value.claimer] else [])
      + Payouts(After(s, ms[0]), ms[1..])
  }

  /** A committed distribution for a claimer leaves it with nothing, and only then. */
  lemma DistributionSettlesClaimer(init: State, s: State, m: Message)
    requires Fresh(init) && Inv(init, s)
    requires Distributes(s, m) && !s.lock.value.Emergency?
    ensures Live(After(s, m)) < Live(s)
    ensures s.config.kind.Side? ==> Live(After(s, m)) == 0
    ensures AuthorizeSender(s.config, s.lock.value.claimer).Ok?
    ensures init.config.a.host != init.config.b.host ==>
              AuthorizeSender(After(s, m).config, s.lock.value.claimer).Err?
    ensures After(s, m).lock == None
  {
    var party, counterparty, _ := DistributeSettles(s, m.sender, m.funds);
    StoredBack(s.config, party, counterparty, 0, Inherited(s, counterparty));
  }

  /** Only a distribution touches the configuration. */
  lemma ConfigFrame(s: State, m: Message)
    requires !m.DistributeMsg?
    ensures After(s, m).config == s.config
  {
  }

  lemma LiveNeverGrows(init: State, s: State, m: Message)
    requires Fresh(init) && Inv(init, s)
    ensures Live(After(s, m)) <= Live(s)
    ensures After(s, m).config.kind == s.config.kind
  {
    if Distributes(s, m) {
      var party, counterparty, _ := DistributeSettles(s, m.sender, m.funds);
      StoredBack(s.config, party, counterparty, 0, Inherited(s, counterparty));
    } else if !m.DistributeMsg? {
      ConfigFrame(s, m);
    }
  }

  /**
   Bounded payouts, in every run: at most one distribution per remaining position, and a
   single one in a side covenant.
   */
  lemma {:induction false} BoundedPayouts(init: State, s: State, ms: seq<Message>)
    requires Fresh(init) && Inv(init, s)
    ensures |Payouts(s, ms)| <= Live(s)
    ensures s.config.kind.Side? ==> |Payouts(s, ms)| <= 1
    decreases |ms|
  {
    if ms != [] {
      var m := ms[0];
      StepKeepsInv(init, s, m);
      LiveNeverGrows(init, s, m);
      BoundedPayouts(init, After(s, m), ms[1..]);
      if Distributes(s, m) && !s.lock.value.Emergency? {
        DistributionSettlesClaimer(init, s, m);
      }
    }
  }

  /** With two different hosts nobody is ever paid twice. */
  lemma {:induction false} PaidAtMostOnce(init: State, s: State, ms: seq<Message>)
    requires Fresh(init) && Inv(init, s)
    requires init.config.a.host != init.config.b.host
    ensures NoDuplicates(Payouts(s, ms))
    ensures forall h :: h in Payouts(s, ms) ==> AuthorizeSender(s.config, h).Ok?
    decreases |ms|
  {
    if ms != [] {
      var m, s1 := ms[0], After(s, ms[0]);
      StepKeepsInv(init, s, m);
      PaidAtMostOnce(init, s1, ms[1..]);
      var rest := Payouts(s1, ms[1..]);
      forall h | h in rest ensures AuthorizeSender(s.config, h).Ok? {
        StillOwnsBefore(init, s, m, h);
      }
      if Distributes(s, m) && !s.lock.value.Emergency? {
        DistributionSettlesClaimer(init, s, m);
        PrependNoDuplicates(s.lock.value.claimer, rest);
      } else {
        assert Payouts(s, ms) == rest;
      }
    }
  }

  /** Whoever owns a part of the position after a message owned one before. */
  lemma StillOwnsBefore(init: State, s: State, m: Message, host: Addr)
    requires Fresh(init) && Inv(init, s)
    requires init.config.a.host != init.config.b.host
    requires AuthorizeSender(After(s, m).config, host).Ok?
    ensures AuthorizeSender(s.config, host).Ok?
  {
    if Distributes(s, m) {
      var party, counterparty, _ := DistributeSettles(s, m.sender, m.funds);
      StoredBack(s.config, party, counterparty, 0, Inherited(s, counterparty));
    } else if !m.DistributeMsg? {
      ConfigFrame(s, m);
    }
  }

  /** With one host for both parties only the first of them can ever exit. */
  lemma {:induction false} SharedHostPaysOneParty(init: State, s: State, ms: seq<Message>)
    requires Fresh(init) && Inv(init, s)
    requires init.config.a.host == init.config.b.host
    requires s.config.a.allocation == 0
    ensures Payouts(s, ms) == []
    decreases |ms|
  {
    if ms != [] {
      StepKeepsInv(init, s, ms[0]);
      SharedHostPaysOneParty(init, After(s, ms[0]), ms[1..]);
    }
  }

  /**
   When claims are open somebody can claim exactly when the first party still owns a part, or
   the second one does and has a host of its own: with one host it is always the first party
   that is looked up.
   */
  lemma ClaimPossibleIff(init: State, s: State)
    requires Fresh(init) && Inv(init, s)
    requires s.lock == None && (s.phase == Expired || s.phase == Ragequit)
    ensures (exists h :: Handle(s, ClaimMsg(h)).Ok?) <==>
            s.config.a.allocation != 0 || init.config.a.host != init.config.b.host
    ensures s.config.a.allocation == 0 && s.config.b.allocation != 0 ==>
              ((exists h :: Handle(s, ClaimMsg(h)).Ok?) <==> init.config.a.host != init.config.b.host)
    ensures s.config.b.allocation == 0 && s.config.a.allocation != 0 ==>
              Handle(s, ClaimMsg(s.config.a.host)).Ok?
  {
    if s.config.a.allocation != 0 {
      assert Handle(s, ClaimMsg(s.config.a.host)).Ok?;
    } else if init.config.a.host != init.config.b.host {
      assert Handle(s, ClaimMsg(s.config.b.host)).Ok?;
    }
  }

  /**
   A run to the end of the lockup, a claim by `host`, and its settlement: any pending withdrawal
   fails, the deposits arrive, the lockup expires.
   */
  function ExitRun(s: State, host: Addr): seq<Message> {
    var tick := TickMsg(s.clock, false, true, s.config.a.contribution.amount, s.config.b.contribution.amount);
    [WithdrawFailedMsg(s.pooler), tick, tick, ClaimMsg(host), DistributeMsg(s.pooler, [])]
  }

  /** Up to the claim nothing is paid; then `host` holds the lock. */
  lemma ExitRunClaims(init: State, s: State, host: Addr)
    requires Fresh(init) && Inv(init, s) && s.phase != Complete
    requires AuthorizeSender(s.config, host).Ok?
    ensures var ms := ExitRun(s, host);
            var t := After(After(After(After(s, ms[0]), ms[1]), ms[2]), ms[3]);
            t.lock == Some(Processing(host)) && Distributes(t, ms[4])
  {
    var ms := ExitRun(s, host);
    var s1 := After(s, ms[0]);
    var s3 := After(After(s1, ms[1]), ms[2]);
    assert s1.phase == s.phase && s1.lock == None;
    assert s3 == s1.(phase := if s.phase == Ragequit then Ragequit else Expired);
  }

  lemma PayoutsSkip(s: State, ms: seq<Message>)
    requires ms != [] && !ms[0].DistributeMsg?
    ensures Payouts(s, ms) == Payouts(After(s, ms[0]), ms[1..])
  {
  }

  lemma ExitRunPays(init: State, s: State, host: Addr)
    requires Fresh(init) && Inv(init, s) && s.phase != Complete
    requires AuthorizeSender(s.config, host).Ok?
    ensures Payouts(s, ExitRun(s, host)) == [host]
  {
    var ms := ExitRun(s, host);
    ExitRunClaims(init, s, host);
    assert ms[1..][1..] == ms[2..] && ms[2..][1..] == ms[3..] && ms[3..][1..] == ms[4..] && ms[4..][1..] == [];
    PayoutsSkip(s, ms);
    var s1 := After(s, ms[0]);
    PayoutsSkip(s1, ms[1..]);
    var s2 := After(s1, ms[1]);
    PayoutsSkip(s2, ms[2..]);
    var s3 := After(s2, ms[2]);
    PayoutsSkip(s3, ms[3..]);
    var s4 := After(s3, ms[3]);
    assert Payouts(s4, ms[4..]) == [host] + Payouts(After(s4, ms[4]), []);
  }

  /**
   While the covenant is not over, some run still pays a party exactly when the first party owns
   a part of the position or the hosts differ.
   */
  lemma PayoutReachableIff(init: State, s: State)
    requires Fresh(init) && Inv(init, s) && s.phase != Complete
    ensures (exists ms :: Payouts(s, ms) != []) <==>
            s.config.a.allocation != 0 || init.config.a.host != init.config.b.host
  {
    if s.config.a.allocation != 0 {
      ExitRunPays(init, s, s.config.a.host);
      assert Payouts(s, ExitRun(s, s.config.a.host)) != [];
    } else if init.config.a.host != init.config.b.host {
      ExitRunPays(init, s, s.config.b.host);
      assert Payouts(s, ExitRun(s, s.config.b.host)) != [];
    } else {
      forall ms ensures Payouts(s, ms) == [] {
        SharedHostPaysOneParty(init, s, ms);
      }
    }
  }

  /** Two halves, a pool of two coins and the agreed addresses: nothing an instantiation rejects. */
  function Sample(hostA: Addr, hostB: Addr, penalty: nat): InstantiateMsg {
    var a := Party(Coin("a", 1), hostA, "controllerA", ONE / 2, "routerA");
    var b := Party(Coin("b", 1), hostB, "controllerB", ONE / 2, "routerB");
    InstantiateMsg(false, true, true, Config(a, b, Share), Enabled(RagequitTerms(penalty, None)), map[], None,
                   "clock", "pooler", None)
  }

  /** Instantiation accepts one host for both parties, and then half of the position is stuck. */
  lemma SharedHostIsAccepted(host: Addr)
    ensures var im := Sample(host, host, 0);
            && Instantiate(im).Ok?
            && var init := Instantiate(im).value;
               var s := Run(init, ExitRun(init, host));
               && s.phase == Expired && s.lock == None
               && s.config.b.allocation == ONE
               && forall h :: Handle(s, ClaimMsg(h)).Err?
  {
    var im := Sample(host, host, 0);
    var init := Instantiate(im).value;
    InstantiateIsFresh(im);
    FreshInv(init);
    var ms := ExitRun(init, host);
    RunKeepsInv(init, init, ms);
    RunFive(init, ms);
    ClaimPossibleIff(init, Run(init, ms));
  }

  lemma RunFive(s: State, ms: seq<Message>)
    requires |ms| == 5
    ensures Run(s, ms) == After(After(After(After(After(s, ms[0]), ms[1]), ms[2]), ms[3]), ms[4])
  {
    var s1 := After(s, ms[0]);
    var s2 := After(s1, ms[1]);
    var s3 := After(s2, ms[2]);
    var s4 := After(s3, ms[3]);
    assert ms[1..][1..] == ms[2..] && ms[2..][1..] == ms[3..] && ms[3..][1..] == ms[4..] && ms[4..][1..] == [];
    assert Run(s4, ms[4..]) == Run(After(s4, ms[4]), []);
    assert Run(s3, ms[3..]) == Run(s4, ms[4..]);
    assert Run(s2, ms[2..]) == Run(s3, ms[3..]);
    assert Run(s1, ms[1..]) == Run(s2, ms[2..]);
  }

  // ---------- Withdrawal fractions ----------

  /** What the poolers accept: None stands for everything. */
  predicate AcceptedFraction(f: Option<nat>) {
    f.Some? ==> 0 < f.value <= ONE
  }

  /** The fraction a request asks the pooler for, if it succeeds. */
  function Asked(s: State, m: Message): Option<Option<nat>> {
    var es := EffectsOf(s, m);
    if |es| == 1 && es[0].WithdrawLp? then Some(es[0].fraction) else None
  }

  /**
   In every run a successful claim asks for a fraction the pooler accepts; a ragequit never
   underflows, and in a share covenant asks for the agreed allocation less the penalty, which
   is accepted exactly when the penalty is below the allocation.
   */
  lemma FractionRange(im: InstantiateMsg, ms: seq<Message>, sender: Addr, expired: bool)
    requires Instantiate(im).Ok?
    ensures var s := Run(Instantiate(im).value, ms);
            Handle(s, ClaimMsg(sender)).Ok? ==>
              var f := Asked(s, ClaimMsg(sender));
              f.Some? && AcceptedFraction(f.value)
    ensures var s := Run(Instantiate(im).value, ms);
            var agreed := AuthorizeSender(im.config, sender);
            && Handle(s, RagequitMsg(sender, expired)) != Err(Underflow)
            && (Handle(s, RagequitMsg(sender, expired)).Ok? ==>
                  var f := Asked(s, RagequitMsg(sender, expired));
                  && f.Some? && agreed.Ok? && im.ragequit.Enabled?
                  && (im.config.kind.Side? <==> f.value.None?)
                  && (f.value.Some? ==>
                        f.value.value + im.ragequit.terms.penalty == agreed.value.0.allocation <= ONE)
                  && (AcceptedFraction(f.value) <==>
                        im.config.kind.Side? || im.ragequit.terms.penalty < agreed.value.0.allocation))
  {
    var init := Instantiate(im).value;
    InstantiateIsFresh(im);
    FreshInv(init);
    RunKeepsInv(init, init, ms);
  }

  /**
   Instantiation accepts a penalty as large as the allocations; a ragequit then asks for nothing,
   which no pooler accepts.
   */
  lemma FullPenaltyIsAccepted(hostA: Addr, hostB: Addr, host: Addr)
    requires hostA != hostB && (host == hostA || host == hostB)
    ensures var im := Sample(hostA, hostB, ONE / 2);
            && Instantiate(im).Ok?
            && var init := Instantiate(im).value;
               var s := After(init, TickMsg("clock", false, false, 1, 1));
               && Handle(s, RagequitMsg(host, false)).Ok?
               && Asked(s, RagequitMsg(host, false)) == Some(Some(0))
               && !AcceptedFraction(Some(0))
  {
    var im := Sample(hostA, hostB, ONE / 2);
    var init := Instantiate(im).value;
    var s := After(init, TickMsg("clock", false, false, 1, 1));
    assert s == init.(phase := Active);
    assert AuthorizeSender(s.config, host).Ok?;
    assert AuthorizeSender(s.config, host).value.0.allocation == ONE / 2;
    assert HandleRagequit(s, host, false).value.effects == [WithdrawLp(Some(0))];
  }

  // ---------- What a distribution does ----------

  /**
   In every reachable state the pooler's distribution commits exactly when a withdrawal is
   pending and, for a ragequit, the penalty fits every stored split.
   */
  lemma DistributeCommitsIff(init: State, s: State, funds: seq<Coin>)
    requires Fresh(init) && Inv(init, s)
    ensures Handle(s, DistributeMsg(s.pooler, funds)).Ok? <==>
            && s.lock.Some?
            && (s.lock.value.ProcessingRagequit? ==>
                  var (party, counterparty) := AuthorizeSender(s.config, s.lock.value.claimer).value;
                  PenaltyFits(s.splits, s.lock.value.terms.penalty, party.router, counterparty.router))
  {
    if s.lock.Some? && s.lock.value.ProcessingRagequit? {
      var (party, counterparty) := AuthorizeSender(s.config, s.lock.value.claimer).value;
      PenalizedIffFits(s.splits, s.lock.value.terms.penalty, party.router, counterparty.router);
    }
  }

  function PaidOut(es: seq<Effect>, d: Denom): nat {
    if es == [] then 0
    else (if es[0].Pay? && es[0].send.coin.denom == d then es[0].send.coin.amount else 0) + PaidOut(es[1..], d)
  }

  lemma {:induction false} PaidOutPayments(sends: seq<Send>, tail: seq<Effect>, d: Denom)
    ensures PaidOut(Payments(sends) + tail, d) == SentOf(sends, d) + PaidOut(tail, d)
  {
    if sends == [] {
      assert Payments(sends) + tail == tail;
    } else {
      assert (Payments(sends) + tail)[1..] == Payments(sends[1..]) + tail;
      PaidOutPayments(sends[1..], tail, d);
    }
  }

  lemma {:induction false} PaymentsGoWhereSent(sends: seq<Send>, router: Addr)
    requires forall i :: 0 <= i < |sends| ==> sends[i].to == router
    ensures forall e :: e in Payments(sends) ==> e.Pay? && e.send.to == router
  {
    if sends != [] {
      PaymentsGoWhereSent(sends[1..], router);
    }
  }

  predicate ShareBased(s: State) {
    s.config.kind.Share? && s.lock.Some? && !s.lock.value.Emergency?
  }

  /** The table a committed distribution pays by. */
  function EffectiveSplits(s: State): DenomSplits
    requires Handle(s, DistributeMsg(s.pooler, [])).Ok?
  {
    if s.lock.value.ProcessingRagequit? then
      var (party, counterparty) := AuthorizeSender(s.config, s.lock.value.claimer).value;
      Penalized(s.splits, s.lock.value.terms.penalty, party.router, counterparty.router).value
    else s.splits
  }

  /** Whether a distribution commits does not depend on the coins, nor does the table. */
  lemma PaysByEffectiveSplits(s: State, funds: seq<Coin>)
    requires Handle(s, DistributeMsg(s.pooler, [])).Ok?
    ensures Handle(s, DistributeMsg(s.pooler, funds)).Ok?
    ensures ShareBased(s) ==> AuthorizeSender(s.config, s.lock.value.claimer).Ok?
    ensures var es := Handle(s, DistributeMsg(s.pooler, funds)).value.effects;
            var router := if ShareBased(s)
                          then Some(AuthorizeSender(s.config, s.lock.value.claimer).value.0.router) else None;
            var pays := Payments(DistributionMessages(EffectiveSplits(s), funds, router));
            es == pays || es == pays + [LeaveClock]
  {
    match s.lock.value
    case Emergency =>
    case Processing(_) =>
    case ProcessingRagequit(_, _) =>
  }

  /** For any two routers, a penalized table is keyed, names everybody and stays in range as before. */
  lemma EffectiveSplitsKeep(init: State, s: State)
    requires Fresh(init) && Inv(init, s) && ExplicitKeyed(init.splits)
    requires Handle(s, DistributeMsg(s.pooler, [])).Ok?
    ensures EffectiveSplits(s).explicit.Keys == s.splits.explicit.Keys
    ensures ExplicitKeyed(EffectiveSplits(s))
    ensures forall d :: d in s.splits.explicit ==> SameKeys(s.splits.explicit[d], EffectiveSplits(s).explicit[d])
    ensures InDecimalRange(init.splits) ==> InDecimalRange(EffectiveSplits(s))
  {
    if s.lock.value.ProcessingRagequit? {
      var (party, counterparty) := AuthorizeSender(s.config, s.lock.value.claimer).value;
      var penalty := s.lock.value.terms.penalty;
      forall d | d in s.splits.explicit
        ensures SameKeys(s.splits.explicit[d], EffectiveSplits(s).explicit[d])
        ensures SharesInRange(s.splits.explicit[d]) ==> SharesInRange(EffectiveSplits(s).explicit[d])
      {
        PenaltyKeepsKeys(s.splits.explicit[d], penalty, party.router, counterparty.router);
        if SharesInRange(s.splits.explicit[d]) {
          PenaltyKeepsRange(s.splits.explicit[d], penalty, party.router, counterparty.router);
        }
      }
    }
  }

  /** Both routers appear in every split a distribution pays by. */
  lemma RoutersAreNamed(init: State, s: State, router: Addr)
    requires Fresh(init) && Inv(init, s) && ExplicitKeyed(init.splits)
    requires Handle(s, DistributeMsg(s.pooler, [])).Ok?
    requires router == s.config.a.router || router == s.config.b.router
    ensures forall d :: d in EffectiveSplits(s).explicit ==> ShareOf(EffectiveSplits(s).explicit[d], router).Some?
  {
    EffectiveSplitsKeep(init, s);
    forall d | d in s.splits.explicit ensures ShareOf(EffectiveSplits(s).explicit[d], router).Some? {
      SameKeysSameNames(s.splits.explicit[d], EffectiveSplits(s).explicit[d], router);
    }
  }

  /**
   A share-based distribution, claim or ragequit, hands the claimer's router, and nobody else,
   everything it received of every denomination with a split; routers may be equal, and splits
   may have further receivers.
   */
  lemma ShareDistributionConserves(init: State, s: State, funds: seq<Coin>, d: Denom)
    requires Fresh(init) && Inv(init, s) && ExplicitKeyed(init.splits) && InRange(funds)
    requires ShareBased(s) && Handle(s, DistributeMsg(s.pooler, funds)).Ok?
    ensures var es := Handle(s, DistributeMsg(s.pooler, funds)).value.effects;
            && PaidOut(es, d) == (if d in s.splits.explicit then AmountOf(funds, d) else 0)
            && AuthorizeSender(s.config, s.lock.value.claimer).Ok?
            && forall e :: e in es && e.Pay? ==>
                 e.send.to == AuthorizeSender(s.config, s.lock.value.claimer).value.0.router
  {
    DistributeCommitsIff(init, s, funds);
    DistributeCommitsIff(init, s, []);
    PaysByEffectiveSplits(s, funds);
    EffectiveSplitsKeep(init, s);
    var router := AuthorizeSender(s.config, s.lock.value.claimer).value.0.router;
    RoutersAreNamed(init, s, router);
    var sends := DistributionMessages(EffectiveSplits(s), funds, Some(router));
    SingleReceiverGetsAll(EffectiveSplits(s), funds, router, d);
    PaymentsGoWhereSent(sends, router);
    PayoutTail(sends, d);
  }

  ghost predicate NeverOverpaid(s: State) {
    forall funds, d :: InRange(funds) && Handle(s, DistributeMsg(s.pooler, funds)).Ok? ==>
      PaidOut(Handle(s, DistributeMsg(s.pooler, funds)).value.effects, d) <= AmountOf(funds, d)
  }

  /**
   Conservation, exactly: whatever the pending withdrawal, no distribution pays out more of any
   denomination than it received, for all funds, if and only if it is share-based or no split it
   pays by shares out more than the whole.
   */
  lemma DistributionConservesIff(init: State, s: State)
    requires Fresh(init) && Inv(init, s) && ExplicitKeyed(init.splits) && InDecimalRange(init.splits)
    requires Handle(s, DistributeMsg(s.pooler, [])).Ok?
    ensures NeverOverpaid(s) <==> ShareBased(s) || WithinOne(EffectiveSplits(s))
  {
    EffectiveSplitsKeep(init, s);
    var ds := EffectiveSplits(s);
    forall funds | true ensures Handle(s, DistributeMsg(s.pooler, funds)).Ok? {
      PaysByEffectiveSplits(s, funds);
    }
    if ShareBased(s) {
      forall funds, d | InRange(funds)
        ensures PaidOut(Handle(s, DistributeMsg(s.pooler, funds)).value.effects, d) <= AmountOf(funds, d)
      {
        ShareDistributionConserves(init, s, funds, d);
      }
    } else {
      forall funds, d | InRange(funds)
        ensures PaidOut(Handle(s, DistributeMsg(s.pooler, funds)).value.effects, d) <= AmountOf(funds, d)
                <==> SharesOutAtMost(ds, funds, d)
      {
        PaysByEffectiveSplits(s, funds);
        PayoutTail(DistributionMessages(ds, funds, None), d);
      }
      SharedDistributionIff(ds);
    }
  }

  /**
   Conservation from what was agreed: with different routers and splits for nobody else but the
   parties, or in a share-based withdrawal, a distribution never pays out more than it received.
   */
  lemma DistributionConserves(init: State, s: State, funds: seq<Coin>, d: Denom)
    requires Fresh(init) && Inv(init, s) && WellKeyed(init.splits) && InRange(funds)
    requires ShareBased(s) || (WithinOne(init.splits) && init.config.a.router != init.config.b.router)
    requires Handle(s, DistributeMsg(s.pooler, funds)).Ok?
    ensures PaidOut(Handle(s, DistributeMsg(s.pooler, funds)).value.effects, d) <= AmountOf(funds, d)
  {
    if ShareBased(s) {
      ShareDistributionConserves(init, s, funds, d);
    } else {
      DistributeCommitsIff(init, s, funds);
      DistributeCommitsIff(init, s, []);
      PaysByEffectiveSplits(s, funds);
      if s.lock.value.ProcessingRagequit? {
        var (party, counterparty) := AuthorizeSender(s.config, s.lock.value.claimer).value;
        PenaltyPreservesSplits(s.splits, s.lock.value.terms.penalty, party.router, counterparty.router);
      }
      SharedDistributionConserves(EffectiveSplits(s), funds, d);
      PayoutTail(DistributionMessages(EffectiveSplits(s), funds, None), d);
    }
  }

  lemma PayoutTail(sends: seq<Send>, d: Denom)
    ensures PaidOut(Payments(sends), d) == SentOf(sends, d)
    ensures PaidOut(Payments(sends) + [LeaveClock], d) == SentOf(sends, d)
  {
    PaidOutPayments(sends, [], d);
    assert Payments(sends) + [] == Payments(sends);
    PaidOutPayments(sends, [LeaveClock], d);
    assert [LeaveClock][1..] == [];
  }
}
