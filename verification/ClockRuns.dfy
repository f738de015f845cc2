/** Properties of every run of the clock: bounded fairness, round robin and membership. */
module ClockRuns {
  import opened Base
  import opened Fifo
  import opened Clock

  /** A run: failed messages change nothing; `dispatched` logs the receivers in order. */
  function Run(s: State, es: seq<Event>): Done
    decreases |es|
  {
    if es == [] then Done(s, [])
    else
      match Handle(s, es[0])
      case None => Run(s, es[1..])
      case Some(d) => var r := Run(d.state, es[1..]); Done(r.state, d.dispatched + r.dispatched)
  }

  function After(s: State, e: Event): State {
    match Handle(s, e) case None => s case Some(d) => d.state
  }

  // ---------- ManageWhitelist must not enqueue twice ----------

  predicate Unqueued(l: Lists, addrs: seq<Addr>) {
    forall a :: a in addrs ==> a in l.whitelist || a !in l.queue
  }

  /** Checkable before the call: nobody is about to be enqueued while queued. */
  predicate Safe(s: State, e: Event) {
    e.ManageWhitelist? ==>
      var l := RemoveAll(Lists(s.whitelist, s.queue, s.added), Listed(e.remove));
      l.Some? ==> Unqueued(l.value, Listed(e.add))
  }

  ghost predicate SafeRun(s: State, es: seq<Event>)
    decreases |es|
  {
    es != [] ==> Safe(s, es[0]) && SafeRun(After(s, es[0]), es[1..])
  }

  lemma {:induction false} AddAllExtends(l: Lists, addrs: seq<Addr>, contracts: set<Addr>)
    requires AddAll(l, addrs, contracts).Some?
    ensures l.queue <= AddAll(l, addrs, contracts).value.queue
    ensures forall x :: x in AddAll(l, addrs, contracts).value.queue ==> x in l.queue || x in addrs
    decreases |addrs|
  {
    if addrs != [] {
      var a := addrs[0];
      if a in l.whitelist {
        AddAllExtends(l, addrs[1..], contracts);
      } else {
        AddAllExtends(Lists(l.whitelist + [a], l.queue + [a], l.added + 1), addrs[1..], contracts);
      }
    }
  }

  /** The addition loop keeps a duplicate-free queue duplicate-free exactly under the check. */
  lemma {:induction false} AddAllDistinctIff(l: Lists, addrs: seq<Addr>, contracts: set<Addr>)
    requires NoDuplicates(l.queue) && AddAll(l, addrs, contracts).Some?
    ensures NoDuplicates(AddAll(l, addrs, contracts).value.queue) <==> Unqueued(l, addrs)
    decreases |addrs|
  {
    if addrs != [] {
      var a := addrs[0];
      assert addrs == [a] + addrs[1..];
      if a in l.whitelist {
        AddAllDistinctIff(l, addrs[1..], contracts);
      } else {
        var l1 := Lists(l.whitelist + [a], l.queue + [a], l.added + 1);
        AppendNoDuplicates(l.queue, a);
        if a in l.queue {
          AddAllExtends(l1, addrs[1..], contracts);
          PrefixNoDuplicates(l1.queue, AddAll(l1, addrs[1..], contracts).value.queue);
        } else {
          AddAllDistinctIff(l1, addrs[1..], contracts);
          assert Unqueued(l1, addrs[1..]) <==> Unqueued(l, addrs[1..]);
        }
      }
    }
  }

  lemma PrefixNoDuplicates<T>(s: seq<T>, u: seq<T>)
    requires s <= u
    ensures NoDuplicates(u) ==> NoDuplicates(s)
  {
    assert forall i :: 0 <= i < |s| ==> s[i] == u[i];
  }

  // ---------- Where an address stands ----------

  /** a stands at position p with nobody ahead of it who was not in `ahead`. */
  ghost predicate StandsAt(q: seq<Addr>, a: Addr, p: nat, ahead: seq<Addr>) {
    && NoDuplicates(q)
    && p < |q| && q[p] == a
    && p <= |ahead|
    && forall x :: x in q[..p] ==> x in ahead
  }

  lemma {:induction false} WithoutMembers(q: seq<Addr>, b: Addr)
    ensures |Without(q, b)| <= |q|
    ensures forall x :: x in Without(q, b) <==> x in q && x != b
  {
    if q != [] {
      WithoutMembers(q[1..], b);
      assert q == [q[0]] + q[1..];
    }
  }

  lemma WithoutNoDuplicates(q: seq<Addr>, b: Addr)
    requires NoDuplicates(q)
    ensures NoDuplicates(Without(q, b))
  {
    if b in q {
      var i :| 0 <= i < |q| && q[i] == b;
      WithoutAt(q, i);
    } else {
      WithoutAbsent(q, b);
    }
  }

  /** Deleting somebody else never moves an address back. */
  lemma WithoutStands(q: seq<Addr>, b: Addr, a: Addr, p: nat, ahead: seq<Addr>) returns (p': nat)
    requires StandsAt(q, a, p, ahead) && a != b
    ensures StandsAt(Without(q, b), a, p', ahead)
  {
    assert q == q[..p] + ([a] + q[p + 1..]);
    WithoutConcat(q[..p], [a] + q[p + 1..], b);
    WithoutConcat([a], q[p + 1..], b);
    assert [a][1..] == [];
    var front := Without(q[..p], b);
    assert Without(q, b) == front + ([a] + Without(q[p + 1..], b));
    WithoutMembers(q[..p], b);
    WithoutNoDuplicates(q, b);
    p' := |front|;
    assert Without(q, b)[..p'] == front;
  }

  lemma {:induction false} RemoveAllStands(l: Lists, addrs: seq<Addr>, a: Addr, p: nat, ahead: seq<Addr>)
    returns (p': nat)
    requires StandsAt(l.queue, a, p, ahead) && a !in addrs
    requires RemoveAll(l, addrs).Some?
    ensures StandsAt(RemoveAll(l, addrs).value.queue, a, p', ahead)
    decreases |addrs|
  {
    p' := p;
    if addrs != [] {
      var b := addrs[0];
      var l1 := l;
      if b in l.whitelist {
        p' := WithoutStands(l.queue, b, a, p, ahead);
        l1 := Lists(SwapRemove(l.whitelist, IndexOf(l.whitelist, b)), Without(l.queue, b), l.added);
      }
      p' := RemoveAllStands(l1, addrs[1..], a, p', ahead);
    }
  }

  predicate Removes(e: Event, a: Addr) {
    || e == Dequeue(a)
    || (e.ManageWhitelist? && a in Listed(e.remove))
  }

  /** No message but a tick moves a, unless it removes it, and none lets anybody in ahead. */
  lemma OtherMessagesKeepPlace(s: State, e: Event, a: Addr, p: nat) returns (p': nat)
    requires NoDuplicates(s.queue) && p < |s.queue| && s.queue[p] == a
    requires !e.Tick? && !Removes(e, a) && Safe(s, e)
    ensures StandsAt(After(s, e).queue, a, p', s.queue[..p])
  {
    var ahead := s.queue[..p];
    p' := p;
    if Handle(s, e).Some? {
      match e
      case Enqueue(b, _) =>
        AppendNoDuplicates(s.queue, b);
        assert (s.queue + [b])[..p] == ahead;
      case Dequeue(b) =>
        p' := WithoutStands(s.queue, b, a, p, ahead);
      case ManageWhitelist(add, remove, contracts) =>
        var l := Lists(s.whitelist, s.queue, s.added);
        p' := RemoveAllStands(l, Listed(remove), a, p, ahead);
        var l1 := RemoveAll(l, Listed(remove)).value;
        AddAllExtends(l1, Listed(add), contracts);
        AddAllDistinctIff(l1, Listed(add), contracts);
        assert After(s, e).queue[..p'] == l1.queue[..p'];
      case Pause =>
      case Unpause =>
    }
  }

  // ---------- Fairness ----------

  /** Nobody removes a before its first dispatch; afterwards it may leave, even within its own tick. */
  predicate StaysUntilDispatched(s: State, es: seq<Event>, a: Addr)
    decreases |es|
  {
    es != [] ==>
      match Handle(s, es[0])
      case None => StaysUntilDispatched(s, es[1..], a)
      case Some(d) => a in d.dispatched || (!Removes(es[0], a) && StaysUntilDispatched(d.state, es[1..], a))
  }

  /** The part of a log before the first dispatch of a. */
  function Before(log: seq<Addr>, a: Addr): seq<Addr> {
    if log == [] || log[0] == a then [] else [log[0]] + Before(log[1..], a)
  }

  lemma {:induction false} BeforeIsPrefix(log: seq<Addr>, a: Addr)
    ensures Before(log, a) <= log && a !in Before(log, a)
    ensures Before(log, a) == log || log[|Before(log, a)|] == a
  {
    if log != [] && log[0] != a {
      BeforeIsPrefix(log[1..], a);
    }
  }

  /** The log `b` before a's first dispatch names each address once, all of them from `ahead`. */
  ghost predicate OnceEach(b: seq<Addr>, ahead: seq<Addr>, p: nat) {
    |b| <= p && NoDuplicates(b) && forall x :: x in b ==> x in ahead
  }

  /** A tick that dispatches somebody else moves a one place forward. */
  lemma TickCase(q: seq<Addr>, log: seq<Addr>, a: Addr, p: nat)
    requires NoDuplicates(q) && 0 < p < |q| && q[p] == a
    requires OnceEach(Before(log, a), q[1..p], p - 1)
    ensures OnceEach(Before([q[0]] + log, a), q[..p], p)
  {
    assert ([q[0]] + log)[1..] == log;
    assert q[..p] == [q[0]] + q[1..p];
    assert q[0] !in q[1..p];
    PrependNoDuplicates(q[0], Before(log, a));
  }

  /** Whoever is dispatched before a stood ahead of it, and is dispatched once. */
  lemma {:induction false} DispatchedBefore(s: State, es: seq<Event>, a: Addr, p: nat)
    requires NoDuplicates(s.queue) && p < |s.queue| && s.queue[p] == a
    requires SafeRun(s, es) && StaysUntilDispatched(s, es, a)
    ensures OnceEach(Before(Run(s, es).dispatched, a), s.queue[..p], p)
    decreases |es|
  {
    if es != [] {
      var e, s1 := es[0], After(s, es[0]);
      if Handle(s, e).None? {
        DispatchedBefore(s, es[1..], a, p);
      } else if e.Tick? {
        RotateNoDuplicates(s.queue);
        var log := Run(s1, es[1..]).dispatched;
        assert Run(s, es).dispatched == [s.queue[0]] + log;
        if p > 0 {
          DispatchedBefore(s1, es[1..], a, p - 1);
          assert s1.queue[..p - 1] == s.queue[1..p];
          TickCase(s.queue, log, a, p);
        }
      } else {
        var p' := OtherMessagesKeepPlace(s, e, a, p);
        DispatchedBefore(s1, es[1..], a, p');
        assert Run(s, es).dispatched == [] + Run(s1, es[1..]).dispatched == Run(s1, es[1..]).dispatched;
      }
    }
  }

  lemma RotateNoDuplicates<T>(q: seq<T>)
    requires q != [] && NoDuplicates(q)
    ensures NoDuplicates(q[1..] + [q[0]])
  {
    AppendNoDuplicates(q[1..], q[0]);
  }

  /**
   Bounded fairness, for every run: an address at position p that nobody removes is among the
   first p + 1 dispatches, and nobody is dispatched twice before it.
   */
  lemma Fairness(s: State, es: seq<Event>, a: Addr, p: nat)
    requires NoDuplicates(s.queue) && p < |s.queue| && s.queue[p] == a
    requires SafeRun(s, es) && StaysUntilDispatched(s, es, a)
    ensures var log := Run(s, es).dispatched;
            && (|log| > p ==> a in log[..p + 1])
            && (forall i, j :: 0 <= i < j < |log| && a !in log[..j] ==> log[i] != log[j])
  {
    var log := Run(s, es).dispatched;
    DispatchedBefore(s, es, a, p);
    BeforeIsPrefix(log, a);
    var b := Before(log, a);
    if |log| > p {
      assert |b| < |log| && log[|b|] == a;
      assert log[..p + 1][|b|] == a;
    }
    forall j | |b| < j <= |log| ensures a in log[..j] {
      assert log[..j][|b|] == a;
    }
    forall i, j | 0 <= i < j < |log| && a !in log[..j] ensures log[i] != log[j] {
      if |b| == j {
        assert log[j] == a && log[..j][i] == log[i];
      } else {
        assert b[i] == log[i] && b[j] == log[j];
      }
    }
  }

  // ---------- Calls nested inside a tick ----------

  /**
   A message as it is executed: a tick runs its receiver, which may call back into the clock;
   when the receiver errors, the reply handler commits the rotation alone.
   */
  datatype Call =
    | Message(event: Event)
    | TickCall(receiverSucceeds: bool, nested: seq<Call>)

  function Execute(s: State, c: Call): Done
    decreases c, 1
  {
    match c
    case Message(e) => (match Handle(s, e) case None => Done(s, []) case Some(d) => d)
    case TickCall(succeeds, nested) =>
      match Handle(s, Tick)
      case None => Done(s, [])
      case Some(d) =>
        if d.dispatched == [] || !succeeds then d
        else var r := ExecuteAll(d.state, nested); Done(r.state, d.dispatched + r.dispatched)
  }

  function ExecuteAll(s: State, cs: seq<Call>): Done
    decreases cs, 0
  {
    if cs == [] then Done(s, [])
    else
      var d := Execute(s, cs[0]);
      var r := ExecuteAll(d.state, cs[1..]);
      Done(r.state, d.dispatched + r.dispatched)
  }

  /** The messages of a call whose effects are committed, in order. */
  function Committed(s: State, c: Call): seq<Event>
    decreases c, 1
  {
    match c
    case Message(e) => [e]
    case TickCall(succeeds, nested) =>
      match Handle(s, Tick)
      case None => []
      case Some(d) => [Tick] + if d.dispatched == [] || !succeeds then [] else CommittedAll(d.state, nested)
  }

  function CommittedAll(s: State, cs: seq<Call>): seq<Event>
    decreases cs, 0
  {
    if cs == [] then []
    else Committed(s, cs[0]) + CommittedAll(Execute(s, cs[0]).state, cs[1..])
  }

  lemma {:induction false} RunConcat(s: State, es: seq<Event>, fs: seq<Event>)
    ensures var r := Run(s, es); var t := Run(r.state, fs);
            Run(s, es + fs) == Done(t.state, r.dispatched + t.dispatched)
    decreases |es|
  {
    if es == [] {
      assert es + fs == fs;
    } else {
      assert (es + fs)[1..] == es[1..] + fs;
      RunConcat(After(s, es[0]), es[1..], fs);
    }
  }

  lemma RunOne(s: State, e: Event)
    ensures Run(s, [e]) == match Handle(s, e) case None => Done(s, []) case Some(d) => d
  {
    assert [e][1..] == [];
    assert Run(After(s, e), []) == Done(After(s, e), []);
  }

  /** Nesting and rollback add nothing: every call has the effect of the run it commits. */
  lemma {:induction false} CallIsRun(s: State, c: Call)
    ensures Execute(s, c) == Run(s, Committed(s, c))
    decreases c, 1
  {
    match c
    case Message(e) => RunOne(s, e);
    case TickCall(succeeds, nested) =>
      if Handle(s, Tick).Some? {
        var d := Handle(s, Tick).value;
        RunOne(s, Tick);
        if d.dispatched == [] || !succeeds {
          assert [Tick] + [] == [Tick];
        } else {
          CallsAreRun(d.state, nested);
          RunConcat(s, [Tick], CommittedAll(d.state, nested));
        }
      }
  }

  lemma {:induction false} CallsAreRun(s: State, cs: seq<Call>)
    ensures ExecuteAll(s, cs) == Run(s, CommittedAll(s, cs))
    decreases cs, 0
  {
    if cs != [] {
      CallIsRun(s, cs[0]);
      var s1 := Execute(s, cs[0]).state;
      CallsAreRun(s1, cs[1..]);
      RunConcat(s, Committed(s, cs[0]), CommittedAll(s1, cs[1..]));
    }
  }

  /**
   A failing receiver costs only its own effects: the tick counts and the queue has rotated. A
   receiver that succeeds adds what it calls, in order.
   */
  lemma TickCallEffects(s: State, nested: seq<Call>)
    requires !s.paused && s.queue != [] && s.added < U64_MAX
    ensures Execute(s, TickCall(false, nested)) ==
            Done(s.(queue := s.queue[1..] + [s.queue[0]], added := s.added + 1), [s.queue[0]])
    ensures Execute(s, TickCall(true, nested)) == ExecuteAll(s, [Message(Tick)] + nested)
  {
    var cs := [Message(Tick)] + nested;
    assert cs[1..] == nested;
    assert Execute(s, cs[0]) == Handle(s, Tick).value;
  }

  /** Fairness holds with receivers calling back into the clock and with failing receivers. */
  lemma FairnessOfCalls(s: State, cs: seq<Call>, a: Addr, p: nat)
    requires NoDuplicates(s.queue) && p < |s.queue| && s.queue[p] == a
    requires SafeRun(s, CommittedAll(s, cs)) && StaysUntilDispatched(s, CommittedAll(s, cs), a)
    ensures var log := ExecuteAll(s, cs).dispatched;
            && (|log| > p ==> a in log[..p + 1])
            && (forall i, j :: 0 <= i < j < |log| && a !in log[..j] ==> log[i] != log[j])
  {
    CallsAreRun(s, cs);
    Fairness(s, CommittedAll(s, cs), a, p);
  }

  // ---------- Round robin ----------

  function Ticks(n: nat): seq<Event> {
    if n == 0 then [] else [Tick] + Ticks(n - 1)
  }

  /** k ticks alone dispatch the first k addresses in order and move them to the back. */
  lemma {:induction false} TicksRotate(s: State, k: nat)
    requires !s.paused && k <= |s.queue| && s.added + k <= U64_MAX
    ensures Run(s, Ticks(k)).dispatched == s.queue[..k]
    ensures Run(s, Ticks(k)).state == s.(queue := s.queue[k..] + s.queue[..k], added := s.added + k)
    decreases k
  {
    var q := s.queue;
    if k == 0 {
      assert q[0..] + q[..0] == q;
    } else {
      assert Ticks(k)[1..] == Ticks(k - 1);
      var s1 := After(s, Tick);
      assert s1 == s.(queue := q[1..] + [q[0]], added := s.added + 1);
      TicksRotate(s1, k - 1);
      RotateSlices(q, k);
    }
  }

  /** Rotating once and then k - 1 times is rotating k times. */
  lemma RotateSlices<T>(q: seq<T>, k: nat)
    requires 0 < k <= |q|
    ensures var r := q[1..] + [q[0]];
            && [q[0]] + r[..k - 1] == q[..k]
            && r[k - 1..] + r[..k - 1] == q[k..] + q[..k]
  {
    var r := q[1..] + [q[0]];
    assert r[..k - 1] == q[1..k];
    assert r[k - 1..] == q[k..] + [q[0]];
    assert q[..k] == [q[0]] + q[1..k];
  }

  /** A full round dispatches every address once and restores the order. */
  lemma RoundRobin(s: State)
    requires !s.paused && s.added + |s.queue| <= U64_MAX
    ensures Run(s, Ticks(|s.queue|)).dispatched == s.queue
    ensures Run(s, Ticks(|s.queue|)).state.queue == s.queue
  {
    TicksRotate(s, |s.queue|);
    var q := s.queue;
    assert q[..|q|] == q && q[|q|..] + q[..|q|] == q;
  }

  // ---------- Membership ----------

  /** Queued addresses are distinct, and whitelisted unless they were queued at instantiation. */
  ghost predicate Members(s: State, initial: set<Addr>) {
    && NoDuplicates(s.queue)
    && forall a :: a in s.queue ==> a in s.whitelist || a in initial
  }

  lemma {:induction false} RemoveAllMembers(l: Lists, addrs: seq<Addr>, initial: set<Addr>)
    requires NoDuplicates(l.queue)
    requires forall a :: a in l.queue ==> a in l.whitelist || a in initial
    requires RemoveAll(l, addrs).Some?
    ensures var r := RemoveAll(l, addrs).value;
            && NoDuplicates(r.queue)
            && forall a :: a in r.queue ==> a in r.whitelist || a in initial
    decreases |addrs|
  {
    if addrs != [] {
      var b := addrs[0];
      if b in l.whitelist {
        var w := SwapRemove(l.whitelist, IndexOf(l.whitelist, b));
        WithoutMembers(l.queue, b);
        WithoutNoDuplicates(l.queue, b);
        forall a | a in Without(l.queue, b) && a !in initial ensures a in w {
          assert a in multiset(l.whitelist);
          assert a in multiset(w);
        }
        RemoveAllMembers(Lists(w, Without(l.queue, b), l.added), addrs[1..], initial);
      } else {
        RemoveAllMembers(l, addrs[1..], initial);
      }
    }
  }

  lemma {:induction false} AddAllMembers(l: Lists, addrs: seq<Addr>, contracts: set<Addr>, initial: set<Addr>)
    requires forall a :: a in l.queue ==> a in l.whitelist || a in initial
    requires AddAll(l, addrs, contracts).Some?
    ensures var r := AddAll(l, addrs, contracts).value;
            forall a :: a in r.queue ==> a in r.whitelist || a in initial
    decreases |addrs|
  {
    if addrs != [] {
      var b := addrs[0];
      if b in l.whitelist {
        AddAllMembers(l, addrs[1..], contracts, initial);
      } else {
        AddAllMembers(Lists(l.whitelist + [b], l.queue + [b], l.added + 1), addrs[1..], contracts, initial);
      }
    }
  }

  lemma MembersStep(s: State, e: Event, initial: set<Addr>)
    requires Members(s, initial) && Safe(s, e)
    ensures Members(After(s, e), initial)
  {
    if Handle(s, e).Some? {
      match e
      case Tick =>
        if s.queue != [] {
          RotateNoDuplicates(s.queue);
          assert forall a :: a in After(s, e).queue ==> a in s.queue;
        }
      case Enqueue(b, _) =>
        AppendNoDuplicates(s.queue, b);
      case Dequeue(b) =>
        WithoutMembers(s.queue, b);
        WithoutNoDuplicates(s.queue, b);
      case ManageWhitelist(add, remove, contracts) =>
        var l := Lists(s.whitelist, s.queue, s.added);
        RemoveAllMembers(l, Listed(remove), initial);
        var l1 := RemoveAll(l, Listed(remove)).value;
        AddAllMembers(l1, Listed(add), contracts, initial);
        AddAllDistinctIff(l1, Listed(add), contracts);
      case Pause =>
      case Unpause =>
    }
  }

  /** In every run without a double enqueue, membership and distinctness hold throughout. */
  lemma {:induction false} Membership(s: State, es: seq<Event>, initial: set<Addr>)
    requires Members(s, initial) && SafeRun(s, es)
    ensures Members(Run(s, es).state, initial)
    decreases |es|
  {
    if es != [] {
      MembersStep(s, es[0], initial);
      Membership(After(s, es[0]), es[1..], initial);
    }
  }

  // ---------- Messages about somebody else ----------

  predicate Mentions(e: Event, a: Addr) {
    match e
    case Enqueue(b, _) => a == b
    case Dequeue(b) => a == b
    case ManageWhitelist(add, remove, _) => a in Listed(add) || a in Listed(remove)
    case _ => false
  }

  lemma {:induction false} RemoveAllOthers(l: Lists, addrs: seq<Addr>, a: Addr)
    requires a !in addrs && RemoveAll(l, addrs).Some?
    ensures a in RemoveAll(l, addrs).value.queue <==> a in l.queue
    decreases |addrs|
  {
    if addrs != [] {
      var b := addrs[0];
      WithoutMembers(l.queue, b);
      if b in l.whitelist {
        var w := SwapRemove(l.whitelist, IndexOf(l.whitelist, b));
        RemoveAllOthers(Lists(w, Without(l.queue, b), l.added), addrs[1..], a);
      } else {
        RemoveAllOthers(l, addrs[1..], a);
      }
    }
  }

  /** A message that does not mention an address neither queues nor dequeues it. */
  lemma UnmentionedKeepsMembership(s: State, e: Event, a: Addr)
    requires !Mentions(e, a)
    ensures a in After(s, e).queue <==> a in s.queue
  {
    if Handle(s, e).Some? {
      match e
      case Tick =>
      case Enqueue(b, _) =>
      case Dequeue(b) => WithoutMembers(s.queue, b);
      case ManageWhitelist(add, remove, contracts) =>
        var l := Lists(s.whitelist, s.queue, s.added);
        RemoveAllOthers(l, Listed(remove), a);
        AddAllExtends(RemoveAll(l, Listed(remove)).value, Listed(add), contracts);
      case Pause =>
      case Unpause =>
    }
  }
}
