/**
 What the clock's messages do to its two lists: who is listed, who is queued, who may come back,
 and what stands still while the clock is paused.
 */
module ClockLists {
  import opened Base
  import opened Fifo
  import opened Clock
  import opened ClockRuns

  // ---------- Removals ----------

  /** Every removal of a takes one occurrence from the whitelist, as long as there is one. */
  lemma {:induction false} RemoveAllCounts(l: Lists, addrs: seq<Addr>, a: Addr)
    requires RemoveAll(l, addrs).Some?
    ensures var (m, k) := (multiset(l.whitelist)[a], multiset(addrs)[a]);
            multiset(RemoveAll(l, addrs).value.whitelist)[a] == if m > k then m - k else 0
    decreases |addrs|
  {
    if addrs == [] {
      assert multiset(addrs)[a] == 0;
    } else {
      var b := addrs[0];
      assert addrs == [b] + addrs[1..];
      assert multiset(addrs)[a] == (if a == b then 1 else 0) + multiset(addrs[1..])[a];
      if b in l.whitelist {
        var w := SwapRemove(l.whitelist, IndexOf(l.whitelist, b));
        assert multiset(l.whitelist)[b] > 0;
        RemoveAllCounts(Lists(w, Without(l.queue, b), l.added), addrs[1..], a);
      } else {
        assert b !in multiset(l.whitelist);
        RemoveAllCounts(l, addrs[1..], a);
      }
    }
  }

  /** Whoever is listed and removed leaves the queue; everybody else stays. */
  lemma {:induction false} RemoveAllQueue(l: Lists, addrs: seq<Addr>, a: Addr)
    requires RemoveAll(l, addrs).Some?
    ensures a in RemoveAll(l, addrs).value.queue <==> a in l.queue && !(a in l.whitelist && a in addrs)
    ensures RemoveAll(l, addrs).value.added == l.added
    decreases |addrs|
  {
    if addrs != [] {
      var b := addrs[0];
      assert addrs == [b] + addrs[1..];
      if b in l.whitelist {
        var w := SwapRemove(l.whitelist, IndexOf(l.whitelist, b));
        WithoutMembers(l.queue, b);
        if a != b {
          assert multiset(w)[a] == multiset(l.whitelist)[a];
          assert a in w <==> a in multiset(w);
          assert a in l.whitelist <==> a in multiset(l.whitelist);
        }
        RemoveAllQueue(Lists(w, Without(l.queue, b), l.added), addrs[1..], a);
      } else {
        RemoveAllQueue(l, addrs[1..], a);
      }
    }
  }

  lemma CountOfDistinct(s: seq<Addr>, a: Addr)
    ensures NoDuplicates(s) ==> multiset(s)[a] == if a in s then 1 else 0
    ensures (forall x :: multiset(s)[x] <= 1) ==> NoDuplicates(s)
  {
    if NoDuplicates(s) {
      CountInDistinct(s, a);
    }
    if (forall x :: multiset(s)[x] <= 1) && !NoDuplicates(s) {
      var i, j :| 0 <= i < j < |s| && s[i] == s[j];
      assert s == s[..j] + s[j..];
      assert s[i] == s[..j][i] && s[j] == s[j..][0];
      assert multiset(s) == multiset(s[..j]) + multiset(s[j..]);
      assert s[i] in multiset(s[..j]) && s[j] in multiset(s[j..]);
      assert multiset(s)[s[i]] >= 2;
    }
  }

  lemma {:induction false} CountInDistinct(s: seq<Addr>, a: Addr)
    requires NoDuplicates(s)
    ensures multiset(s)[a] == if a in s then 1 else 0
  {
    if s != [] {
      assert s == [s[0]] + s[1..];
      CountInDistinct(s[1..], a);
      assert multiset(s)[a] == (if s[0] == a then 1 else 0) + multiset(s[1..])[a];
    }
  }

  /** With distinct lists a removal fails exactly when a listed address is not queued. */
  lemma {:induction false} RemoveAllIff(l: Lists, addrs: seq<Addr>)
    requires NoDuplicates(l.whitelist)
    ensures RemoveAll(l, addrs).Some? <==> forall a :: a in addrs && a in l.whitelist ==> a in l.queue
    decreases |addrs|
  {
    if addrs != [] {
      var b := addrs[0];
      assert addrs == [b] + addrs[1..];
      if b !in l.whitelist {
        RemoveAllIff(l, addrs[1..]);
      } else if b in l.queue {
        var w := SwapRemove(l.whitelist, IndexOf(l.whitelist, b));
        forall x ensures (x in w <==> x in l.whitelist && x != b) && multiset(w)[x] <= 1 {
          CountOfDistinct(l.whitelist, x);
          assert x in w <==> multiset(w)[x] > 0;
        }
        CountOfDistinct(w, b);
        WithoutMembers(l.queue, b);
        RemoveAllIff(Lists(w, Without(l.queue, b), l.added), addrs[1..]);
      }
    }
  }

  // ---------- Additions ----------

  /**
   An addition appends the same addresses to both lists: each of the given ones that was not
   listed, once; the counter counts them.
   */
  lemma {:induction false} AddAllAppends(l: Lists, addrs: seq<Addr>, contracts: set<Addr>) returns (appended: seq<Addr>)
    requires AddAll(l, addrs, contracts).Some?
    ensures AddAll(l, addrs, contracts) == Some(Lists(l.whitelist + appended, l.queue + appended, l.added + |appended|))
    ensures NoDuplicates(appended)
    ensures forall a :: a in appended <==> a in addrs && a !in l.whitelist
    decreases |addrs|
  {
    appended := [];
    if addrs == [] {
      assert l.whitelist + [] == l.whitelist && l.queue + [] == l.queue;
    } else {
      var b := addrs[0];
      assert addrs == [b] + addrs[1..];
      if b in l.whitelist {
        appended := AddAllAppends(l, addrs[1..], contracts);
      } else {
        var rest := AddAllAppends(Lists(l.whitelist + [b], l.queue + [b], l.added + 1), addrs[1..], contracts);
        appended := [b] + rest;
        PrependNoDuplicates(b, rest);
        assert l.whitelist + [b] + rest == l.whitelist + appended;
        assert l.queue + [b] + rest == l.queue + appended;
      }
    }
  }

  /** The addresses an addition would append. */
  ghost function NewIn(addrs: seq<Addr>, whitelist: seq<Addr>): set<Addr> {
    set a | a in addrs && a !in whitelist
  }

  /** An addition fails exactly for an unlisted address that is no contract, or when the counter would overflow. */
  lemma {:induction false} AddAllIff(l: Lists, addrs: seq<Addr>, contracts: set<Addr>)
    requires l.added <= U64_MAX
    ensures AddAll(l, addrs, contracts).Some? <==>
            NewIn(addrs, l.whitelist) <= contracts && l.added + |NewIn(addrs, l.whitelist)| <= U64_MAX
    decreases |addrs|
  {
    var all := NewIn(addrs, l.whitelist);
    if addrs == [] {
      assert all == {};
    } else {
      var b := addrs[0];
      assert addrs == [b] + addrs[1..];
      if b in l.whitelist {
        assert NewIn(addrs[1..], l.whitelist) == all;
        AddAllIff(l, addrs[1..], contracts);
      } else {
        assert b in all;
        assert NewIn(addrs[1..], l.whitelist + [b]) == all - {b};
        if l.added < U64_MAX {
          AddAllIff(Lists(l.whitelist + [b], l.queue + [b], l.added + 1), addrs[1..], contracts);
        }
      }
    }
  }

  // ---------- ManageWhitelist as a whole ----------

  /** Who is listed how often afterwards, for any whitelist. */
  lemma ManageCounts(s: State, e: Event, a: Addr)
    requires e.ManageWhitelist? && Handle(s, e).Some?
    ensures var (m, k) := (multiset(s.whitelist)[a], multiset(Listed(e.remove))[a]);
            multiset(After(s, e).whitelist)[a] ==
            if m > k then m - k else if a in Listed(e.add) then 1 else 0
  {
    var l := Lists(s.whitelist, s.queue, s.added);
    RemoveAllCounts(l, Listed(e.remove), a);
    var l1 := RemoveAll(l, Listed(e.remove)).value;
    var appended := AddAllAppends(l1, Listed(e.add), e.contracts);
    CountInDistinct(appended, a);
    assert multiset(l1.whitelist + appended) == multiset(l1.whitelist) + multiset(appended);
    assert a in l1.whitelist <==> a in multiset(l1.whitelist);
  }

  /**
   For a duplicate-free whitelist: listed afterwards are exactly those who are added, or were
   listed and are not removed; and it stays duplicate-free.
   */
  lemma ManageLists(s: State, e: Event)
    requires e.ManageWhitelist? && Handle(s, e).Some? && NoDuplicates(s.whitelist)
    ensures NoDuplicates(After(s, e).whitelist)
    ensures forall a :: a in After(s, e).whitelist <==>
              a in Listed(e.add) || (a in s.whitelist && a !in Listed(e.remove))
  {
    var w := After(s, e).whitelist;
    forall a
      ensures a in w <==> a in Listed(e.add) || (a in s.whitelist && a !in Listed(e.remove))
      ensures multiset(w)[a] <= 1
    {
      ManageCounts(s, e, a);
      CountOfDistinct(s.whitelist, a);
      assert a in w <==> a in multiset(w);
      assert a in Listed(e.remove) <==> a in multiset(Listed(e.remove));
    }
    CountOfDistinct(w, "");
  }

  /**
   Queued afterwards are exactly those who are newly listed, or were queued and are not removed
   from the whitelist; they all stand behind the others.
   */
  lemma ManageQueues(s: State, e: Event, a: Addr)
    requires e.ManageWhitelist? && Handle(s, e).Some? && NoDuplicates(s.whitelist)
    ensures a in After(s, e).queue <==>
            || (a in s.queue && !(a in s.whitelist && a in Listed(e.remove)))
            || (a in Listed(e.add) && !(a in s.whitelist && a !in Listed(e.remove)))
    ensures After(s, e).paused == s.paused
  {
    var l := Lists(s.whitelist, s.queue, s.added);
    RemoveAllQueue(l, Listed(e.remove), a);
    RemoveAllCounts(l, Listed(e.remove), a);
    var l1 := RemoveAll(l, Listed(e.remove)).value;
    var appended := AddAllAppends(l1, Listed(e.add), e.contracts);
    CountOfDistinct(s.whitelist, a);
    assert a in l1.whitelist <==> a in multiset(l1.whitelist);
    assert a in Listed(e.remove) <==> a in multiset(Listed(e.remove));
  }

  /** Exactly when the message is accepted, for a duplicate-free whitelist. */
  lemma ManageAcceptedIff(s: State, e: Event)
    requires e.ManageWhitelist? && NoDuplicates(s.whitelist) && s.added <= U64_MAX
    ensures var added := set a | a in Listed(e.add) && !(a in s.whitelist && a !in Listed(e.remove));
            Handle(s, e).Some? <==>
            && (e.add.Some? || e.remove.Some?)
            && (forall a :: a in Listed(e.remove) && a in s.whitelist ==> a in s.queue)
            && added <= e.contracts && s.added + |added| <= U64_MAX
  {
    var l := Lists(s.whitelist, s.queue, s.added);
    var added := set a | a in Listed(e.add) && !(a in s.whitelist && a !in Listed(e.remove));
    RemoveAllIff(l, Listed(e.remove));
    if RemoveAll(l, Listed(e.remove)).Some? {
      var l1 := RemoveAll(l, Listed(e.remove)).value;
      RemoveAllQueue(l, Listed(e.remove), "");
      forall a ensures a in l1.whitelist <==> a in s.whitelist && a !in Listed(e.remove) {
        RemoveAllCounts(l, Listed(e.remove), a);
        CountOfDistinct(s.whitelist, a);
        assert a in l1.whitelist <==> a in multiset(l1.whitelist);
        assert a in Listed(e.remove) <==> a in multiset(Listed(e.remove));
      }
      assert NewIn(Listed(e.add), l1.whitelist) == added;
      AddAllIff(l1, Listed(e.add), e.contracts);
    }
  }

  // ---------- Staying out and coming back ----------

  predicate Adds(e: Event, a: Addr) {
    e.ManageWhitelist? && a in Listed(e.add)
  }

  /** Neither listed nor queued. */
  predicate Out(s: State, a: Addr) {
    a !in s.whitelist && a !in s.queue
  }

  lemma OutStep(s: State, e: Event, a: Addr)
    requires Out(s, a) && !Adds(e, a)
    ensures Out(After(s, e), a)
    ensures Handle(s, e).Some? ==> a !in Handle(s, e).value.dispatched
    ensures e.Enqueue? && e.sender == a ==> Handle(s, e).None?
  {
    if Handle(s, e).Some? {
      match e
      case Tick =>
      case Enqueue(_, _) =>
      case Dequeue(b) => WithoutMembers(s.queue, b);
      case Pause =>
      case Unpause =>
      case ManageWhitelist(_, _, _) =>
        ManageCounts(s, e, a);
        assert multiset(s.whitelist)[a] == 0;
        assert multiset(After(s, e).whitelist)[a] == 0;
        assert a !in After(s, e).whitelist;
        var l := Lists(s.whitelist, s.queue, s.added);
        RemoveAllQueue(l, Listed(e.remove), a);
        var _ := AddAllAppends(RemoveAll(l, Listed(e.remove)).value, Listed(e.add), e.contracts);
    }
  }

  /** In every run in which nobody adds it, an address that is out stays out and is never dispatched. */
  lemma {:induction false} OutStaysOut(s: State, es: seq<Event>, a: Addr)
    requires Out(s, a) && forall e :: e in es ==> !Adds(e, a)
    ensures Out(Run(s, es).state, a) && a !in Run(s, es).dispatched
    ensures forall c :: Handle(Run(s, es).state, Enqueue(a, c)).None?
    decreases |es|
  {
    if es == [] {
      forall c ensures Handle(s, Enqueue(a, c)).None? {
        OutStep(s, Enqueue(a, c), a);
      }
    } else {
      OutStep(s, es[0], a);
      OutStaysOut(After(s, es[0]), es[1..], a);
    }
  }

  /**
   Removing a listed address from a duplicate-free whitelist is final: until somebody adds it
   again it can neither enqueue itself nor be dispatched, in any run.
   */
  lemma RemovedStaysOut(s: State, e: Event, es: seq<Event>, a: Addr)
    requires e.ManageWhitelist? && Handle(s, e).Some? && NoDuplicates(s.whitelist)
    requires a in s.whitelist && a in Listed(e.remove) && !Adds(e, a)
    requires forall x :: x in es ==> !Adds(x, a)
    ensures Out(After(s, e), a)
    ensures a !in Run(After(s, e), es).dispatched
    ensures forall c :: Handle(Run(After(s, e), es).state, Enqueue(a, c)).None?
  {
    ManageLists(s, e);
    ManageQueues(s, e, a);
    OutStaysOut(After(s, e), es, a);
  }

  /** Exactly when the clock accepts a message of a receiver, and a tick. */
  lemma ReceiverAcceptedIff(s: State, a: Addr, isContract: bool)
    requires s.added < U64_MAX
    ensures Handle(s, Tick).Some? <==> !s.paused
    ensures Handle(s, Dequeue(a)).Some? <==> !s.paused && a in s.queue
    ensures Handle(s, Enqueue(a, isContract)).Some? <==> !s.paused && !(a in s.queue) && a in s.whitelist && isContract
  {
  }

  /** A listed contract that leaves the queue may come back, at its end; in between it cannot leave again. */
  lemma LeavesAndReturns(s: State, a: Addr)
    requires !s.paused && a in s.queue && a in s.whitelist && s.added < U64_MAX
    ensures var t := After(s, Dequeue(a));
            && a !in t.queue && Handle(t, Dequeue(a)).None?
            && Run(t, [Enqueue(a, true)]).state.queue == t.queue + [a]
            && (forall x :: x != a ==> (x in t.queue <==> x in s.queue))
            && Handle(After(t, Enqueue(a, true)), Enqueue(a, true)).None?
  {
    WithoutMembers(s.queue, a);
    RunOne(After(s, Dequeue(a)), Enqueue(a, true));
  }

  // ---------- Pausing ----------

  /** While the clock is paused nothing is dispatched, in any run, and only ManageWhitelist changes a list. */
  lemma {:induction false} PausedDispatchesNothing(s: State, es: seq<Event>)
    requires s.paused && Unpause !in es
    ensures Run(s, es).dispatched == [] && Run(s, es).state.paused
    ensures (forall e :: e in es ==> !e.ManageWhitelist?) ==> Run(s, es).state == s
    decreases |es|
  {
    if es != [] {
      PausedDispatchesNothing(After(s, es[0]), es[1..]);
    }
  }

  /** Pausing is undone by resuming. */
  lemma PauseRoundTrip(s: State)
    requires !s.paused
    ensures Handle(s, Pause).Some? && Handle(s, Unpause).None?
    ensures Run(s, [Pause, Unpause]).state == s
  {
    assert [Pause, Unpause][1..] == [Unpause];
    RunOne(After(s, Pause), Unpause);
  }
}
