/**
 The clock contract (contracts/clock/src/contract.rs): a scheduler that rotates a FIFO queue,
 dispatching one receiver per tick.
 */
module Clock {
  import opened Base
  import opened Fifo

  /** The clock as the chain sees it between two messages. */
  datatype State = State(queue: seq<Addr>, added: nat, paused: bool, whitelist: seq<Addr>)

  datatype Event =
    | Tick
    | Enqueue(sender: Addr, isContract: bool)
    | Dequeue(sender: Addr)
    | Pause
    | Unpause
    | ManageWhitelist(add: Option<seq<Addr>>, remove: Option<seq<Addr>>, contracts: set<Addr>)

  /** A message that succeeded: the new state and the receiver dispatched, if any. */
  datatype Done = Done(state: State, dispatched: seq<Addr>)

  // ---------- What each message does ----------

  function IndexOf(s: seq<Addr>, a: Addr): (i: nat)
    requires a in s
    ensures i < |s| && s[i] == a && a !in s[..i]
  {
    if s[0] == a then 0 else 1 + IndexOf(s[1..], a)
  }

  /** Vec::swap_remove */
  function SwapRemove(s: seq<Addr>, i: nat): (r: seq<Addr>)
    requires i < |s|
    ensures multiset(r) == multiset(s) - multiset{s[i]}
    ensures |r| == |s| - 1 && forall j :: 0 <= j < |r| ==> r[j] == s[if j == i then |s| - 1 else j]
  {
    var last := s[|s| - 1];
    assert s == s[..|s| - 1] + [last];
    if i == |s| - 1 then s[..i]
    else
      assert s[..|s| - 1] == s[..i] + ([s[i]] + s[i + 1..|s| - 1]);
      assert s[..|s| - 1][i := last] == s[..i] + ([last] + s[i + 1..|s| - 1]);
      s[..|s| - 1][i := last]
  }

  datatype Lists = Lists(whitelist: seq<Addr>, queue: seq<Addr>, added: nat)

  /** The removal loop: a listed address that is not queued is an error. */
  function RemoveAll(l: Lists, addrs: seq<Addr>): Option<Lists>
    decreases |addrs|
  {
    if addrs == [] then Some(l)
    else
      var a := addrs[0];
      if a !in l.whitelist then RemoveAll(l, addrs[1..])
      else if a !in l.queue then None
      else RemoveAll(Lists(SwapRemove(l.whitelist, IndexOf(l.whitelist, a)), Without(l.queue, a), l.added), addrs[1..])
  }

  /** The addition loop: whoever is not yet listed is appended to both lists. */
  function AddAll(l: Lists, addrs: seq<Addr>, contracts: set<Addr>): Option<Lists>
    decreases |addrs|
  {
    if addrs == [] then Some(l)
    else
      var a := addrs[0];
      if a in l.whitelist then AddAll(l, addrs[1..], contracts)
      else if a !in contracts || l.added >= U64_MAX then None
      else AddAll(Lists(l.whitelist + [a], l.queue + [a], l.added + 1), addrs[1..], contracts)
  }

  function Listed(addrs: Option<seq<Addr>>): seq<Addr> {
    if addrs.Some? then addrs.value else []
  }

  function Manage(l: Lists, e: Event): Option<Lists>
    requires e.ManageWhitelist?
  {
    if e.add.None? && e.remove.None? then None
    else
      match RemoveAll(l, Listed(e.remove))
      case None => None
      case Some(l1) => AddAll(l1, Listed(e.add), e.contracts)
  }

  /** One message; None stands for an error, which changes nothing. */
  function Handle(s: State, e: Event): Option<Done> {
    match e
    case Tick =>
      if s.paused then None
      else if s.queue == [] then Some(Done(s, []))
      else if s.added >= U64_MAX then None
      else Some(Done(s.(queue := s.queue[1..] + [s.queue[0]], added := s.added + 1), [s.queue[0]]))
    case Enqueue(a, isContract) =>
      if s.paused || a in s.queue || a !in s.whitelist || !isContract || s.added >= U64_MAX then None
      else Some(Done(s.(queue := s.queue + [a], added := s.added + 1), []))
    case Dequeue(a) =>
      if s.paused || a !in s.queue then None
      else Some(Done(s.(queue := Without(s.queue, a)), []))
    case Pause => if s.paused then None else Some(Done(s.(paused := true), []))
    case Unpause => if !s.paused then None else Some(Done(s.(paused := false), []))
    case ManageWhitelist(_, _, _) =>
      match Manage(Lists(s.whitelist, s.queue, s.added), e)
      case None => None
      case Some(l) => Some(Done(State(l.queue, l.added, s.paused, l.whitelist), []))
  }

  // ---------- The gas limit of a tick ----------

  const MIN_TICK_MAX_GAS: nat := 200_000
  const DEFAULT_TICK_MAX_GAS: nat := 2_900_000
  const MAX_TICK_MAX_GAS: nat := 3_000_000

  function ClampGas(gas: nat): nat {
    var atLeast := if gas < MIN_TICK_MAX_GAS then MIN_TICK_MAX_GAS else gas;
    if atLeast > MAX_TICK_MAX_GAS then MAX_TICK_MAX_GAS else atLeast
  }

  /** The value in the allowed range that is nearest to the requested one. */
  ghost predicate GasWithinLimits(gas: nat, requested: Option<nat>) {
    && MIN_TICK_MAX_GAS <= gas <= MAX_TICK_MAX_GAS
    && match requested
       case None => gas == DEFAULT_TICK_MAX_GAS
       case Some(g) =>
         && (g < gas ==> gas == MIN_TICK_MAX_GAS)
         && (gas < g ==> gas == MAX_TICK_MAX_GAS)
  }

  // ---------- The contract ----------

  class Contract {
    const queue: FIFOQueue<Addr>
    var paused: bool
    var whitelist: seq<Addr>
    var tickMaxGas: nat

    ghost predicate Valid()
      reads this, queue, queue.mapping, queue.mapping.forward, queue.mapping.backward
    {
      queue.Valid()
    }

    ghost function View(): State
      reads this, queue, queue.mapping, queue.mapping.forward
    {
      State(queue.Contents(), queue.itemCount, paused, whitelist)
    }

    constructor (queue: FIFOQueue<Addr>, whitelist: seq<Addr>, tickMaxGas: nat)
      ensures this.queue == queue && this.whitelist == whitelist && this.tickMaxGas == tickMaxGas && !paused
    {
      this.queue := queue;
      this.whitelist := whitelist;
      this.tickMaxGas := tickMaxGas;
      this.paused := false;
    }

    /**
     Fails exactly when the chain does not accept an address (or the counter overflows).
     The stored index is intact after instantiation exactly when the initial queue names
     nobody twice: the contract does not check it.
     */
    static method Instantiate(whitelist: seq<Addr>, initialQueue: seq<Addr>, valid: set<Addr>,
                              requestedGas: Option<nat>)
      returns (r: Option<Contract>)
      ensures r.Some? <==>
              && (forall a :: a in whitelist || a in initialQueue ==> a in valid)
              && |initialQueue| <= U64_MAX
      ensures r.Some? ==>
                && fresh(r.value)
                && r.value.View() == State(initialQueue, |initialQueue|, false, whitelist)
                && (r.value.Valid() <==> NoDuplicates(initialQueue))
                && GasWithinLimits(r.value.tickMaxGas, requestedGas)
    {
      var gas := if requestedGas.Some? then ClampGas(requestedGas.value) else DEFAULT_TICK_MAX_GAS;
      if exists a :: a in whitelist && a !in valid {
        return None;
      }
      if exists a :: a in initialQueue && a !in valid {
        return None;
      }
      var q := new FIFOQueue<Addr>();
      var i := 0;
      while i < |initialQueue|
        invariant 0 <= i <= |initialQueue| && i <= U64_MAX
        invariant fresh(q) && fresh(q.mapping.forward) && fresh(q.mapping.backward)
        invariant q.WellKeyed() && q.itemCount == i && q.Contents() == initialQueue[..i]
        invariant NoDuplicates(initialQueue[..i]) ==> q.Valid()
      {
        assert initialQueue[..i + 1] == initialQueue[..i] + [initialQueue[i]];
        ghost var prefix := initialQueue[..i];
        assert NoDuplicates(initialQueue[..i + 1]) ==> NoDuplicates(prefix) && initialQueue[i] !in prefix by {
          assert forall j :: 0 <= j < i ==> initialQueue[..i + 1][j] == prefix[j];
          assert initialQueue[..i + 1][i] == initialQueue[i];
        }
        var ok := q.Enqueue(initialQueue[i]);
        if !ok {
          return None;
        }
        i := i + 1;
      }
      assert initialQueue[..i] == initialQueue;
      ghost var front, back := q.mapping.forward.entries, q.mapping.backward.entries;
      if !NoDuplicates(initialQueue) {
        DuplicatesBreakTheIndex(front, back, q.itemCount);
      }
      var c := new Contract(q, whitelist, gas);
      r := Some(c);
    }

    /** Undoes the storage writes of a failed message. */
    method Rollback(front: map<nat, Addr>, back: map<Addr, nat>, count: nat)
      modifies queue, queue.mapping.forward, queue.mapping.backward
      ensures queue.mapping.forward.entries == front
      ensures queue.mapping.backward.entries == back
      ensures queue.itemCount == count
    {
      queue.mapping.forward.entries := front;
      queue.mapping.backward.entries := back;
      queue.itemCount := count;
    }

    method ExecuteTick() returns (ok: bool, dispatched: seq<Addr>)
      requires queue.WellKeyed()
      modifies queue, queue.mapping.forward, queue.mapping.backward
      ensures queue.WellKeyed() && (old(Valid()) ==> Valid())
      ensures Handle(old(View()), Tick) == if ok then Some(Done(View(), dispatched)) else None
      ensures !ok ==> View() == old(View())
    {
      dispatched := [];
      if paused {
        return false, [];
      }
      var front, back, count := queue.mapping.forward.entries, queue.mapping.backward.entries, queue.itemCount;
      var receiver := queue.Dequeue();
      if receiver.None? {
        return true, [];
      }
      ok := queue.Enqueue(receiver.value);
      if !ok {
        Rollback(front, back, count);
        return false, [];
      }
      dispatched := [receiver.value];
    }

    method ExecuteEnqueue(sender: Addr, isContract: bool) returns (ok: bool)
      requires Valid()
      modifies queue, queue.mapping.forward, queue.mapping.backward
      ensures Valid()
      ensures Handle(old(View()), Enqueue(sender, isContract)) == if ok then Some(Done(View(), [])) else None
      ensures !ok ==> View() == old(View())
    {
      if paused {
        return false;
      }
      var queued := queue.Has(sender);
      if queued || sender !in whitelist || !isContract {
        return false;
      }
      ok := queue.Enqueue(sender);
    }

    method ExecuteDequeue(sender: Addr) returns (ok: bool)
      requires Valid()
      modifies queue, queue.mapping.forward, queue.mapping.backward
      ensures Valid()
      ensures Handle(old(View()), Dequeue(sender)) == if ok then Some(Done(View(), [])) else None
      ensures !ok ==> View() == old(View())
    {
      if paused {
        return false;
      }
      ghost var before := queue.Contents();
      ok := queue.Remove(sender);
      if !ok {
        WithoutAbsent(before, sender);
      }
    }

    method MigratePause(pause: bool) returns (ok: bool)
      modifies this`paused
      ensures Handle(old(View()), if pause then Pause else Unpause) == if ok then Some(Done(View(), [])) else None
      ensures !ok ==> View() == old(View())
    {
      ok := paused != pause;
      paused := pause;
    }

    /** A limit of zero is an error; any other is brought within the limits. */
    method MigrateTickMaxGas(newValue: nat) returns (ok: bool)
      modifies this`tickMaxGas
      ensures ok == (newValue != 0)
      ensures ok ==> GasWithinLimits(tickMaxGas, Some(newValue))
      ensures !ok ==> tickMaxGas == old(tickMaxGas)
    {
      if newValue == 0 {
        return false;
      }
      tickMaxGas := ClampGas(newValue);
      ok := true;
    }

    /**
     The two loops of ManageWhitelist. The index survives exactly when the resulting queue
     names nobody twice: the addition loop does not check whether an address is queued.
     */
    method MigrateManageWhitelist(add: Option<seq<Addr>>, remove: Option<seq<Addr>>, contracts: set<Addr>)
      returns (ok: bool)
      requires Valid()
      modifies this`whitelist, queue, queue.mapping.forward, queue.mapping.backward
      ensures Handle(old(View()), ManageWhitelist(add, remove, contracts))
              == if ok then Some(Done(View(), [])) else None
      ensures !ok ==> View() == old(View())
      ensures Valid() <==> NoDuplicates(View().queue)
    {
      var front, back, count := queue.mapping.forward.entries, queue.mapping.backward.entries, queue.itemCount;
      InOrderNoDuplicates(front, back, count);
      if add.None? && remove.None? {
        return false;
      }
      var w, removed := RemoveLoop(whitelist, Listed(remove));
      if !removed {
        Rollback(front, back, count);
        return false;
      }
      assert queue.Valid();
      var added;
      w, added := AddLoop(w, Listed(add), contracts);
      if !added {
        Rollback(front, back, count);
        return false;
      }
      whitelist := w;
      ok := true;
    }

    method RemoveLoop(initial: seq<Addr>, addrs: seq<Addr>) returns (w: seq<Addr>, ok: bool)
      requires Valid()
      modifies queue, queue.mapping.forward, queue.mapping.backward
      ensures Valid()
      ensures RemoveAll(Lists(initial, old(queue.Contents()), old(queue.itemCount)), addrs)
              == if ok then Some(Lists(w, queue.Contents(), queue.itemCount)) else None
    {
      w := initial;
      ghost var goal := RemoveAll(Lists(initial, queue.Contents(), queue.itemCount), addrs);
      var i := 0;
      while i < |addrs|
        invariant 0 <= i <= |addrs|
        invariant Valid()
        invariant RemoveAll(Lists(w, queue.Contents(), queue.itemCount), addrs[i..]) == goal
      {
        assert addrs[i..][1..] == addrs[i + 1..];
        if addrs[i] in w {
          var index := IndexOf(w, addrs[i]);
          ok := queue.Remove(w[index]);
          if !ok {
            return;
          }
          w := SwapRemove(w, index);
        }
        i := i + 1;
      }
      ok := true;
    }

    method AddLoop(initial: seq<Addr>, addrs: seq<Addr>, contracts: set<Addr>) returns (w: seq<Addr>, ok: bool)
      requires Valid()
      modifies queue, queue.mapping.forward, queue.mapping.backward
      ensures queue.WellKeyed()
      ensures AddAll(Lists(initial, old(queue.Contents()), old(queue.itemCount)), addrs, contracts)
              == if ok then Some(Lists(w, queue.Contents(), queue.itemCount)) else None
      ensures Valid() <==> NoDuplicates(queue.Contents())
    {
      w := initial;
      ghost var goal := AddAll(Lists(initial, queue.Contents(), queue.itemCount), addrs, contracts);
      InOrderNoDuplicates(queue.mapping.forward.entries, queue.mapping.backward.entries, queue.itemCount);
      var i := 0;
      while i < |addrs|
        invariant 0 <= i <= |addrs|
        invariant queue.WellKeyed()
        invariant Valid() <==> NoDuplicates(queue.Contents())
        invariant AddAll(Lists(w, queue.Contents(), queue.itemCount), addrs[i..], contracts) == goal
      {
        assert addrs[i..][1..] == addrs[i + 1..];
        if addrs[i] !in w {
          if addrs[i] !in contracts {
            ok := false;
            return;
          }
          ghost var before := queue.Contents();
          ok := queue.Enqueue(addrs[i]);
          if !ok {
            assert queue.Contents() == before;
            return;
          }
          AppendNoDuplicates(before, addrs[i]);
          if !NoDuplicates(queue.Contents()) {
            DuplicatesBreakTheIndex(queue.mapping.forward.entries, queue.mapping.backward.entries, queue.itemCount);
          }
          w := w + [addrs[i]];
        }
        i := i + 1;
      }
      ok := true;
    }
  }

  lemma AppendNoDuplicates<T>(s: seq<T>, t: T)
    ensures NoDuplicates(s + [t]) <==> NoDuplicates(s) && t !in s
  {
    var u := s + [t];
    assert forall i :: 0 <= i < |s| ==> u[i] == s[i];
    assert u[|s|] == t;
  }
}
