/**
 The queue of packages/cw-fifo: two mutually inverse storage maps and a counter of every
 element ever added, and the plain sequence they stand for.
 */
module Fifo {
  import opened Base

  const U64_MAX: nat := 0xFFFF_FFFF_FFFF_FFFF

  // ---------- The sequence behind the maps ----------

  /** The values stored below key n, in key order. */
  function InOrder<T>(front: map<nat, T>, n: nat): seq<T> {
    if n == 0 then []
    else InOrder(front, n - 1) + if n - 1 in front then [front[n - 1]] else []
  }

  ghost predicate MutuallyInverse<A, B>(front: map<A, B>, back: map<B, A>) {
    && (forall k :: k in front ==> front[k] in back && back[front[k]] == k)
    && (forall v :: v in back ==> back[v] in front && front[back[v]] == v)
  }

  ghost predicate KeysBelow<T>(front: map<nat, T>, n: nat) {
    forall k :: k in front ==> k < n
  }

  /** Order-preserving deletion of every occurrence of t. */
  function Without<T(==)>(s: seq<T>, t: T): seq<T> {
    if s == [] then []
    else (if s[0] == t then [] else [s[0]]) + Without(s[1..], t)
  }

  lemma {:induction false} WithoutConcat<T>(s: seq<T>, u: seq<T>, t: T)
    ensures Without(s + u, t) == Without(s, t) + Without(u, t)
  {
    if s == [] {
      assert s + u == u;
    } else {
      assert (s + u)[1..] == s[1..] + u;
      WithoutConcat(s[1..], u, t);
    }
  }

  lemma {:induction false} WithoutAbsent<T>(s: seq<T>, t: T)
    requires t !in s
    ensures Without(s, t) == s
  {
    if s != [] {
      WithoutAbsent(s[1..], t);
      assert s == [s[0]] + s[1..];
    }
  }

  lemma WithoutMiddle<T>(l: seq<T>, t: T, r: seq<T>)
    requires t !in l && t !in r
    ensures Without(l + ([t] + r), t) == l + r
  {
    WithoutConcat(l, [t] + r, t);
    WithoutAbsent(l, t);
    WithoutAbsent(r, t);
    var u := [t] + r;
    assert u[1..] == r && u[0] == t;
    assert Without(u, t) == [] + Without(r, t);
    assert [] + r == r;
  }

  /** Deleting the element at position p of a duplicate-free sequence cuts out that position. */
  lemma WithoutAt<T>(s: seq<T>, p: nat)
    requires p < |s| && NoDuplicates(s)
    ensures Without(s, s[p]) == s[..p] + s[p + 1..]
  {
    assert s == s[..p] + ([s[p]] + s[p + 1..]);
    WithoutMiddle(s[..p], s[p], s[p + 1..]);
  }

  lemma {:induction false} InOrderMembers<T>(front: map<nat, T>, n: nat, t: T)
    ensures t in InOrder(front, n) <==> exists k :: k in front && k < n && front[k] == t
  {
    if n > 0 {
      InOrderMembers(front, n - 1, t);
      assert t in InOrder(front, n) <==> t in InOrder(front, n - 1) || (n - 1 in front && front[n - 1] == t);
    }
  }

  lemma {:induction false} InOrderNoDuplicates<T>(front: map<nat, T>, back: map<T, nat>, n: nat)
    requires MutuallyInverse(front, back)
    ensures NoDuplicates(InOrder(front, n))
  {
    if n > 0 {
      InOrderNoDuplicates(front, back, n - 1);
      if n - 1 in front {
        InOrderMembers(front, n - 1, front[n - 1]);
      }
    }
  }

  /** The sequence depends only on the entries below the bound. */
  lemma {:induction false} InOrderFrame<T>(f: map<nat, T>, g: map<nat, T>, n: nat)
    requires forall k :: k < n ==> (k in f <==> k in g) && (k in f ==> f[k] == g[k])
    ensures InOrder(f, n) == InOrder(g, n)
  {
    if n > 0 {
      InOrderFrame(f, g, n - 1);
    }
  }

  /** Removing one key of an injective map deletes its value from the sequence. */
  lemma {:induction false} InOrderRemove<T>(front: map<nat, T>, back: map<T, nat>, n: nat, k: nat)
    requires MutuallyInverse(front, back) && k in front
    ensures InOrder(front - {k}, n) == Without(InOrder(front, n), front[k])
  {
    if n > 0 {
      InOrderRemove(front, back, n - 1, k);
      var last := if n - 1 in front then [front[n - 1]] else [];
      WithoutConcat(InOrder(front, n - 1), last, front[k]);
      assert n - 1 in front ==> last[1..] == [];
      assert n - 1 in front ==> (front[n - 1] == front[k] <==> n - 1 == k);
    }
  }

  /** The smallest key holds the head of the sequence, and removing it leaves the rest. */
  lemma {:induction false} InOrderRemoveLeast<T>(front: map<nat, T>, n: nat, k: nat)
    requires k in front && k < n
    requires forall j :: j in front ==> k <= j
    ensures |InOrder(front, n)| > 0 && InOrder(front, n)[0] == front[k]
    ensures InOrder(front - {k}, n) == InOrder(front, n)[1..]
  {
    if n - 1 == k {
      InOrderEmpty(front, k);
      InOrderEmpty(front - {k}, k);
    } else {
      InOrderRemoveLeast(front, n - 1, k);
    }
  }

  lemma {:induction false} InOrderEmpty<T>(front: map<nat, T>, n: nat)
    ensures InOrder(front, n) == [] <==> forall k :: k in front ==> n <= k
  {
    if n > 0 {
      InOrderEmpty(front, n - 1);
    }
  }

  // ---------- The storage ----------

  /** One cw-storage-plus `Map`: a namespace of the contract's storage. */
  class Namespace<K(==), V> {
    var entries: map<K, V>

    constructor ()
      ensures entries == map[]
    {
      entries := map[];
    }
  }

  /** A bidirectional map over two namespaces (packages/cw-fifo/src/reversable_map.rs). */
  class ReversableMap<A(==), B(==)> {
    const forward: Namespace<A, B>
    const backward: Namespace<B, A>

    constructor (forward: Namespace<A, B>, backward: Namespace<B, A>)
      ensures this.forward == forward && this.backward == backward
    {
      this.forward := forward;
      this.backward := backward;
    }

    /** The same two namespaces with the roles exchanged. */
    method Reverse() returns (r: ReversableMap<B, A>)
      ensures fresh(r) && r.forward == backward && r.backward == forward
    {
      r := new ReversableMap(backward, forward);
    }

    /** Removes the key and the entry of its value; an absent key is an error. */
    method Remove(k: A) returns (ok: bool)
      requires forward as object != backward
      modifies forward, backward
      ensures ok == (k in old(forward.entries))
      ensures ok ==> forward.entries == old(forward.entries) - {k}
      ensures ok ==> backward.entries == old(backward.entries) - {old(forward.entries)[k]}
      ensures !ok ==> forward.entries == old(forward.entries) && backward.entries == old(backward.entries)
    {
      if k !in forward.entries {
        return false;
      }
      var mapping := forward.entries[k];
      backward.entries := backward.entries - {mapping};
      forward.entries := forward.entries - {k};
      ok := true;
    }

    /** Cleans up the old value of the key, but not an old key of the value. */
    method Save(k: A, v: B)
      requires forward as object != backward
      modifies forward, backward
      ensures forward.entries == old(forward.entries)[k := v]
      ensures backward.entries ==
              (if k in old(forward.entries)
               then old(backward.entries) - {old(forward.entries)[k]}
               else old(backward.entries))[v := k]
    {
      if k in forward.entries {
        backward.entries := backward.entries - {forward.entries[k]};
      }
      forward.entries := forward.entries[k := v];
      backward.entries := backward.entries[v := k];
    }
  }

  class FIFOQueue<T(==)> {
    const mapping: ReversableMap<nat, T>
    var itemCount: nat

    /** What every call keeps, even an enqueue of a queued element: save never meets an old key. */
    ghost predicate WellKeyed()
      reads this, mapping, mapping.forward
    {
      && mapping.forward as object != mapping.backward
      && itemCount <= U64_MAX
      && KeysBelow(mapping.forward.entries, itemCount)
    }

    /** The index is intact: the two maps are mutually inverse. */
    ghost predicate Valid()
      reads this, mapping, mapping.forward, mapping.backward
    {
      WellKeyed() && MutuallyInverse(mapping.forward.entries, mapping.backward.entries)
    }

    /** The queue as a sequence, oldest first. */
    ghost function Contents(): (s: seq<T>)
      reads this, mapping, mapping.forward
    {
      InOrder(mapping.forward.entries, itemCount)
    }

    constructor ()
      ensures Valid() && Contents() == [] && itemCount == 0
      ensures fresh(mapping) && fresh(mapping.forward) && fresh(mapping.backward)
    {
      var f := new Namespace<nat, T>();
      var b := new Namespace<T, nat>();
      mapping := new ReversableMap(f, b);
      itemCount := 0;
    }

    /**
     Appends t; the counter's overflow aborts. The index stays intact exactly when t was not
     queued: the source leaves that check to its callers.
     */
    method Enqueue(t: T) returns (ok: bool)
      requires WellKeyed()
      modifies this, mapping.forward, mapping.backward
      ensures WellKeyed()
      ensures ok == (old(itemCount) < U64_MAX)
      ensures itemCount == old(itemCount) + if ok then 1 else 0
      ensures Contents() == old(Contents()) + if ok then [t] else []
      ensures !ok ==> (Valid() <==> old(Valid()))
      ensures ok && old(Valid()) ==> (Valid() <==> t !in old(Contents()))
    {
      if itemCount == U64_MAX {
        return false;
      }
      ghost var front, back, n := mapping.forward.entries, mapping.backward.entries, itemCount;
      mapping.Save(itemCount, t);
      itemCount := itemCount + 1;
      ok := true;
      EnqueueInOrder(front, n, t);
      if MutuallyInverse(front, back) {
        EnqueueKeepsInverseIff(front, back, n, t);
      }
    }

    /** Pops the element with the smallest key, even from a queue whose index is broken. */
    method Dequeue() returns (r: Option<T>)
      requires WellKeyed()
      modifies this, mapping.forward, mapping.backward
      ensures WellKeyed() && itemCount == old(itemCount)
      ensures old(Valid()) ==> Valid() && (r.Some? ==> r.value !in Contents())
      ensures old(Contents()) == [] ==> r == None && Contents() == []
      ensures old(Contents()) != [] ==> r == Some(old(Contents())[0]) && Contents() == old(Contents())[1..]
    {
      var front := mapping.forward.entries;
      InOrderEmpty(front, itemCount);
      if front.Keys == {} {
        return None;
      }
      var time := LeastKey(front);
      r := Some(front[time]);
      InOrderRemoveLeast(front, itemCount, time);
      if MutuallyInverse(front, mapping.backward.entries) {
        InOrderNoDuplicates(front, mapping.backward.entries, itemCount);
      }
      var _ := mapping.Remove(time);
    }

    /** Deletes t wherever it stands; an absent element is an error. */
    method Remove(t: T) returns (ok: bool)
      requires Valid()
      modifies this, mapping.forward, mapping.backward
      ensures Valid() && itemCount == old(itemCount)
      ensures ok == (t in old(Contents()))
      ensures Contents() == Without(old(Contents()), t)
    {
      ghost var front, back := mapping.forward.entries, mapping.backward.entries;
      InOrderMembers(front, itemCount, t);
      if t in back {
        InOrderRemove(front, back, itemCount, back[t]);
      } else {
        WithoutAbsent(InOrder(front, itemCount), t);
      }
      var reversed := mapping.Reverse();
      ok := reversed.Remove(t);
    }

    method Has(t: T) returns (b: bool)
      requires Valid()
      ensures b == (t in Contents())
    {
      InOrderMembers(mapping.forward.entries, itemCount, t);
      b := t in mapping.backward.entries;
    }
  }

  /** The first entry of an ascending range over the map. */
  method LeastKey<T>(front: map<nat, T>) returns (k: nat)
    requires front.Keys != {}
    ensures k in front && forall j :: j in front ==> k <= j
  {
    var rest := front.Keys;
    k :| k in rest;
    rest := rest - {k};
    while rest != {}
      invariant k in front && rest <= front.Keys
      invariant forall j :: j in front && j !in rest ==> k <= j
    {
      var j :| j in rest;
      if j < k {
        k := j;
      }
      rest := rest - {j};
    }
  }

  lemma EnqueueInOrder<T>(front: map<nat, T>, n: nat, t: T)
    requires KeysBelow(front, n)
    ensures InOrder(front[n := t], n + 1) == InOrder(front, n) + [t]
  {
    InOrderFrame(front[n := t], front, n);
  }

  /** Saving t under a fresh key keeps the maps inverse exactly when t was absent. */
  lemma EnqueueKeepsInverseIff<T>(front: map<nat, T>, back: map<T, nat>, n: nat, t: T)
    requires KeysBelow(front, n) && MutuallyInverse(front, back)
    ensures MutuallyInverse(front[n := t], back[t := n]) <==> t !in InOrder(front, n)
  {
    InOrderMembers(front, n, t);
    if t in back {
      var k := back[t];
      assert front[n := t][k] == t && back[t := n][t] != k;
    }
  }

  /** An element queued twice leaves the index broken, whatever the reverse map holds. */
  lemma DuplicatesBreakTheIndex<T>(front: map<nat, T>, back: map<T, nat>, n: nat)
    requires !NoDuplicates(InOrder(front, n))
    ensures !MutuallyInverse(front, back)
  {
    if MutuallyInverse(front, back) {
      InOrderNoDuplicates(front, back, n);
    }
  }
}
