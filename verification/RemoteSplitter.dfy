/** The fund split of the remote chain splitter (contracts/remote-chain-splitter/src/contract.rs). */
module RemoteSplitter {
  import opened Base
  import opened Decimals
  import opened Splits

  /** A multi-send with one input of `amount` from the contract's account. */
  datatype MultiSend = MultiSend(amount: nat, outputs: seq<Payment>)

  datatype Error = ForwarderNotReady | RatioError | Overflow

  function FloorShare(amount: nat, share: nat): nat {
    amount * share / ONE
  }

  function Allocated(s: Split, amount: nat): nat {
    if s == [] then 0 else FloorShare(amount, s[0].share) + Allocated(s[1..], amount)
  }

  lemma {:induction false} AllocatedConcat(s: Split, t: Split, amount: nat)
    ensures Allocated(s + t, amount) == Allocated(s, amount) + Allocated(t, amount)
  {
    if s == [] {
      assert s + t == t;
    } else {
      assert (s + t)[1..] == s[1..] + t;
      AllocatedConcat(s[1..], t, amount);
    }
  }

  /** The floors of all shares stay below the exact fraction. */
  lemma {:induction false} AllocatedBelowExact(s: Split, amount: nat)
    ensures Allocated(s, amount) * ONE <= amount * TotalShares(s)
  {
    if s == [] {
      MulDistributes(amount, 0, 0);
    } else {
      var x, t := s[0].share, TotalShares(s[1..]);
      AllocatedBelowExact(s[1..], amount);
      FloorBounds(amount * x, ONE);
      MulDistributes(amount, x, t);
      assert TotalShares(s) == x + t;
    }
  }

  /** Shares that sum to at most one never allocate more than the amount. */
  lemma AllocatedWithin(s: Split, amount: nat)
    requires TotalShares(s) <= ONE
    ensures Allocated(s, amount) <= amount
  {
    AllocatedBelowExact(s, amount);
    MulMonotone(TotalShares(s), ONE, amount);
    MulMonotone(amount + 1, Allocated(s, amount), ONE);
  }

  /** Every floor loses less than one unit. */
  lemma {:induction false} AllocatedAboveExact(s: Split, amount: nat)
    ensures amount * TotalShares(s) <= (Allocated(s, amount) + |s|) * ONE
    ensures s != [] ==> amount * TotalShares(s) < (Allocated(s, amount) + |s|) * ONE
  {
    if s == [] {
      MulDistributes(amount, 0, 0);
    } else {
      var x, t := s[0].share, TotalShares(s[1..]);
      AllocatedAboveExact(s[1..], amount);
      FloorBounds(amount * x, ONE);
      MulDistributes(amount, x, t);
    }
  }

  /** What is left over is less than one unit per receiver. */
  lemma LeftoverIsDust(s: Split, amount: nat)
    requires TotalShares(s) == ONE
    ensures Allocated(s, amount) <= amount < Allocated(s, amount) + |s|
  {
    AllocatedWithin(s, amount);
    AllocatedAboveExact(s, amount);
    MulMonotone(Allocated(s, amount) + |s|, amount, ONE);
  }

  /**
   try_split_funds for a created account. `forwarders` maps every receiver whose forwarder has
   its account to that account. For a validated split the subtraction of the allocated total
   never underflows, there is an output for every receiver, and the outputs sum exactly to the
   single input: the leftover goes to the first one.
   */
  method SplitFunds(s: Split, amount: nat, forwarders: map<Addr, Addr>) returns (r: Result<MultiSend, Error>)
    requires amount <= U128_MAX
    ensures r == Err(ForwarderNotReady) ==> exists i :: 0 <= i < |s| && s[i].addr !in forwarders
    ensures TotalShares(s) == ONE ==>
              (r.Ok? <==> forall i :: 0 <= i < |s| ==> s[i].addr in forwarders)
    ensures r.Ok? ==> r.value.amount == amount && |r.value.outputs| == |s|
    ensures r.Ok? && TotalShares(s) == ONE ==> r.value.outputs != []
    ensures r.Ok? && s != [] ==>
              && TotalPaid(r.value.outputs) == amount
              && (forall i :: 0 <= i < |s| ==>
                    && s[i].addr in forwarders
                    && r.value.outputs[i].to == forwarders[s[i].addr]
                    && (i > 0 ==> r.value.outputs[i].amount == amount * s[i].share / ONE))
              && r.value.outputs[0].amount == amount * s[0].share / ONE + (amount - Allocated(s, amount))
    ensures r.Ok? && TotalShares(s) == ONE ==>
              amount * s[0].share / ONE <= r.value.outputs[0].amount < amount * s[0].share / ONE + |s|
  {
    var outputs := [];
    var total := 0;
    var i := 0;
    while i < |s|
      invariant 0 <= i <= |s| == |s[..i]| + |s[i..]|
      invariant |outputs| == i
      invariant total == Allocated(s[..i], amount) == TotalPaid(outputs) <= U128_MAX
      invariant forall j :: 0 <= j < i ==>
                  && s[j].addr in forwarders
                  && outputs[j] == Payment(forwarders[s[j].addr], FloorShare(amount, s[j].share))
    {
      if s[i].addr !in forwarders {
        return Err(ForwarderNotReady);
      }
      var share := s[i].share;
      var e := CheckedMultiplyRatio(amount, share, ONE);
      if e.None? {
        ShareBounded(s, i, amount);
        return Err(RatioError);
      }
      FloorUnique(amount * share, ONE, e.value);
      AppendAllocation(s, i, amount);
      PaidAppend(outputs, Payment(forwarders[s[i].addr], e.value));
      total := total + e.value;
      if total > U128_MAX {
        PrefixWithin(s, i + 1, amount);
        return Err(Overflow);
      }
      outputs := outputs + [Payment(forwarders[s[i].addr], e.value)];
      i := i + 1;
    }
    assert s[..i] == s;
    if outputs != [] {
      PrefixWithin(s, |s|, amount);
      if total > amount {
        return Err(Overflow);
      }
      var first := outputs[0].(amount := outputs[0].amount + (amount - total));
      outputs := [first] + outputs[1..];
    }
    r := Ok(MultiSend(amount, outputs));
    if TotalShares(s) == ONE {
      LeftoverIsDust(s, amount);
    }
  }

  lemma {:induction false} PaidAppend(ps: seq<Payment>, p: Payment)
    ensures TotalPaid(ps + [p]) == TotalPaid(ps) + p.amount
  {
    if ps == [] {
      assert [] + [p] == [p];
    } else {
      assert (ps + [p])[1..] == ps[1..] + [p];
      PaidAppend(ps[1..], p);
    }
  }

  lemma AppendAllocation(s: Split, i: nat, amount: nat)
    requires i < |s|
    ensures Allocated(s[..i + 1], amount) == Allocated(s[..i], amount) + FloorShare(amount, s[i].share)
  {
    assert s[..i + 1] == s[..i] + [s[i]];
    AllocatedConcat(s[..i], [s[i]], amount);
    assert [s[i]][1..] == [];
  }

  lemma {:induction false} TotalConcat(s: Split, t: Split)
    ensures TotalShares(s + t) == TotalShares(s) + TotalShares(t)
  {
    if s == [] {
      assert s + t == t;
    } else {
      assert (s + t)[1..] == s[1..] + t;
      TotalConcat(s[1..], t);
    }
  }

  lemma PrefixWithin(s: Split, i: nat, amount: nat)
    requires i <= |s|
    ensures TotalShares(s) <= ONE ==> Allocated(s[..i], amount) <= amount
  {
    assert s == s[..i] + s[i..];
    TotalConcat(s[..i], s[i..]);
    if TotalShares(s) <= ONE {
      AllocatedWithin(s[..i], amount);
    }
  }

  lemma ShareBounded(s: Split, i: nat, amount: nat)
    requires i < |s| && amount <= U128_MAX
    ensures TotalShares(s) <= ONE ==> CheckedMultiplyRatio(amount, s[i].share, ONE).Some?
  {
    assert s == s[..i] + s[i..];
    TotalConcat(s[..i], s[i..]);
    if s[i].share <= ONE {
      RatioInRange(amount, s[i].share, ONE);
    }
  }
}
