/**
 Routing coins over IBC with a reserve for relayer fees
 (packages/covenant-utils/src/lib.rs and packages/covenant-utils/src/neutron.rs).
 */
module IbcFees {
  import opened Base
  import opened Decimals

  const NTRN: Denom := "untrn"

  datatype IbcFee = IbcFee(recv: seq<Coin>, ack: seq<Coin>, timeout: seq<Coin>)

  datatype Pfm = Pfm(hopChannel: string, destinationChannel: string, hopReceiver: Addr)

  datatype Destination = Destination(channel: string, receiver: Addr, pfm: map<Denom, Pfm>)

  /** One IBC transfer: the forward metadata is set for denominations routed through a hop. */
  datatype Transfer = Transfer(token: Coin, channel: string, receiver: Addr, forward: Option<(Addr, string)>)

  function SumAmounts(coins: seq<Coin>): nat {
    if coins == [] then 0 else coins[0].amount + SumAmounts(coins[1..])
  }

  function TotalFee(f: IbcFee): nat {
    SumAmounts(f.recv) + SumAmounts(f.ack) + SumAmounts(f.timeout)
  }

  lemma {:induction false} SumAmountsConcat(cs: seq<Coin>, ds: seq<Coin>)
    ensures SumAmounts(cs + ds) == SumAmounts(cs) + SumAmounts(ds)
  {
    if cs == [] {
      assert cs + ds == ds;
    } else {
      assert (cs + ds)[1..] == cs[1..] + ds;
      SumAmountsConcat(cs[1..], ds);
    }
  }

  /** The total fee adds up every coin of the three lists, whatever its denomination. */
  lemma TotalFeeIsWhole(f: IbcFee)
    ensures TotalFee(f) == SumAmounts(f.recv + f.ack + f.timeout)
  {
    SumAmountsConcat(f.recv, f.ack);
    SumAmountsConcat(f.recv + f.ack, f.timeout);
  }

  method AddAmounts(start: nat, coins: seq<Coin>) returns (total: nat)
    ensures total == start + SumAmounts(coins)
  {
    total := start;
    var i := 0;
    while i < |coins|
      invariant 0 <= i <= |coins|
      invariant total + SumAmounts(coins[i..]) == start + SumAmounts(coins)
    {
      assert coins[i..][1..] == coins[i + 1..];
      total := total + coins[i].amount;
      i := i + 1;
    }
  }

  /** flatten_ibc_fee_total_amount; None where the sum leaves the range. */
  method FlattenIbcFee(f: IbcFee) returns (r: Option<nat>)
    ensures r == if TotalFee(f) <= U128_MAX then Some(TotalFee(f)) else None
  {
    var total := AddAmounts(0, f.recv);
    total := AddAmounts(total, f.ack);
    total := AddAmounts(total, f.timeout);
    r := if total <= U128_MAX then Some(total) else None;
  }

  /** The part of a coin that is sent, given the amount held back from untrn. */
  function Sendable(c: Coin, reserve: nat): Option<Coin> {
    if c.denom != NTRN then Some(c)
    else if c.amount > reserve then Some(Coin(c.denom, c.amount - reserve))
    else None
  }

  function Route(d: Destination, c: Coin): Transfer {
    if c.denom in d.pfm then
      var p := d.pfm[c.denom];
      Transfer(c, p.hopChannel, p.hopReceiver, Some((d.receiver, p.destinationChannel)))
    else Transfer(c, d.channel, d.receiver, None)
  }

  /** The transfer of one coin, if anything of it is sent. */
  function TransferOf(d: Destination, c: Coin, reserve: nat): seq<Transfer> {
    match Sendable(c, reserve) case Some(s) => [Route(d, s)] case None => []
  }

  function Transfers(d: Destination, coins: seq<Coin>, reserve: nat): seq<Transfer> {
    if coins == [] then [] else TransferOf(d, coins[0], reserve) + Transfers(d, coins[1..], reserve)
  }

  lemma {:induction false} TransfersAppend(d: Destination, coins: seq<Coin>, c: Coin, reserve: nat)
    ensures Transfers(d, coins + [c], reserve) == Transfers(d, coins, reserve) + TransferOf(d, c, reserve)
  {
    if coins == [] {
      assert coins + [c] == [c] && [c][1..] == [];
      assert TransferOf(d, c, reserve) + [] == TransferOf(d, c, reserve);
    } else {
      assert (coins + [c])[1..] == coins[1..] + [c];
      TransfersAppend(d, coins[1..], c, reserve);
    }
  }

  predicate Includes(coins: seq<Coin>, d: Denom) {
    exists i :: 0 <= i < |coins| && coins[i].denom == d
  }

  /** get_ibc_transfer_messages_for_coins; None where the reserve leaves the range. */
  method TransferMessages(d: Destination, coins: seq<Coin>, fee: IbcFee) returns (r: Option<seq<Transfer>>)
    ensures r.Some? <==>
              TotalFee(fee) <= U128_MAX
              && (Includes(coins, NTRN) ==> (1 + |coins|) * TotalFee(fee) <= U128_MAX)
    ensures r.Some? ==> r.value == Transfers(d, coins, (1 + |coins|) * TotalFee(fee))
  {
    var count := 1 + |coins|;
    var flat := FlattenIbcFee(fee);
    if flat.None? {
      return None;
    }
    r := CollectTransfers(d, coins, count * flat.value);
  }

  /** The loop over the coins; the reserve is only computed, and may overflow, for untrn. */
  method CollectTransfers(d: Destination, coins: seq<Coin>, reserve: nat) returns (r: Option<seq<Transfer>>)
    ensures r.Some? <==> (Includes(coins, NTRN) ==> reserve <= U128_MAX)
    ensures r.Some? ==> r.value == Transfers(d, coins, reserve)
  {
    var messages := [];
    var i := 0;
    while i < |coins|
      invariant 0 <= i <= |coins|
      invariant messages == Transfers(d, coins[..i], reserve)
      invariant reserve <= U128_MAX || forall j :: 0 <= j < i ==> coins[j].denom != NTRN
    {
      var coin := coins[i];
      assert coins[..i + 1] == coins[..i] + [coin];
      TransfersAppend(d, coins[..i], coin, reserve);
      var send := Some(coin);
      if coin.denom == NTRN {
        if reserve > U128_MAX {
          return None;
        }
        send := if coin.amount > reserve then Some(Coin(coin.denom, coin.amount - reserve)) else None;
      }
      if send.Some? {
        messages := messages + [Route(d, send.value)];
      }
      i := i + 1;
    }
    assert coins[..i] == coins;
    r := Some(messages);
  }

  /** untrn leaving in the transfers. */
  function NtrnSent(ts: seq<Transfer>): nat {
    if ts == [] then 0 else (if ts[0].token.denom == NTRN then ts[0].token.amount else 0) + NtrnSent(ts[1..])
  }

  function NtrnSends(ts: seq<Transfer>): nat {
    if ts == [] then 0 else (if ts[0].token.denom == NTRN then 1 else 0) + NtrnSends(ts[1..])
  }

  /** The listed untrn coins above the reserve, and their sum. */
  function Above(coins: seq<Coin>, reserve: nat): seq<nat> {
    if coins == [] then []
    else
      (if coins[0].denom == NTRN && coins[0].amount > reserve then [coins[0].amount] else [])
      + Above(coins[1..], reserve)
  }

  function Sum(xs: seq<nat>): nat {
    if xs == [] then 0 else xs[0] + Sum(xs[1..])
  }

  /** The sum of the amounts, each less the reserve. */
  function SumLess(xs: seq<nat>, reserve: nat): int {
    if xs == [] then 0 else xs[0] - reserve + SumLess(xs[1..], reserve)
  }

  lemma {:induction false} NtrnTransfers(d: Destination, coins: seq<Coin>, reserve: nat)
    ensures var ts := Transfers(d, coins, reserve);
            && |ts| <= |coins|
            && NtrnSends(ts) == |Above(coins, reserve)|
            && NtrnSent(ts) == SumLess(Above(coins, reserve), reserve)
  {
    if coins != [] {
      NtrnTransfers(d, coins[1..], reserve);
      var rest, above := Transfers(d, coins[1..], reserve), Above(coins[1..], reserve);
      var c := coins[0];
      if c.denom != NTRN {
        PrependTransfer(Route(d, c), rest);
        assert [] + above == above;
      } else if c.amount > reserve {
        PrependTransfer(Route(d, Coin(NTRN, c.amount - reserve)), rest);
        assert ([c.amount] + above)[1..] == above;
      } else {
        assert [] + rest == rest && [] + above == above;
      }
    }
  }

  lemma {:induction false} AboveWithin(coins: seq<Coin>, reserve: nat)
    ensures Sum(Above(coins, reserve)) <= AmountOf(coins, NTRN)
  {
    if coins != [] {
      AboveWithin(coins[1..], reserve);
      var above := Above(coins[1..], reserve);
      assert [] + above == above && ([coins[0].amount] + above)[1..] == above;
    }
  }

  lemma {:induction false} SumLessReserve(xs: seq<nat>, reserve: nat)
    ensures SumLess(xs, reserve) + |xs| * reserve == Sum(xs)
  {
    if xs == [] {
      assert 0 * reserve == 0;
    } else {
      SumLessReserve(xs[1..], reserve);
      assert |xs| * reserve == reserve + |xs[1..]| * reserve;
    }
  }

  /** Exactly the untrn coins above the reserve are sent, each less the reserve. */
  lemma ReserveKept(d: Destination, coins: seq<Coin>, reserve: nat)
    ensures var ts := Transfers(d, coins, reserve);
            && |ts| <= |coins|
            && NtrnSends(ts) == |Above(coins, reserve)|
            && NtrnSent(ts) + NtrnSends(ts) * reserve == Sum(Above(coins, reserve)) <= AmountOf(coins, NTRN)
  {
    NtrnTransfers(d, coins, reserve);
    AboveWithin(coins, reserve);
    SumLessReserve(Above(coins, reserve), reserve);
  }

  lemma PrependTransfer(t: Transfer, rest: seq<Transfer>)
    ensures NtrnSends([t] + rest) == (if t.token.denom == NTRN then 1 else 0) + NtrnSends(rest)
    ensures NtrnSent([t] + rest) == (if t.token.denom == NTRN then t.token.amount else 0) + NtrnSent(rest)
  {
    assert ([t] + rest)[1..] == rest;
  }

  /**
   With one untrn coin in the list it is sent, less the reserve of a full fee for every coin and
   one more, if and only if it is above that reserve.
   */
  lemma SingleNtrn(d: Destination, coins: seq<Coin>, fee: nat, k: nat)
    requires k < |coins| && coins[k].denom == NTRN
    requires forall j :: 0 <= j < |coins| && j != k ==> coins[j].denom != NTRN
    ensures var reserve := (1 + |coins|) * fee;
            var (ts, x) := (Transfers(d, coins, reserve), coins[k].amount);
            && NtrnSends(ts) == (if x > reserve then 1 else 0)
            && NtrnSent(ts) == (if x > reserve then x - reserve else 0)
  {
    var reserve := (1 + |coins|) * fee;
    ReserveKept(d, coins, reserve);
    AboveSingle(coins, reserve, k);
    assert Sum([coins[k].amount]) == coins[k].amount + Sum([coins[k].amount][1..]);
    assert 1 * reserve == reserve;
  }

  lemma {:induction false} AboveSingle(coins: seq<Coin>, reserve: nat, k: nat)
    requires k < |coins| && coins[k].denom == NTRN
    requires forall j :: 0 <= j < |coins| && j != k ==> coins[j].denom != NTRN
    ensures Above(coins, reserve) == if coins[k].amount > reserve then [coins[k].amount] else []
  {
    if k == 0 {
      AboveNone(coins[1..], reserve);
    } else {
      assert coins[1..][k - 1] == coins[k];
      AboveSingle(coins[1..], reserve, k - 1);
    }
  }

  lemma {:induction false} AboveNone(coins: seq<Coin>, reserve: nat)
    requires forall j :: 0 <= j < |coins| ==> coins[j].denom != NTRN
    ensures Above(coins, reserve) == []
  {
    if coins != [] {
      AboveNone(coins[1..], reserve);
    }
  }

  /**
   Fee reserve: whenever any untrn is sent, the untrn sent and the fees of all transfers
   together leave at least one further full fee of the untrn listed.
   */
  lemma FeesCovered(d: Destination, coins: seq<Coin>, fee: nat)
    ensures var ts := Transfers(d, coins, (1 + |coins|) * fee);
            NtrnSends(ts) > 0 ==> NtrnSent(ts) + |ts| * fee + fee <= AmountOf(coins, NTRN)
  {
    var reserve := (1 + |coins|) * fee;
    var ts := Transfers(d, coins, reserve);
    ReserveKept(d, coins, reserve);
    if NtrnSends(ts) > 0 {
      ReserveCoversFees(NtrnSent(ts), NtrnSends(ts), |ts|, |coins|, fee);
    }
  }

  lemma ReserveCoversFees(sent: nat, sends: nat, transfers: nat, coins: nat, fee: nat)
    requires sends > 0 && transfers <= coins
    ensures sent + transfers * fee + fee <= sent + sends * ((1 + coins) * fee)
  {
    MulMonotone(1 + transfers, 1 + coins, fee);
    assert (1 + transfers) * fee == fee + transfers * fee;
    MulMonotone(1, sends, (1 + coins) * fee);
  }

  function OtherCoins(coins: seq<Coin>): seq<Coin> {
    if coins == [] then [] else (if coins[0].denom == NTRN then [] else [coins[0]]) + OtherCoins(coins[1..])
  }

  function OtherTokens(ts: seq<Transfer>): seq<Coin> {
    if ts == [] then [] else (if ts[0].token.denom == NTRN then [] else [ts[0].token]) + OtherTokens(ts[1..])
  }

  /** The channel, the receiver and the forwarding a token must travel by. */
  predicate TravelsAsConfigured(d: Destination, t: Transfer) {
    if t.token.denom in d.pfm
    then
      var hop := d.pfm[t.token.denom];
      && t.channel == hop.hopChannel && t.receiver == hop.hopReceiver
      && t.forward == Some((d.receiver, hop.destinationChannel))
    else t.channel == d.channel && t.receiver == d.receiver && t.forward == None
  }

  /** Every other coin is sent in full exactly once, in order; every transfer travels as configured. */
  lemma {:induction false} OthersSentInFull(d: Destination, coins: seq<Coin>, reserve: nat)
    ensures var ts := Transfers(d, coins, reserve);
            && OtherTokens(ts) == OtherCoins(coins)
            && forall i :: 0 <= i < |ts| ==> TravelsAsConfigured(d, ts[i])
  {
    if coins != [] {
      OthersSentInFull(d, coins[1..], reserve);
      var rest := Transfers(d, coins[1..], reserve);
      match Sendable(coins[0], reserve)
      case None =>
        assert Transfers(d, coins, reserve) == rest;
      case Some(c) =>
        assert Transfers(d, coins, reserve)[1..] == rest;
    }
  }
}
