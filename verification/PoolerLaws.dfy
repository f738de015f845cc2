/**
 The Osmosis pooler read from the outside: for every request it can send, every report to the
 holder and every state it can enter, exactly which messages lead to it.
 */
module PoolerLaws {
  import opened Base
  import opened Decimals
  import opened OsmoPooler

  function EffectsOf(p: State, m: Message): seq<Effect> {
    match Handle(p, m) case Ok(d) => d.effects case Err(_) => []
  }

  function After(p: State, m: Message): State {
    match Handle(p, m) case Ok(d) => d.state case Err(_) => p
  }

  /** A tick of the clock. */
  predicate Ticks(p: State, m: Message) {
    m.TickMsg? && m.sender == p.settings.clock
  }

  /** A callback of the note. */
  predicate Answers(p: State, m: Message, id: nat) {
    m.CallbackMsg? && m.sender == p.settings.note && m.id == id
  }

  /** The amount cached of a denomination, or nothing. */
  function CachedAmount(p: State, d: Denom): nat {
    if d in p.balances then p.balances[d] else 0
  }

  predicate PartiesCached(p: State) {
    p.settings.coin1.denom in p.balances && p.settings.coin2.denom in p.balances
  }

  /** The proxy holds both contributions. */
  predicate ProxyFull(p: State) {
    && PartiesCached(p)
    && CachedAmount(p, p.settings.coin1.denom) >= p.settings.coin1.amount
    && CachedAmount(p, p.settings.coin2.denom) >= p.settings.coin2.amount
  }

  /** The pooler holds both contributions itself. */
  predicate Deposited(p: State, m: Message)
    requires m.TickMsg?
  {
    m.balance1 >= p.settings.coin1.amount && m.balance2 >= p.settings.coin2.amount
  }

  predicate NothingCached(p: State) {
    && AllCached(p)
    && p.balances[p.settings.coin1.denom] == 0 && p.balances[p.settings.coin2.denom] == 0
    && p.balances[p.settings.lpDenom] == 0
  }

  /** The coins waited for are home. */
  predicate Home(p: State, m: Message) {
    && m.TickMsg? && p.phase.Distributing?
    && m.balance1 >= Withdrawn(p.phase.coins, p.settings.coin1.denom)
    && m.balance2 >= Withdrawn(p.phase.coins, p.settings.coin2.denom)
  }

  /** What is waited for of a denomination is the first coin that names it. */
  lemma {:induction false} WithdrawnIsFirst(coins: seq<Coin>, d: Denom, i: nat)
    requires i < |coins| && coins[i].denom == d && forall j :: 0 <= j < i ==> coins[j].denom != d
    ensures Withdrawn(coins, d) == coins[i].amount
  {
    if i > 0 {
      assert coins[1..][i - 1] == coins[i];
      WithdrawnIsFirst(coins[1..], d, i - 1);
    }
  }

  lemma {:induction false} WithdrawnUnnamed(coins: seq<Coin>, d: Denom)
    requires forall j :: 0 <= j < |coins| ==> coins[j].denom != d
    ensures Withdrawn(coins, d) == 0
  {
    if coins != [] {
      WithdrawnUnnamed(coins[1..], d);
    }
  }

  // ---------- Requests to the note ----------

  lemma CreatesProxyIff(p: State, m: Message)
    ensures Note(CreateProxy) in EffectsOf(p, m) <==> Ticks(p, m) && p.phase.Instantiated?
  {
  }

  /** Which ticks ask for the balances. */
  lemma QueriesIff(p: State, m: Message)
    ensures Note(QueryBalances) in EffectsOf(p, m) <==>
            && Ticks(p, m) && p.proxy.Some?
            && (|| p.phase.Active?
                || (p.phase.ProxyCreated? && !PartiesCached(p))
                || (p.phase.ProxyFunded? && !m.fundingExpired)
                || (p.phase.PendingWithdrawal? && !AllCached(p)))
  {
  }

  /** Liquidity is provided by every tick before the funding expires, with exactly the cached party balances. */
  lemma ProvidesIff(p: State, m: Message, d: Denom)
    ensures (exists funds :: Note(ProvideLiquidity(funds)) in EffectsOf(p, m)) <==>
            Ticks(p, m) && p.phase.ProxyFunded? && !m.fundingExpired && p.proxy.Some?
    ensures forall funds :: Note(ProvideLiquidity(funds)) in EffectsOf(p, m) ==>
              AmountOf(funds, d) == (if d == p.settings.coin1.denom then CachedAmount(p, d) else 0)
                                    + (if d == p.settings.coin2.denom then CachedAmount(p, d) else 0)
  {
    var (c, e) := (p.settings.coin1.denom, p.settings.coin2.denom);
    var funds := CachedCoin(p, c) + CachedCoin(p, e);
    if Ticks(p, m) && p.phase.ProxyFunded? && !m.fundingExpired && p.proxy.Some? {
      assert Note(ProvideLiquidity(funds)) in EffectsOf(p, m);
      AmountOfConcat(CachedCoin(p, c), CachedCoin(p, e), d);
      AmountOfCached(p, c, d);
      AmountOfCached(p, e, d);
    }
  }

  lemma {:induction false} AmountOfConcat(cs: seq<Coin>, ds: seq<Coin>, d: Denom)
    ensures AmountOf(cs + ds, d) == AmountOf(cs, d) + AmountOf(ds, d)
  {
    if cs == [] {
      assert cs + ds == ds;
    } else {
      assert (cs + ds)[1..] == cs[1..] + ds;
      AmountOfConcat(cs[1..], ds, d);
    }
  }

  lemma AmountOfCached(p: State, c: Denom, d: Denom)
    ensures AmountOf(CachedCoin(p, c), d) == if c == d then CachedAmount(p, d) else 0
  {
    if c in p.balances {
      assert CachedCoin(p, c)[1..] == [];
    }
  }

  /**
   Coins are asked home by exactly those ticks that do not find all of them; what is asked for is
   what is waited for of each denomination that falls short.
   */
  lemma AsksHomeIff(p: State, m: Message, d: Denom)
    ensures (exists cs :: Note(TransferHome(cs)) in EffectsOf(p, m)) <==>
            Ticks(p, m) && p.phase.Distributing? && !Home(p, m) && p.proxy.Some?
    ensures forall cs :: Note(TransferHome(cs)) in EffectsOf(p, m) ==>
              && m.TickMsg? && p.phase.Distributing?
              && AmountOf(cs, d) == Missing(p, d, p.settings.coin1.denom, m.balance1)
                                    + Missing(p, d, p.settings.coin2.denom, m.balance2)
  {
    if Ticks(p, m) && p.phase.Distributing? && !Home(p, m) && p.proxy.Some? {
      var (c, e) := (p.settings.coin1.denom, p.settings.coin2.denom);
      var x, y := Withdrawn(p.phase.coins, c), Withdrawn(p.phase.coins, e);
      var home1 := if m.balance1 < x then [Coin(c, x)] else [];
      var home2 := if m.balance2 < y then [Coin(e, y)] else [];
      assert EffectsOf(p, m) == [Note(TransferHome(home1 + home2))];
      assert Note(TransferHome(home1 + home2)) in EffectsOf(p, m);
      AmountOfConcat(home1, home2, d);
      assert m.balance1 < x ==> home1[1..] == [];
      assert m.balance2 < y ==> home2[1..] == [];
    }
  }

  /** What is asked home of `d` on behalf of the party denomination `c`. */
  function Missing(p: State, d: Denom, c: Denom, balance: nat): nat
    requires p.phase.Distributing?
  {
    if d == c && balance < Withdrawn(p.phase.coins, c) then Withdrawn(p.phase.coins, c) else 0
  }

  /** Once what was asked for has come home on top of what was there, the next tick distributes it. */
  lemma HomecomingCompletes(p: State, m: Message, cs: seq<Coin>, n: Message)
    requires Note(TransferHome(cs)) in EffectsOf(p, m) && Ticks(p, n)
    requires p.settings.coin1.denom != p.settings.coin2.denom
    requires m.TickMsg?
    requires n.balance1 == m.balance1 + AmountOf(cs, p.settings.coin1.denom)
    requires n.balance2 == m.balance2 + AmountOf(cs, p.settings.coin2.denom)
    ensures After(p, m) == p
    ensures EffectsOf(p, n) == [HolderDistribute([Coin(p.settings.local1, n.balance1),
                                                  Coin(p.settings.local2, n.balance2)])]
  {
    AsksHomeIff(p, m, p.settings.coin1.denom);
    AsksHomeIff(p, m, p.settings.coin2.denom);
  }

  // ---------- Funding the proxy ----------

  /**
   The proxy is funded by exactly those ticks that find it created, its balances known and short,
   both deposits there and the fee known; it gets the pooler's whole balance of each local
   denomination.
   */
  lemma FundsIff(p: State, m: Message, c: Coin, a: Addr)
    ensures FundProxy(c, a) in EffectsOf(p, m) <==>
            && Ticks(p, m) && p.phase.ProxyCreated? && PartiesCached(p) && !ProxyFull(p)
            && p.proxy == Some(a) && Deposited(p, m) && m.feeKnown
            && c.amount > 0
            && (c == Coin(p.settings.local1, m.balance1) || c == Coin(p.settings.local2, m.balance2))
  {
  }

  // ---------- Reports to the holder ----------

  /** Exactly the tick that finds the coins home distributes, with the whole local balances. */
  lemma DistributesIff(p: State, m: Message, funds: seq<Coin>)
    ensures HolderDistribute(funds) in EffectsOf(p, m) <==>
            && Ticks(p, m) && Home(p, m)
            && funds == [Coin(p.settings.local1, m.balance1), Coin(p.settings.local2, m.balance2)]
  {
  }

  /**
   A withdrawal is reported as failed exactly by a tick that knows of nothing to withdraw, or by an
   answer to an exit that names no refunds while the pooler does not distribute yet.
   */
  lemma ReportsFailureIff(p: State, m: Message)
    ensures HolderWithdrawFailed in EffectsOf(p, m) <==>
            || (Ticks(p, m) && p.phase.PendingWithdrawal? && NothingCached(p))
            || (&& Answers(p, m, WITHDRAW_LIQUIDITY_CALLBACK_ID)
                && m.result == ExecuteOk([]) && !p.phase.Distributing?)
  {
    if Answers(p, m, WITHDRAW_LIQUIDITY_CALLBACK_ID) && m.result.ExecuteOk? && m.result.refunds == [] {
      assert m.result == ExecuteOk([]);
    }
  }

  // ---------- States ----------

  /** Exactly which message enters which state. */
  lemma PhaseMovesIff(p: State, m: Message)
    ensures var t := After(p, m).phase;
            && (t.Instantiated? ==> p.phase.Instantiated?)
            && (t.ProxyCreated? && !p.phase.ProxyCreated? <==>
                  && p.phase.Instantiated? && Answers(p, m, CREATE_PROXY_CALLBACK_ID) && m.result.ExecuteOk?
                  && m.remoteAddress.Some? && m.remoteAddress.value.Some?)
            && (t.ProxyFunded? && !p.phase.ProxyFunded? <==> Ticks(p, m) && p.phase.ProxyCreated? && ProxyFull(p))
            && (t.Active? && !p.phase.Active? <==>
                  && Ticks(p, m)
                  && (|| (p.phase.ProxyFunded? && m.fundingExpired)
                      || Home(p, m)
                      || (p.phase.PendingWithdrawal? && NothingCached(p))))
  {
  }

  /** A withdrawal becomes pending exactly on the holder's request, for the requested fraction or everything. */
  lemma PendingIff(p: State, m: Message, share: nat)
    ensures After(p, m).phase == PendingWithdrawal(share) <==>
            if m.WithdrawMsg? && Handle(p, m).Ok?
            then m.percentage == Some(share) || (m.percentage == None && share == ONE)
            else
              && p.phase == PendingWithdrawal(share)
              && !(Ticks(p, m) && AllCached(p) && p.balances[p.settings.lpDenom] == 0)
              && !(Answers(p, m, WITHDRAW_LIQUIDITY_CALLBACK_ID) && m.result.ExecuteOk? && m.result.refunds != [])
    ensures m.WithdrawMsg? ==>
              (Handle(p, m).Ok? <==>
                 m.sender == p.settings.holder
                 && (m.percentage.Some? ==> 0 < m.percentage.value <= ONE))
  {
  }

  /** The coins of the last refund attribute; one that cannot be read names none. */
  function LastRefund(rs: seq<Refund>): seq<Coin>
    requires rs != []
  {
    match rs[|rs| - 1] case Refunded(coins) => coins case Unreadable => []
  }

  /** Coins are waited for from the last refunds of an answered exit, or from the fallback. */
  lemma DistributingIff(p: State, m: Message)
    ensures var t := After(p, m).phase;
            t.Distributing? && t != p.phase ==>
              || (&& Answers(p, m, WITHDRAW_LIQUIDITY_CALLBACK_ID) && m.result.ExecuteOk? && m.result.refunds != []
                  && t.coins == LastRefund(m.result.refunds))
              || (Ticks(p, m) && p.phase.PendingWithdrawal? && AllCached(p) && p.balances[p.settings.lpDenom] == 0
                  && !NothingCached(p))
    ensures Answers(p, m, WITHDRAW_LIQUIDITY_CALLBACK_ID) && m.result.ExecuteOk? && m.result.refunds != [] ==>
              After(p, m).phase == Distributing(LastRefund(m.result.refunds))
  {
  }

  /**
   The fallback: without LP tokens a pending withdrawal goes on with exactly the cached balances of
   the party denominations, unless both are empty.
   */
  lemma FallbackNamesBalances(p: State, m: Message, d: Denom)
    requires Ticks(p, m) && p.phase.PendingWithdrawal?
    requires AllCached(p) && p.balances[p.settings.lpDenom] == 0 && !NothingCached(p)
    ensures After(p, m).phase.Distributing? && EffectsOf(p, m) == []
    ensures var coins := After(p, m).phase.coins;
            && AmountOf(coins, d) == (if d == p.settings.coin1.denom then CachedAmount(p, d) else 0)
                                     + (if d == p.settings.coin2.denom then CachedAmount(p, d) else 0)
            && (p.settings.coin1.denom != p.settings.coin2.denom ==>
                  && Withdrawn(coins, p.settings.coin1.denom) == p.balances[p.settings.coin1.denom]
                  && Withdrawn(coins, p.settings.coin2.denom) == p.balances[p.settings.coin2.denom])
            && forall i :: 0 <= i < |coins| ==> coins[i].amount > 0
  {
    var (c, e) := (p.settings.coin1.denom, p.settings.coin2.denom);
    var c1, c2 := PositiveCoin(p, c), PositiveCoin(p, e);
    AmountOfConcat(c1, c2, d);
    assert p.balances[c] > 0 ==> c1[1..] == [] && (c1 + c2)[1..] == c2;
    assert p.balances[c] == 0 ==> c1 + c2 == c2;
    assert p.balances[e] > 0 ==> c2[1..] == [];
    assert Withdrawn([], c) == 0 && Withdrawn([], e) == 0;
  }

  // ---------- The cache ----------

  predicate Tracked(p: State, d: Denom) {
    d == p.settings.coin1.denom || d == p.settings.coin2.denom || d == p.settings.lpDenom
  }

  /** The messages after which the balances have to be asked for again. */
  predicate Clears(p: State, m: Message) {
    || (m.WithdrawMsg? && Handle(p, m).Ok?)
    || Note(QueryBalances) in EffectsOf(p, m)
    || (Ticks(p, m) && Home(p, m))
    || (Ticks(p, m) && p.phase.ProxyCreated? && PartiesCached(p) && !ProxyFull(p) && p.proxy.Some?
        && !Deposited(p, m))
  }

  /** What the cache holds after any message that is not a balances answer. */
  lemma CacheAfter(p: State, m: Message, d: Denom)
    requires !Answers(p, m, PROXY_BALANCES_QUERY_CALLBACK_ID)
    ensures d in After(p, m).balances <==> d in p.balances && !(Clears(p, m) && Tracked(p, d))
    ensures d in After(p, m).balances ==> After(p, m).balances[d] == p.balances[d]
  {
  }

  /** The last report of a denomination in an answer. */
  function LastReport(rs: seq<BalanceResponse>, d: Denom): Option<nat> {
    if rs == [] then None
    else
      var last := rs[|rs| - 1];
      if last.Reported? && last.denom == d then Some(last.amount) else LastReport(rs[..|rs| - 1], d)
  }

  /** A balances answer is refused when an entry cannot be read; otherwise each last report counts. */
  lemma {:induction false} AbsorbIff(b: map<Denom, nat>, rs: seq<BalanceResponse>, d: Denom)
    ensures Absorb(b, rs).Some? <==> forall i :: 0 <= i < |rs| ==> !rs[i].Malformed?
    ensures Absorb(b, rs).Some? ==>
              var t := Absorb(b, rs).value;
              match LastReport(rs, d)
              case Some(x) => d in t && t[d] == x
              case None => (d in t <==> d in b) && (d in b ==> t[d] == b[d])
    decreases |rs|
  {
    if rs != [] {
      assert forall i :: 1 <= i < |rs| ==> rs[i] == rs[1..][i - 1];
      assert forall i :: 0 <= i < |rs[1..]| ==> rs[1..][i] == rs[i + 1];
      LastReportTail(rs, d);
      match rs[0]
      case Malformed =>
      case NoBalance => AbsorbIff(b, rs[1..], d);
      case Reported(e, x) => AbsorbIff(b[e := x], rs[1..], d);
    }
  }

  lemma {:induction false} LastReportTail(rs: seq<BalanceResponse>, d: Denom)
    requires rs != []
    ensures LastReport(rs, d) ==
            if LastReport(rs[1..], d).Some? then LastReport(rs[1..], d)
            else if rs[0].Reported? && rs[0].denom == d then Some(rs[0].amount) else None
    decreases |rs|
  {
    var last := rs[|rs| - 1];
    if |rs| > 1 {
      assert rs[1..][|rs[1..]| - 1] == last;
      assert rs[1..][..|rs[1..]| - 1] == rs[..|rs| - 1][1..];
      LastReportTail(rs[..|rs| - 1], d);
    } else {
      assert rs[..0] == [] && rs[1..] == [];
    }
  }

  /** The proxy's address is set exactly by an answer that carries one, whatever the state. */
  lemma ProxySetIff(p: State, m: Message)
    ensures After(p, m).proxy ==
            if Answers(p, m, CREATE_PROXY_CALLBACK_ID) && m.result.ExecuteOk? && m.remoteAddress.Some?
               && m.remoteAddress.value.Some?
            then m.remoteAddress.value else p.proxy
    ensures After(p, m).settings == p.settings
  {
  }

  /** Exactly which ticks fail: without the proxy's address, without the fee, or out of range. */
  lemma TickAcceptedIff(p: State, m: Message)
    requires m.TickMsg?
    ensures Handle(p, m).Ok? <==>
            && m.sender == p.settings.clock
            && (NeedsProxy(p, m) ==> p.proxy.Some?)
            && (p.phase.ProxyCreated? && PartiesCached(p) && !ProxyFull(p) && Deposited(p, m) ==> m.feeKnown)
            && (p.phase.PendingWithdrawal? && AllCached(p) ==>
                  p.balances[p.settings.lpDenom] * p.phase.share < (U128_MAX + 1) * ONE)
  {
    if p.phase.PendingWithdrawal? && AllCached(p) && p.balances[p.settings.lpDenom] == 0 {
      assert 0 * p.phase.share == 0;
    }
  }

  /** The ticks that load the proxy's address. */
  predicate NeedsProxy(p: State, m: Message)
    requires m.TickMsg?
  {
    || p.phase.Active?
    || (p.phase.ProxyCreated? && !ProxyFull(p))
    || (p.phase.ProxyFunded? && !m.fundingExpired)
    || (p.phase.PendingWithdrawal? && !AllCached(p))
    || (p.phase.Distributing? && !Home(p, m))
  }

  /** Exactly which callbacks are accepted; failed and fatal ones change nothing. */
  lemma CallbackAcceptedIff(p: State, m: Message)
    requires m.CallbackMsg?
    ensures Handle(p, m).Ok? <==>
            && m.sender == p.settings.note
            && match m.result
               case FatalError => true
               case QueryErr => false
               case ExecuteErr => false
               case QueryOk(rs) =>
                 m.id == PROXY_BALANCES_QUERY_CALLBACK_ID && forall i :: 0 <= i < |rs| ==> !rs[i].Malformed?
               case ExecuteOk(_) => m.id == CREATE_PROXY_CALLBACK_ID ==> m.remoteAddress.Some?
    ensures m.result.FatalError? || m.result.QueryErr? || m.result.ExecuteErr? ==>
              After(p, m) == p && EffectsOf(p, m) == []
  {
    if m.result.QueryOk? {
      AbsorbIff(p.balances, m.result.responses, "");
    }
  }
}
