/**
 The Osmosis liquid pooler (contracts/osmo-liquid-pooler): six states, a cache of the remote
 proxy's balances, and requests sent through polytone whose callbacks arrive later.
 */
module OsmoPooler {
  import opened Base
  import opened Decimals

  datatype Phase =
    | Instantiated
    | ProxyCreated
    | ProxyFunded
    | Active
    | Distributing(coins: seq<Coin>)
    | PendingWithdrawal(share: nat)

  /** What never changes after instantiation: denominations and contract addresses. */
  datatype Settings = Settings(
    coin1: Coin,
    coin2: Coin,
    local1: Denom,
    local2: Denom,
    lpDenom: Denom,
    clock: Addr,
    holder: Addr,
    note: Addr)

  datatype State = State(phase: Phase, proxy: Option<Addr>, balances: map<Denom, nat>, settings: Settings)

  const PROVIDE_LIQUIDITY_CALLBACK_ID: nat := 1
  const PROXY_BALANCES_QUERY_CALLBACK_ID: nat := 2
  const CREATE_PROXY_CALLBACK_ID: nat := 3
  const WITHDRAW_LIQUIDITY_CALLBACK_ID: nat := 4

  /** What is sent to the note contract. */
  datatype Request =
    | CreateProxy
    | QueryBalances
    | ProvideLiquidity(funds: seq<Coin>)
    | ExitPool(amount: nat)
    | TransferHome(coins: seq<Coin>)
  {
    /** The callback id attached to the request, if it asks for a callback. */
    function CallbackId(): Option<nat> {
      match this
      case CreateProxy => Some(CREATE_PROXY_CALLBACK_ID)
      case QueryBalances => Some(PROXY_BALANCES_QUERY_CALLBACK_ID)
      case ProvideLiquidity(_) => Some(PROVIDE_LIQUIDITY_CALLBACK_ID)
      case ExitPool(_) => Some(WITHDRAW_LIQUIDITY_CALLBACK_ID)
      case TransferHome(_) => None
    }
  }

  datatype Effect =
    | Note(request: Request)
    | FundProxy(coin: Coin, proxy: Addr)
    | HolderDistribute(funds: seq<Coin>)
    | HolderWithdrawFailed

  datatype Error =
    | NotClock
    | NotHolder
    | Unauthorized
    | WithdrawPercentageRange
    | ProxyMissing
    | FeeQueryFailed
    | CheckedMultiplyError
    | PolytoneError

  /** One decoded entry of a balances callback. */
  datatype BalanceResponse = Malformed | NoBalance | Reported(denom: Denom, amount: nat)

  /** One refund_tokens attribute of a withdraw callback. */
  datatype Refund = Unreadable | Refunded(coins: seq<Coin>)

  datatype Callback =
    | QueryOk(responses: seq<BalanceResponse>)
    | QueryErr
    | ExecuteOk(refunds: seq<Refund>)
    | ExecuteErr
    | FatalError

  /** Messages, each with what the chain answers while it is handled. */
  datatype Message =
    | TickMsg(sender: Addr, fundingExpired: bool, balance1: nat, balance2: nat, feeKnown: bool)
    | WithdrawMsg(sender: Addr, percentage: Option<nat>)
    | CallbackMsg(sender: Addr, id: nat, result: Callback, remoteAddress: Option<Option<Addr>>)

  datatype Done = Done(state: State, effects: seq<Effect>)

  // ---------- The balance cache ----------

  function Reset(s: State): State {
    s.(balances := s.balances - {s.settings.coin1.denom, s.settings.coin2.denom, s.settings.lpDenom})
  }

  function Cached(s: State, d: Denom): Option<nat> {
    if d in s.balances then Some(s.balances[d]) else None
  }

  predicate AllCached(s: State) {
    s.settings.coin1.denom in s.balances && s.settings.coin2.denom in s.balances && s.settings.lpDenom in s.balances
  }

  /** The cache after a balances callback; one unreadable entry fails the whole callback. */
  function Absorb(balances: map<Denom, nat>, responses: seq<BalanceResponse>): Option<map<Denom, nat>>
    decreases |responses|
  {
    if responses == [] then Some(balances)
    else
      match responses[0]
      case Malformed => None
      case NoBalance => Absorb(balances, responses[1..])
      case Reported(d, x) => Absorb(balances[d := x], responses[1..])
  }

  // ---------- What each message does ----------

  function CachedCoin(s: State, d: Denom): seq<Coin> {
    if d in s.balances then [Coin(d, s.balances[d])] else []
  }

  function Sync(s: State): Result<Done, Error> {
    if s.proxy.None? then Err(ProxyMissing) else Ok(Done(Reset(s), [Note(QueryBalances)]))
  }

  function FundTheProxy(s: State, m: Message): Result<Done, Error>
    requires m.TickMsg?
  {
    if s.proxy.None? then Err(ProxyMissing)
    else if s.settings.coin1.amount > m.balance1 || s.settings.coin2.amount > m.balance2 then Ok(Done(Reset(s), []))
    else if !m.feeKnown then Err(FeeQueryFailed)
    else
      var transfer1 := if m.balance1 > 0 then [FundProxy(Coin(s.settings.local1, m.balance1), s.proxy.value)] else [];
      var transfer2 := if m.balance2 > 0 then [FundProxy(Coin(s.settings.local2, m.balance2), s.proxy.value)] else [];
      Ok(Done(s, transfer1 + transfer2))
  }

  function DeliverFunds(s: State, m: Message): Result<Done, Error>
    requires m.TickMsg?
  {
    match (Cached(s, s.settings.coin1.denom), Cached(s, s.settings.coin2.denom))
    case (Some(x), Some(y)) =>
      if x >= s.settings.coin1.amount && y >= s.settings.coin2.amount then Ok(Done(s.(phase := ProxyFunded), []))
      else FundTheProxy(s, m)
    case _ => Sync(s)
  }

  function Provide(s: State): Result<Done, Error> {
    if s.proxy.None? then Err(ProxyMissing)
    else
      var funds := CachedCoin(s, s.settings.coin1.denom) + CachedCoin(s, s.settings.coin2.denom);
      Ok(Done(Reset(s), [Note(ProvideLiquidity(funds)), Note(QueryBalances)]))
  }

  /** Without LP tokens the remaining party denoms are withdrawn, or the withdrawal has failed. */
  function WithdrawPartyDenoms(s: State): Done
    requires AllCached(s)
  {
    var coins := PositiveCoin(s, s.settings.coin1.denom) + PositiveCoin(s, s.settings.coin2.denom);
    if coins == [] then Done(s.(phase := Active), [HolderWithdrawFailed])
    else Done(s.(phase := Distributing(coins)), [])
  }

  function PositiveCoin(s: State, d: Denom): seq<Coin>
    requires d in s.balances
  {
    if s.balances[d] > 0 then [Coin(d, s.balances[d])] else []
  }

  function Exit(s: State, share: nat): Result<Done, Error>
    requires AllCached(s)
  {
    var lp := s.balances[s.settings.lpDenom];
    if lp == 0 then Ok(WithdrawPartyDenoms(s))
    else
      match CheckedMultiplyRatio(lp, share, ONE)
      case None => Err(CheckedMultiplyError)
      case Some(x) => Ok(Done(s, [Note(ExitPool(x))]))
  }

  /** The first coin of a denomination, or nothing. */
  function Withdrawn(coins: seq<Coin>, d: Denom): nat {
    if coins == [] then 0
    else if coins[0].denom == d then coins[0].amount
    else Withdrawn(coins[1..], d)
  }

  function Distribute(s: State, coins: seq<Coin>, m: Message): Result<Done, Error>
    requires m.TickMsg?
  {
    var x := Withdrawn(coins, s.settings.coin1.denom);
    var y := Withdrawn(coins, s.settings.coin2.denom);
    if m.balance1 >= x && m.balance2 >= y then
      Ok(Done(Reset(s.(phase := Active)),
              [HolderDistribute([Coin(s.settings.local1, m.balance1), Coin(s.settings.local2, m.balance2)])]))
    else if s.proxy.None? then Err(ProxyMissing)
    else
      var home1 := if m.balance1 < x then [Coin(s.settings.coin1.denom, x)] else [];
      var home2 := if m.balance2 < y then [Coin(s.settings.coin2.denom, y)] else [];
      Ok(Done(s, [Note(TransferHome(home1 + home2))]))
  }

  function HandleTick(s: State, m: Message): Result<Done, Error>
    requires m.TickMsg?
  {
    if m.sender != s.settings.clock then Err(NotClock)
    else
      match s.phase
      case Instantiated => Ok(Done(s, [Note(CreateProxy)]))
      case ProxyCreated => DeliverFunds(s, m)
      case ProxyFunded => if m.fundingExpired then Ok(Done(s.(phase := Active), [])) else Provide(s)
      case Active => Sync(s)
      case PendingWithdrawal(share) => if AllCached(s) then Exit(s, share) else Sync(s)
      case Distributing(coins) => Distribute(s, coins, m)
  }

  /** A withdrawal request overrides whatever the pooler was doing. */
  function HandleWithdraw(s: State, sender: Addr, percentage: Option<nat>): Result<Done, Error> {
    var share := if percentage.Some? then percentage.value else ONE;
    if sender != s.settings.holder then Err(NotHolder)
    else if share > ONE || share == 0 then Err(WithdrawPercentageRange)
    else Ok(Done(Reset(s.(phase := PendingWithdrawal(share))), []))
  }

  function RefundedCoins(r: Refund): seq<Coin> {
    match r case Unreadable => [] case Refunded(coins) => coins
  }

  /** Every refund attribute overwrites the state; the last one stays. */
  function AfterRefunds(phase: Phase, refunds: seq<Refund>): Phase {
    if refunds == [] then phase else Distributing(RefundedCoins(refunds[|refunds| - 1]))
  }

  function HandleCallback(s: State, m: Message): Result<Done, Error>
    requires m.CallbackMsg?
  {
    if m.sender != s.settings.note then Err(Unauthorized)
    else
      match m.result
      case FatalError => Ok(Done(s, []))
      case QueryErr => Err(PolytoneError)
      case ExecuteErr => Err(PolytoneError)
      case QueryOk(responses) =>
        (if m.id != PROXY_BALANCES_QUERY_CALLBACK_ID then Err(PolytoneError)
         else
           match Absorb(s.balances, responses)
           case None => Err(PolytoneError)
           case Some(b) => Ok(Done(s.(balances := b), [])))
      case ExecuteOk(refunds) =>
        if m.id == CREATE_PROXY_CALLBACK_ID then
          match m.remoteAddress
          case None => Err(PolytoneError)
          case Some(None) => Ok(Done(s, []))
          case Some(Some(addr)) =>
            Ok(Done(s.(proxy := Some(addr), phase := if s.phase.Instantiated? then ProxyCreated else s.phase), []))
        else if m.id == WITHDRAW_LIQUIDITY_CALLBACK_ID then
          var phase := AfterRefunds(s.phase, refunds);
          Ok(Done(s.(phase := phase), if phase.Distributing? then [] else [HolderWithdrawFailed]))
        else Ok(Done(s, []))
  }

  /** One message: an error changes nothing. */
  function Handle(s: State, m: Message): Result<Done, Error> {
    match m
    case TickMsg(_, _, _, _, _) => HandleTick(s, m)
    case WithdrawMsg(sender, percentage) => HandleWithdraw(s, sender, percentage)
    case CallbackMsg(_, _, _, _) => HandleCallback(s, m)
  }

  // ---------- The contract ----------

  class Contract {
    var phase: Phase
    var proxy: Option<Addr>
    var balances: map<Denom, nat>
    const settings: Settings

    ghost function View(): State
      reads this
    {
      State(phase, proxy, balances, settings)
    }

    ghost predicate Implements(before: State, m: Message, r: Result<seq<Effect>, Error>)
      reads this
    {
      match r
      case Ok(effects) => Handle(before, m) == Ok(Done(View(), effects))
      case Err(e) => Handle(before, m) == Err(e) && View() == before
    }

    constructor (settings: Settings)
      ensures View() == State(Instantiated, None, map[], settings)
    {
      phase, proxy, balances := Instantiated, None, map[];
      this.settings := settings;
    }

    /** reset_latest_proxy_balances */
    method ResetBalances()
      modifies this`balances
      ensures View() == Reset(old(View()))
    {
      balances := balances - {settings.coin1.denom};
      balances := balances - {settings.coin2.denom};
      balances := balances - {settings.lpDenom};
      assert balances == old(balances) - {settings.coin1.denom, settings.coin2.denom, settings.lpDenom};
    }

    method Withdraw(sender: Addr, percentage: Option<nat>) returns (r: Result<seq<Effect>, Error>)
      modifies this
      ensures Implements(old(View()), WithdrawMsg(sender, percentage), r)
    {
      if sender != settings.holder {
        return Err(NotHolder);
      }
      var share := if percentage.Some? then percentage.value else ONE;
      if !(share <= ONE && share > 0) {
        return Err(WithdrawPercentageRange);
      }
      phase := PendingWithdrawal(share);
      ResetBalances();
      r := Ok([]);
    }

    method Tick(sender: Addr, fundingExpired: bool, balance1: nat, balance2: nat, feeKnown: bool)
      returns (r: Result<seq<Effect>, Error>)
      modifies this
      ensures Implements(old(View()), TickMsg(sender, fundingExpired, balance1, balance2, feeKnown), r)
    {
      if sender != settings.clock {
        return Err(NotClock);
      }
      match phase
      case Instantiated =>
        r := Ok([Note(CreateProxy)]);
      case ProxyCreated =>
        if settings.coin1.denom !in balances || settings.coin2.denom !in balances {
          r := SyncBalances();
        } else if balances[settings.coin1.denom] >= settings.coin1.amount
                  && balances[settings.coin2.denom] >= settings.coin2.amount {
          phase := ProxyFunded;
          r := Ok([]);
        } else {
          r := SendFunds(balance1, balance2, feeKnown);
        }
      case ProxyFunded =>
        if fundingExpired {
          phase := Active;
          return Ok([]);
        }
        if proxy.None? {
          return Err(ProxyMissing);
        }
        var funds := CachedFunds();
        ResetBalances();
        r := Ok([Note(ProvideLiquidity(funds)), Note(QueryBalances)]);
      case Active =>
        r := SyncBalances();
      case PendingWithdrawal(share) =>
        if settings.coin1.denom in balances && settings.coin2.denom in balances && settings.lpDenom in balances {
          r := TryWithdraw(share);
        } else {
          r := SyncBalances();
        }
      case Distributing(coins) =>
        r := TryDistribute(coins, balance1, balance2);
    }

    method CachedFunds() returns (funds: seq<Coin>)
      ensures funds == CachedCoin(View(), settings.coin1.denom) + CachedCoin(View(), settings.coin2.denom)
    {
      funds := [];
      if settings.coin1.denom in balances {
        funds := funds + [Coin(settings.coin1.denom, balances[settings.coin1.denom])];
      }
      if settings.coin2.denom in balances {
        funds := funds + [Coin(settings.coin2.denom, balances[settings.coin2.denom])];
      }
    }

    method SyncBalances() returns (r: Result<seq<Effect>, Error>)
      modifies this`balances
      ensures match r
              case Ok(es) => Sync(old(View())) == Ok(Done(View(), es))
              case Err(e) => Sync(old(View())) == Err(e) && View() == old(View())
    {
      if proxy.None? {
        return Err(ProxyMissing);
      }
      ResetBalances();
      r := Ok([Note(QueryBalances)]);
    }

    method SendFunds(balance1: nat, balance2: nat, feeKnown: bool) returns (r: Result<seq<Effect>, Error>)
      modifies this`balances
      ensures var m := TickMsg(settings.clock, false, balance1, balance2, feeKnown);
              match r
              case Ok(es) => FundTheProxy(old(View()), m) == Ok(Done(View(), es))
              case Err(e) => FundTheProxy(old(View()), m) == Err(e) && View() == old(View())
    {
      if proxy.None? {
        return Err(ProxyMissing);
      }
      if settings.coin1.amount > balance1 || settings.coin2.amount > balance2 {
        ResetBalances();
        return Ok([]);
      }
      if !feeKnown {
        return Err(FeeQueryFailed);
      }
      var transfers := [];
      if balance1 > 0 {
        transfers := transfers + [FundProxy(Coin(settings.local1, balance1), proxy.value)];
      }
      if balance2 > 0 {
        transfers := transfers + [FundProxy(Coin(settings.local2, balance2), proxy.value)];
      }
      assert transfers ==
             (if balance1 > 0 then [FundProxy(Coin(settings.local1, balance1), proxy.value)] else [])
             + (if balance2 > 0 then [FundProxy(Coin(settings.local2, balance2), proxy.value)] else []);
      r := Ok(transfers);
    }

    method TryWithdraw(share: nat) returns (r: Result<seq<Effect>, Error>)
      requires AllCached(View())
      modifies this`phase
      ensures match r
              case Ok(es) => Exit(old(View()), share) == Ok(Done(View(), es))
              case Err(e) => Exit(old(View()), share) == Err(e) && View() == old(View())
    {
      var lp := balances[settings.lpDenom];
      if lp == 0 {
        var coins := [];
        if balances[settings.coin1.denom] > 0 {
          coins := coins + [Coin(settings.coin1.denom, balances[settings.coin1.denom])];
        }
        if balances[settings.coin2.denom] > 0 {
          coins := coins + [Coin(settings.coin2.denom, balances[settings.coin2.denom])];
        }
        assert coins == PositiveCoin(View(), settings.coin1.denom) + PositiveCoin(View(), settings.coin2.denom);
        if coins == [] {
          phase := Active;
          return Ok([HolderWithdrawFailed]);
        }
        phase := Distributing(coins);
        return Ok([]);
      }
      var redeem := CheckedMultiplyRatio(lp, share, ONE);
      if redeem.None? {
        return Err(CheckedMultiplyError);
      }
      r := Ok([Note(ExitPool(redeem.value))]);
    }

    method TryDistribute(coins: seq<Coin>, balance1: nat, balance2: nat) returns (r: Result<seq<Effect>, Error>)
      modifies this
      ensures var m := TickMsg(settings.clock, false, balance1, balance2, false);
              match r
              case Ok(es) => Distribute(old(View()), coins, m) == Ok(Done(View(), es))
              case Err(e) => Distribute(old(View()), coins, m) == Err(e) && View() == old(View())
    {
      var x := Withdrawn(coins, settings.coin1.denom);
      var y := Withdrawn(coins, settings.coin2.denom);
      if balance1 >= x && balance2 >= y {
        phase := Active;
        ResetBalances();
        return Ok([HolderDistribute([Coin(settings.local1, balance1), Coin(settings.local2, balance2)])]);
      }
      if proxy.None? {
        return Err(ProxyMissing);
      }
      var home := [];
      if balance1 < x {
        home := home + [Coin(settings.coin1.denom, x)];
      }
      if balance2 < y {
        home := home + [Coin(settings.coin2.denom, y)];
      }
      assert home == (if balance1 < x then [Coin(settings.coin1.denom, x)] else [])
                     + (if balance2 < y then [Coin(settings.coin2.denom, y)] else []);
      r := Ok([Note(TransferHome(home))]);
    }

    method HandlePolytoneCallback(sender: Addr, id: nat, result: Callback, remoteAddress: Option<Option<Addr>>)
      returns (r: Result<seq<Effect>, Error>)
      modifies this
      ensures Implements(old(View()), CallbackMsg(sender, id, result, remoteAddress), r)
    {
      if sender != settings.note {
        return Err(Unauthorized);
      }
      match result
      case FatalError =>
        r := Ok([]);
      case QueryErr =>
        r := Err(PolytoneError);
      case ExecuteErr =>
        r := Err(PolytoneError);
      case QueryOk(responses) =>
        if id != PROXY_BALANCES_QUERY_CALLBACK_ID {
          return Err(PolytoneError);
        }
        var ok := StoreBalances(responses);
        r := if ok then Ok([]) else Err(PolytoneError);
      case ExecuteOk(refunds) =>
        if id == CREATE_PROXY_CALLBACK_ID {
          if remoteAddress.None? {
            return Err(PolytoneError);
          }
          if remoteAddress.value.Some? {
            proxy := remoteAddress.value;
            if phase.Instantiated? {
              phase := ProxyCreated;
            }
          }
          r := Ok([]);
        } else if id == WITHDRAW_LIQUIDITY_CALLBACK_ID {
          StoreRefunds(refunds);
          r := Ok(if phase.Distributing? then [] else [HolderWithdrawFailed]);
        } else {
          r := Ok([]);
        }
    }

    method StoreBalances(responses: seq<BalanceResponse>) returns (ok: bool)
      modifies this`balances
      ensures Absorb(old(balances), responses) == if ok then Some(balances) else None
      ensures !ok ==> balances == old(balances)
    {
      var latest := balances;
      var i := 0;
      while i < |responses|
        invariant 0 <= i <= |responses|
        invariant balances == old(balances)
        invariant Absorb(latest, responses[i..]) == Absorb(balances, responses)
      {
        assert responses[i..][1..] == responses[i + 1..];
        match responses[i] {
          case Malformed => return false;
          case NoBalance =>
          case Reported(denom, amount) => latest := latest[denom := amount];
        }
        i := i + 1;
      }
      balances := latest;
      ok := true;
    }

    method StoreRefunds(refunds: seq<Refund>)
      modifies this`phase
      ensures phase == AfterRefunds(old(phase), refunds)
    {
      var i := 0;
      while i < |refunds|
        invariant 0 <= i <= |refunds|
        invariant phase == AfterRefunds(old(phase), refunds[..i])
      {
        phase := Distributing(RefundedCoins(refunds[i]));
        i := i + 1;
        assert refunds[..i][i - 1] == refunds[i - 1];
      }
      assert refunds[..i] == refunds;
    }
  }
}
