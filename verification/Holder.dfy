/**
 The two-party POL holder (contracts/two-party-pol-holder): deposits, lockup, claims,
 ragequits and emergency withdrawals, with the lock that is held while the liquid pooler
 works on a withdrawal.
 */
module Holder {
  import opened Base
  import opened Decimals
  import opened Splits
  import opened Distribution

  datatype CovenantType = Share | Side

  datatype Party = Party(contribution: Coin, host: Addr, controller: Addr, allocation: nat, router: Addr)

  datatype Config = Config(a: Party, b: Party, kind: CovenantType)

  datatype Phase = Instantiated | Active | Ragequit | Expired | Complete

  datatype RagequitState = RagequitState(coins: seq<Coin>, party: Party)

  datatype RagequitTerms = RagequitTerms(penalty: nat, state: Option<RagequitState>)

  datatype RagequitConfig = Disabled | Enabled(terms: RagequitTerms)

  /** WITHDRAW_STATE, while it is stored. */
  datatype Lock =
    | Processing(claimer: Addr)
    | ProcessingRagequit(claimer: Addr, terms: RagequitTerms)
    | Emergency

  datatype State = State(
    phase: Phase,
    config: Config,
    lock: Option<Lock>,
    ragequit: RagequitConfig,
    splits: DenomSplits,
    clock: Addr,
    pooler: Addr,
    committee: Option<Addr>)

  datatype Error =
    | DepositDeadlineValidationError
    | LockupValidationError
    | InvalidAddress
    | PartyContributionConfigError
    | AllocationValidationError
    | RagequitPenaltyRangeError
    | RagequitPenaltyExceedsPartyAllocationError
    | SplitValidationError
    | Unauthorized
    | PartyAllocationIsZero
    | ClaimError
    | NotActive
    | LockupExpired
    | InsufficientDeposits
    | RagequitDisabled
    | PenaltyError
    | Underflow
    | WithdrawAlreadyStarted
    | WithdrawStateNotStarted

  /** Messages, each with what the chain answers while it is handled. */
  datatype Message =
    | TickMsg(sender: Addr, depositExpired: bool, lockupExpired: bool, balanceA: nat, balanceB: nat)
    | ClaimMsg(sender: Addr)
    | RagequitMsg(sender: Addr, lockupExpired: bool)
    | EmergencyMsg(sender: Addr)
    | DistributeMsg(sender: Addr, funds: seq<Coin>)
    | WithdrawFailedMsg(sender: Addr)

  /** Submessages the holder sends out. */
  datatype Effect =
    | WithdrawLp(fraction: Option<nat>)
    | DepositToPooler(coins: seq<Coin>)
    | Pay(send: Send)
    | LeaveClock

  datatype Done = Done(state: State, effects: seq<Effect>)

  // ---------- Instantiation ----------

  datatype InstantiateMsg = InstantiateMsg(
    depositDeadlinePassed: bool,
    deadlineBeforeLockup: bool,
    addressesValid: bool,
    config: Config,
    ragequit: RagequitConfig,
    splits: map<Denom, Split>,
    fallback: Option<Split>,
    clock: Addr,
    pooler: Addr,
    committee: Option<Addr>)

  /** RagequitConfig::validate */
  function ValidateRagequit(r: RagequitConfig, a: nat, b: nat): Option<Error> {
    match r
    case Disabled => None
    case Enabled(t) =>
      if t.penalty >= ONE then Some(RagequitPenaltyRangeError)
      else if t.penalty > a || t.penalty > b then Some(RagequitPenaltyExceedsPartyAllocationError)
      else None
  }

  /** The sum of the two parties' shares aborts outside the Decimal range. */
  predicate SumAborts(s: Split, a: Addr, b: Addr) {
    ShareOf(s, a).Some? && ShareOf(s, b).Some? && ShareOf(s, a).value + ShareOf(s, b).value > U128_MAX
  }

  /** Explicit splits that fail validation are dropped; an invalid fallback split is an error. */
  function Instantiate(m: InstantiateMsg): Result<State, Error> {
    var (a, b) := (m.config.a, m.config.b);
    if m.depositDeadlinePassed then Err(DepositDeadlineValidationError)
    else if !m.deadlineBeforeLockup then Err(LockupValidationError)
    else if !m.addressesValid then Err(InvalidAddress)
    else if a.contribution.amount == 0 || b.contribution.amount == 0 then Err(PartyContributionConfigError)
    else if a.allocation + b.allocation != ONE then Err(AllocationValidationError)
    else
      match ValidateRagequit(m.ragequit, a.allocation, b.allocation)
      case Some(e) => Err(e)
      case None =>
        if exists d :: d in m.splits && SumAborts(m.splits[d], a.router, b.router) then Err(SplitValidationError)
        else if m.fallback.Some? && !ValidatedFor(m.fallback.value, a.router, b.router) then Err(SplitValidationError)
        else
          var explicit := map d | d in m.splits && ValidatedFor(m.splits[d], a.router, b.router) :: m.splits[d];
          Ok(State(Instantiated, m.config, None, m.ragequit, DenomSplits(explicit, m.fallback),
                   m.clock, m.pooler, m.committee))
  }

  // ---------- What each message does ----------

  /** (party, counterparty) of a host address with a position left. */
  function AuthorizeSender(c: Config, sender: Addr): Result<(Party, Party), Error> {
    if c.a.host != sender && c.b.host != sender then Err(Unauthorized)
    else
      var parties := if c.a.host == sender then (c.a, c.b) else (c.b, c.a);
      if parties.0.allocation == 0 then Err(PartyAllocationIsZero) else Ok(parties)
  }

  function UpdateParties(c: Config, p1: Party, p2: Party): Config {
    if c.a.controller == p1.controller then Config(p1, p2, c.kind) else Config(p2, p1, c.kind)
  }

  function Payments(sends: seq<Send>): seq<Effect> {
    if sends == [] then [] else [Pay(sends[0])] + Payments(sends[1..])
  }

  function HandleTick(s: State, m: Message): Result<Done, Error>
    requires m.TickMsg?
  {
    if m.sender != s.clock then Err(Unauthorized)
    else
      match s.phase
      case Instantiated =>
        if m.depositExpired then Ok(Done(s.(phase := Complete), []))
        else if m.balanceA < s.config.a.contribution.amount || m.balanceB < s.config.b.contribution.amount then
          Err(InsufficientDeposits)
        else
          Ok(Done(s.(phase := Active),
                  [DepositToPooler([Coin(s.config.a.contribution.denom, m.balanceA),
                                    Coin(s.config.b.contribution.denom, m.balanceB)])]))
      case Active => Ok(Done(if m.lockupExpired then s.(phase := Expired) else s, []))
      case Expired => Ok(Done(s, []))
      case Ragequit => Ok(Done(s, []))
      case Complete => Ok(Done(s, Refund(s.config.a, m.balanceA) + Refund(s.config.b, m.balanceB)))
  }

  function Refund(p: Party, balance: nat): seq<Effect> {
    if balance == 0 then [] else [Pay(Send(p.router, Coin(p.contribution.denom, balance)))]
  }

  function HandleClaim(s: State, sender: Addr): Result<Done, Error> {
    if s.lock.Some? then Err(WithdrawAlreadyStarted)
    else
      match AuthorizeSender(s.config, sender)
      case Err(e) => Err(e)
      case Ok((party, counterparty)) =>
        if s.phase != Ragequit && s.phase != Expired then Err(ClaimError)
        else
          var fraction := match s.config.kind case Share => Some(party.allocation) case Side => None;
          Ok(Done(s.(lock := Some(Processing(party.host))), [WithdrawLp(fraction)]))
  }

  function HandleRagequit(s: State, sender: Addr, lockupExpired: bool): Result<Done, Error> {
    if s.ragequit.Disabled? then Err(RagequitDisabled)
    else if s.phase != Active then Err(NotActive)
    else if s.lock.Some? then Err(WithdrawAlreadyStarted)
    else if lockupExpired then Err(LockupExpired)
    else
      match AuthorizeSender(s.config, sender)
      case Err(e) => Err(e)
      case Ok((party, _)) =>
        var terms := s.ragequit.terms;
        if s.config.kind.Share? && party.allocation < terms.penalty then Err(Underflow)
        else
          var fraction := match s.config.kind case Share => Some(party.allocation - terms.penalty) case Side => None;
          Ok(Done(s.(lock := Some(ProcessingRagequit(party.host, terms))), [WithdrawLp(fraction)]))
  }

  function HandleEmergency(s: State, sender: Addr): Result<Done, Error> {
    if s.lock.Some? then Err(WithdrawAlreadyStarted)
    else if s.committee != Some(sender) then Err(Unauthorized)
    else Ok(Done(s.(lock := Some(Emergency)), [WithdrawLp(None)]))
  }

  /** Everything goes to the claimer; the counterparty inherits the position, or it is over. */
  function ClaimShareBased(s: State, party: Party, counterparty: Party, funds: seq<Coin>, splits: DenomSplits): Done {
    var pays := Payments(DistributionMessages(splits, funds, Some(party.router)));
    var party' := party.(allocation := 0);
    if counterparty.allocation != 0 then
      Done(s.(config := UpdateParties(s.config, party', counterparty.(allocation := ONE))), pays)
    else
      Done(s.(phase := Complete, config := UpdateParties(s.config, party', counterparty)), pays + [LeaveClock])
  }

  function ClaimSideBased(s: State, party: Party, counterparty: Party, funds: seq<Coin>, splits: DenomSplits): Done {
    var pays := Payments(DistributionMessages(splits, funds, None));
    Done(s.(phase := Complete,
            config := UpdateParties(s.config, party.(allocation := 0), counterparty.(allocation := 0))),
         pays + [LeaveClock])
  }

  function RecordRagequit(r: RagequitConfig, party: Party, coins: seq<Coin>): RagequitConfig {
    match r
    case Disabled => Disabled
    case Enabled(t) => Enabled(t.(state := Some(RagequitState(coins, party))))
  }

  function HandleDistribute(s: State, sender: Addr, funds: seq<Coin>): Result<Done, Error> {
    if sender != s.pooler then Err(Unauthorized)
    else
      match s.lock
      case None => Err(WithdrawStateNotStarted)
      case Some(Emergency) => Ok(ClaimSideBased(s, s.config.a, s.config.b, funds, s.splits))
      case Some(Processing(claimer)) =>
        (match AuthorizeSender(s.config, claimer)
         case Err(e) => Err(e)
         case Ok((party, counterparty)) =>
           var s1 := s.(lock := None);
           Ok(match s.config.kind
              case Share => ClaimShareBased(s1, party, counterparty, funds, s.splits)
              case Side => ClaimSideBased(s1, party, counterparty, funds, s.splits)))
      case Some(ProcessingRagequit(claimer, terms)) =>
        match AuthorizeSender(s.config, claimer)
        case Err(e) => Err(e)
        case Ok((party, counterparty)) =>
          match Penalized(s.splits, terms.penalty, party.router, counterparty.router)
          case None => Err(PenaltyError)
          case Some(splits) =>
            var s1 := s.(lock := None, ragequit := RecordRagequit(s.ragequit, party, funds));
            Ok(match s.config.kind
               case Share => ClaimShareBased(s1.(phase := Ragequit), party, counterparty, funds, splits)
               case Side => ClaimSideBased(s1, party, counterparty, funds, splits))
  }

  function HandleWithdrawFailed(s: State, sender: Addr): Result<Done, Error> {
    if sender != s.pooler then Err(Unauthorized) else Ok(Done(s.(lock := None), []))
  }

  /** One message: an error changes nothing. */
  function Handle(s: State, m: Message): Result<Done, Error> {
    match m
    case TickMsg(_, _, _, _, _) => HandleTick(s, m)
    case ClaimMsg(sender) => HandleClaim(s, sender)
    case RagequitMsg(sender, expired) => HandleRagequit(s, sender, expired)
    case EmergencyMsg(sender) => HandleEmergency(s, sender)
    case DistributeMsg(sender, funds) => HandleDistribute(s, sender, funds)
    case WithdrawFailedMsg(sender) => HandleWithdrawFailed(s, sender)
  }

  // ---------- The contract ----------

  /** The contract's storage items and one method per message. */
  class Contract {
    var phase: Phase
    var config: Config
    var lock: Option<Lock>
    var ragequit: RagequitConfig
    const splits: DenomSplits
    const clock: Addr
    const pooler: Addr
    const committee: Option<Addr>

    ghost function View(): State
      reads this
    {
      State(phase, config, lock, ragequit, splits, clock, pooler, committee)
    }

    /** The outcome of a method against the transition it implements. */
    ghost predicate Implements(before: State, m: Message, r: Result<seq<Effect>, Error>)
      reads this
    {
      match r
      case Ok(effects) => Handle(before, m) == Ok(Done(View(), effects))
      case Err(e) => Handle(before, m) == Err(e) && View() == before
    }

    constructor (s: State)
      ensures View() == s
    {
      phase, config, lock, ragequit := s.phase, s.config, s.lock, s.ragequit;
      splits, clock, pooler, committee := s.splits, s.clock, s.pooler, s.committee;
    }

    method Claim(sender: Addr) returns (r: Result<seq<Effect>, Error>)
      modifies this
      ensures Implements(old(View()), ClaimMsg(sender), r)
    {
      if lock.Some? {
        return Err(WithdrawAlreadyStarted);
      }
      var auth := AuthorizeSender(config, sender);
      if auth.Err? {
        return Err(auth.error);
      }
      var party := auth.value.0;
      if phase != Ragequit && phase != Expired {
        return Err(ClaimError);
      }
      lock := Some(Processing(party.host));
      var fraction := if config.kind == Share then Some(party.allocation) else None;
      r := Ok([WithdrawLp(fraction)]);
    }

    method RequestRagequit(sender: Addr, lockupExpired: bool) returns (r: Result<seq<Effect>, Error>)
      modifies this
      ensures Implements(old(View()), RagequitMsg(sender, lockupExpired), r)
    {
      if ragequit.Disabled? {
        return Err(RagequitDisabled);
      }
      if phase != Active {
        return Err(NotActive);
      }
      if lock.Some? {
        return Err(WithdrawAlreadyStarted);
      }
      if lockupExpired {
        return Err(LockupExpired);
      }
      var auth := AuthorizeSender(config, sender);
      if auth.Err? {
        return Err(auth.error);
      }
      var party := auth.value.0;
      var fraction := None;
      if config.kind == Share {
        if party.allocation < ragequit.terms.penalty {
          return Err(Underflow);
        }
        fraction := Some(party.allocation - ragequit.terms.penalty);
      }
      lock := Some(ProcessingRagequit(party.host, ragequit.terms));
      r := Ok([WithdrawLp(fraction)]);
    }

    method EmergencyWithdraw(sender: Addr) returns (r: Result<seq<Effect>, Error>)
      modifies this
      ensures Implements(old(View()), EmergencyMsg(sender), r)
    {
      if lock.Some? {
        return Err(WithdrawAlreadyStarted);
      }
      if committee != Some(sender) {
        return Err(Unauthorized);
      }
      lock := Some(Emergency);
      r := Ok([WithdrawLp(None)]);
    }

    method WithdrawFailed(sender: Addr) returns (r: Result<seq<Effect>, Error>)
      modifies this
      ensures Implements(old(View()), WithdrawFailedMsg(sender), r)
    {
      if sender != pooler {
        return Err(Unauthorized);
      }
      lock := None;
      r := Ok([]);
    }

    method Tick(sender: Addr, depositExpired: bool, lockupExpired: bool, balanceA: nat, balanceB: nat)
      returns (r: Result<seq<Effect>, Error>)
      modifies this
      ensures Implements(old(View()), TickMsg(sender, depositExpired, lockupExpired, balanceA, balanceB), r)
    {
      if sender != clock {
        return Err(Unauthorized);
      }
      match phase
      case Instantiated =>
        if depositExpired {
          phase := Complete;
          return Ok([]);
        }
        if balanceA < config.a.contribution.amount || balanceB < config.b.contribution.amount {
          return Err(InsufficientDeposits);
        }
        phase := Active;
        r := Ok([DepositToPooler([Coin(config.a.contribution.denom, balanceA),
                                  Coin(config.b.contribution.denom, balanceB)])]);
      case Active =>
        if lockupExpired {
          phase := Expired;
        }
        r := Ok([]);
      case Expired =>
        r := Ok([]);
      case Ragequit =>
        r := Ok([]);
      case Complete =>
        r := Ok(Refund(config.a, balanceA) + Refund(config.b, balanceB));
    }

    method Distribute(sender: Addr, funds: seq<Coin>) returns (r: Result<seq<Effect>, Error>)
      modifies this
      ensures Implements(old(View()), DistributeMsg(sender, funds), r)
    {
      if sender != pooler {
        return Err(Unauthorized);
      }
      if lock.None? {
        return Err(WithdrawStateNotStarted);
      }
      if lock.value.Emergency? {
        // returns with the lock in place
        var paid := SettleSideBased(config.a, config.b, funds, splits);
        return Ok(paid);
      }
      var auth := AuthorizeSender(config, lock.value.claimer);
      if auth.Err? {
        return Err(auth.error);
      }
      var (party, counterparty) := auth.value;
      var denomSplits := splits;
      var isRagequit := lock.value.ProcessingRagequit?;
      if isRagequit {
        var penalized := ApplyPenalty(splits, lock.value.terms.penalty, party.router, counterparty.router);
        if penalized.Err? {
          return Err(PenaltyError);
        }
        denomSplits := penalized.value;
      }
      lock := None;
      if isRagequit {
        ragequit := RecordRagequit(ragequit, party, funds);
        if config.kind == Share {
          phase := Ragequit;
        }
      }
      var effects;
      if config.kind == Share {
        effects := SettleShareBased(party, counterparty, funds, denomSplits);
      } else {
        effects := SettleSideBased(party, counterparty, funds, denomSplits);
      }
      r := Ok(effects);
    }

    method SettleShareBased(party: Party, counterparty: Party, funds: seq<Coin>, denomSplits: DenomSplits)
      returns (effects: seq<Effect>)
      modifies this
      ensures Done(View(), effects) == ClaimShareBased(old(View()), party, counterparty, funds, denomSplits)
    {
      effects := Payments(DistributionMessages(denomSplits, funds, Some(party.router)));
      var counter := counterparty;
      if counter.allocation != 0 {
        counter := counter.(allocation := ONE);
      } else {
        phase := Complete;
        effects := effects + [LeaveClock];
      }
      config := UpdateParties(config, party.(allocation := 0), counter);
    }

    method SettleSideBased(party: Party, counterparty: Party, funds: seq<Coin>, denomSplits: DenomSplits)
      returns (effects: seq<Effect>)
      modifies this
      ensures Done(View(), effects) == ClaimSideBased(old(View()), party, counterparty, funds, denomSplits)
    {
      effects := Payments(DistributionMessages(denomSplits, funds, None));
      config := UpdateParties(config, party.(allocation := 0), counterparty.(allocation := 0));
      phase := Complete;
      effects := effects + [LeaveClock];
    }
  }
}
