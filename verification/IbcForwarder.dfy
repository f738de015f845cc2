/**
 The interchain account lifecycle of the IBC forwarder
 (contracts/ibc-forwarder/src/contract.rs and state.rs, packages/covenant-utils/src/ica.rs).
 */
module IbcForwarder {
  import opened Base

  datatype Phase = Instantiated | IcaCreated

  datatype Account = Account(address: Addr, connection: string)

  type PortId = string

  /** `accounts` holds None for a port whose registration was requested. */
  datatype State = State(phase: Phase, accounts: map<PortId, Option<Account>>)

  datatype Error = Unauthorized | FeeQueryFailed | NextContractNotReady | NotFound | Malformed

  /** Messages, each with what the chain answers while it is handled. */
  datatype Message =
    | Tick(authorized: bool, feeKnown: bool, depositAddress: Option<Addr>)
    | OpenAck(port: PortId, version: Option<Account>)
    | Timeout
    | ErrorAck(complete: bool)
    | ResponseAck(complete: bool)

  datatype Effect = RegisterAccount | SubmitTransfer(sender: Addr, receiver: Addr, connection: string)

  datatype Done = Done(state: State, effects: seq<Effect>)

  function HandleTick(s: State, own: PortId, m: Message): Result<Done, Error>
    requires m.Tick?
  {
    if !m.authorized then Err(Unauthorized)
    else
      match s.phase
      case Instantiated =>
        if !m.feeKnown then Err(FeeQueryFailed)
        else Ok(Done(s.(accounts := s.accounts[own := None]), [RegisterAccount]))
      case IcaCreated =>
        if m.depositAddress.None? then Err(NextContractNotReady)
        else if !m.feeKnown then Err(FeeQueryFailed)
        else if own !in s.accounts then Err(NotFound)
        else
          match s.accounts[own]
          case Some(a) => Ok(Done(s, [SubmitTransfer(a.address, m.depositAddress.value, a.connection)]))
          case None => Ok(Done(s.(phase := Instantiated), []))
  }

  /** One message; an error changes nothing. */
  function Handle(s: State, own: PortId, m: Message): Result<Done, Error> {
    match m
    case Tick(_, _, _) => HandleTick(s, own, m)
    case OpenAck(port, version) =>
      if version.None? then Err(Malformed)
      else Ok(Done(State(IcaCreated, s.accounts[port := version]), []))
    case Timeout => Ok(Done(State(Instantiated, map[]), []))
    case ErrorAck(complete) => if complete then Ok(Done(s, [])) else Err(Malformed)
    case ResponseAck(complete) => if complete then Ok(Done(s, [])) else Err(Malformed)
  }

  /** The DepositAddress query. */
  function DepositAddress(s: State, own: PortId): Option<Addr> {
    if own in s.accounts && s.accounts[own].Some? then Some(s.accounts[own].value.address) else None
  }

  // ---------- The contract ----------

  class Contract {
    var phase: Phase
    var accounts: map<PortId, Option<Account>>
    const own: PortId

    ghost function View(): State
      reads this
    {
      State(phase, accounts)
    }

    ghost predicate Implements(before: State, m: Message, r: Result<seq<Effect>, Error>)
      reads this
    {
      match r
      case Ok(effects) => Handle(before, own, m) == Ok(Done(View(), effects))
      case Err(e) => Handle(before, own, m) == Err(e) && View() == before
    }

    constructor (own: PortId)
      ensures View() == State(Instantiated, map[]) && this.own == own
    {
      phase, accounts := Instantiated, map[];
      this.own := own;
    }

    method ExecuteTick(authorized: bool, feeKnown: bool, depositAddress: Option<Addr>)
      returns (r: Result<seq<Effect>, Error>)
      modifies this
      ensures Implements(old(View()), Tick(authorized, feeKnown, depositAddress), r)
    {
      if !authorized {
        return Err(Unauthorized);
      }
      if phase == Instantiated {
        if !feeKnown {
          return Err(FeeQueryFailed);
        }
        accounts := accounts[own := None];
        return Ok([RegisterAccount]);
      }
      if depositAddress.None? {
        return Err(NextContractNotReady);
      }
      if !feeKnown {
        return Err(FeeQueryFailed);
      }
      if own !in accounts {
        return Err(NotFound);
      }
      if accounts[own].Some? {
        var a := accounts[own].value;
        return Ok([SubmitTransfer(a.address, depositAddress.value, a.connection)]);
      }
      phase := Instantiated;
      r := Ok([]);
    }

    method SudoOpenAck(port: PortId, version: Option<Account>) returns (r: Result<seq<Effect>, Error>)
      modifies this
      ensures Implements(old(View()), OpenAck(port, version), r)
    {
      if version.None? {
        return Err(Malformed);
      }
      accounts := accounts[port := version];
      phase := IcaCreated;
      r := Ok([]);
    }

    method SudoTimeout() returns (r: Result<seq<Effect>, Error>)
      modifies this
      ensures Implements(old(View()), Timeout, r)
    {
      phase := Instantiated;
      accounts := map[];
      r := Ok([]);
    }
  }

  // ---------- Every run ----------

  function After(s: State, own: PortId, m: Message): State {
    match Handle(s, own, m) case Ok(d) => d.state case Err(_) => s
  }

  function Run(s: State, own: PortId, ms: seq<Message>): State
    decreases |ms|
  {
    if ms == [] then s else Run(After(s, own, ms[0]), own, ms[1..])
  }

  /** The account exists exactly in the created phase. */
  predicate Consistent(s: State, own: PortId) {
    s.phase == IcaCreated <==> own in s.accounts && s.accounts[own].Some?
  }

  /** An acknowledgement of a channel on somebody else's port while there is no own account. */
  predicate ForeignAck(s: State, own: PortId, m: Message) {
    m.OpenAck? && m.version.Some? && m.port != own && DepositAddress(s, own).None?
  }

  /** A message breaks the correspondence exactly when it is such an acknowledgement. */
  lemma ConsistentStepIff(s: State, own: PortId, m: Message)
    requires Consistent(s, own)
    ensures Consistent(After(s, own, m), own) <==> !ForeignAck(s, own, m)
  {
  }

  /**
   The lifecycle, for every interleaving of ticks, acknowledgements on the own port, timeouts,
   errors and responses: a deposit address is reported exactly in the created phase, and the
   branch that finds no account in that phase is never taken.
   */
  lemma {:induction false} Lifecycle(s: State, own: PortId, ms: seq<Message>, m: Message)
    requires Consistent(s, own)
    requires forall x :: x in ms ==> x.OpenAck? ==> x.port == own
    ensures var t := Run(s, own, ms);
            && (DepositAddress(t, own).Some? <==> t.phase == IcaCreated)
            && (m.Tick? && t.phase == IcaCreated && Handle(t, own, m).Ok? ==>
                  && After(t, own, m) == t
                  && m.depositAddress.Some?
                  && exists c ::
                       Handle(t, own, m).value.effects ==
                       [SubmitTransfer(DepositAddress(t, own).value, m.depositAddress.value, c)])
            && (m.Tick? ==> Handle(t, own, m) != Err(NotFound))
    decreases |ms|
  {
    if ms != [] {
      ConsistentStepIff(s, own, ms[0]);
      Lifecycle(After(s, own, ms[0]), own, ms[1..], m);
    } else if m.Tick? && s.phase == IcaCreated && Handle(s, own, m).Ok? {
      var a := s.accounts[own].value;
      assert Handle(s, own, m).value.effects == [SubmitTransfer(a.address, m.depositAddress.value, a.connection)];
    }
  }

  // ---------- Progress ----------

  /**
   Exactly which ticks succeed, and what they send: a registration before the account exists, and
   afterwards a transfer from the account over its own connection to the next contract's address.
   */
  lemma TickIff(s: State, own: PortId, m: Message)
    requires m.Tick? && Consistent(s, own)
    ensures Handle(s, own, m).Ok? <==>
            m.authorized && m.feeKnown && (s.phase == IcaCreated ==> m.depositAddress.Some?)
    ensures Handle(s, own, m).Ok? ==>
              if s.phase == Instantiated
              then
                && Handle(s, own, m).value.effects == [RegisterAccount]
                && After(s, own, m).phase == Instantiated && DepositAddress(After(s, own, m), own) == None
              else
                && own in s.accounts && s.accounts[own].Some?
                && var account := s.accounts[own].value;
                Handle(s, own, m).value.effects ==
                [SubmitTransfer(account.address, m.depositAddress.value, account.connection)]
    ensures Handle(s, own, m).Ok? && s.phase == IcaCreated ==> After(s, own, m) == s
  {
  }

  /** From any state a timeout starts over: registration, acknowledgement, forwarding from the new account. */
  lemma StartsOver(s: State, own: PortId, account: Account, next: Addr)
    ensures var t := Run(s, own, [Timeout, Tick(true, true, None), OpenAck(own, Some(account))]);
            && t.phase == IcaCreated && DepositAddress(t, own) == Some(account.address)
            && Handle(t, own, Tick(true, true, Some(next))) ==
               Ok(Done(t, [SubmitTransfer(account.address, next, account.connection)]))
    ensures DepositAddress(After(s, own, Timeout), own) == None
  {
    var m1, m2, m3 := Timeout, Tick(true, true, None), OpenAck(own, Some(account));
    assert [m1, m2, m3][1..] == [m2, m3] && [m2, m3][1..] == [m3] && [m3][1..] == [];
    var t := After(After(s, own, m1), own, m2);
    assert Run(t, own, [m3]) == Run(After(t, own, m3), own, []);
  }

  /** An acknowledgement stores exactly the account it carries, under its port, and touches no other port. */
  lemma AckStores(s: State, own: PortId, port: PortId, account: Account, other: PortId)
    ensures var t := After(s, own, OpenAck(port, Some(account)));
            && DepositAddress(t, port) == Some(account.address)
            && (other != port ==> DepositAddress(t, other) == DepositAddress(s, other))
    ensures After(s, own, OpenAck(port, None)) == s
    ensures forall c :: After(s, own, ErrorAck(c)) == s && After(s, own, ResponseAck(c)) == s
  {
  }
}
