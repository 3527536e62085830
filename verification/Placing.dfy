// One call of the router's `place`, start to finish, in place: the seven steps
// the interleavings are made of, taken one after the other.
module Placing {
  import opened Accounts
  import opened Basics
  import opened Router
  import opened Trading

  // What the log, the locks, the rules and the venue answer during one call.
  datatype Answers = Answers(
    command: Option<nat>, opens: bool, on: set<string>, rulesAllow: bool, gate: Option<nat>,
    sent: Option<nat>, found: bool, result: Option<nat>)

  function Begins(k: nat, e: nat, venue: Venue, account: string, reduceOnly: bool, a: Answers): Step {
    Begin(k, e, venue, account, reduceOnly, a.command)
  }

  // Where a call begun gets to: each step does nothing once it is over.
  function Decides(w: World, k: nat, a: Answers): World {
    Next(Next(Next(w, Claim(k, a.opens)), Judge(k, a.on, a.rulesAllow)), NoteGate(k, a.gate))
  }

  function Sends(w: World, k: nat, a: Answers): World {
    Next(Next(Next(w, NoteSent(k, a.sent)), Place(k, a.found)), Finish(k, a.result))
  }

  // A call nothing comes between is one of the interleavings.
  lemma ACallIsARun(w: World, k: nat, begins: Step, a: Answers)
    ensures Sends(Decides(Next(w, begins), k, a), k, a)
            == Run(w, [begins, Claim(k, a.opens), Judge(k, a.on, a.rulesAllow), NoteGate(k, a.gate),
                       NoteSent(k, a.sent), Place(k, a.found), Finish(k, a.result)])
  {
    hide Next, Run;
    var w1 := Decides(Next(w, begins), k, a);
    OneStep(Next(Next(w1, NoteSent(k, a.sent)), Place(k, a.found)), Finish(k, a.result), []);
    OneStep(Next(w1, NoteSent(k, a.sent)), Place(k, a.found), [Finish(k, a.result)]);
    var last := [NoteSent(k, a.sent), Place(k, a.found), Finish(k, a.result)];
    OneStep(w1, last[0], last[1..]);
    var judged := Next(Next(Next(w, begins), Claim(k, a.opens)), Judge(k, a.on, a.rulesAllow));
    OneStep(judged, NoteGate(k, a.gate), last);
    var from := [NoteGate(k, a.gate)] + last;
    OneStep(Next(Next(w, begins), Claim(k, a.opens)), Judge(k, a.on, a.rulesAllow), from);
    OneStep(Next(w, begins), Claim(k, a.opens), [Judge(k, a.on, a.rulesAllow)] + from);
    OneStep(w, begins, [Claim(k, a.opens)] + ([Judge(k, a.on, a.rulesAllow)] + from));
    NoStep(Sends(w1, k, a));
    assert [begins] + ([Claim(k, a.opens)] + ([Judge(k, a.on, a.rulesAllow)] + from))
      == [begins, Claim(k, a.opens), Judge(k, a.on, a.rulesAllow), NoteGate(k, a.gate),
          NoteSent(k, a.sent), Place(k, a.found), Finish(k, a.result)];
    assert last == [NoteSent(k, a.sent)] + [Place(k, a.found), Finish(k, a.result)];
    assert [Place(k, a.found), Finish(k, a.result)] == [Place(k, a.found)] + [Finish(k, a.result)];
    assert [Finish(k, a.result)] == [Finish(k, a.result)] + [];
  }

  lemma NoStep(w: World)
    ensures Run(w, []) == w
  {
  }

  lemma OneStep(w: World, s: Step, rest: seq<Step>)
    ensures Run(w, [s] + rest) == Run(Next(w, s), rest)
  {
    hide Next;
    assert ([s] + rest)[1..] == rest;
  }

  // A finished call takes no more steps.
  lemma DoneIsDone(w: World, k: nat, a: Answers)
    requires k in w.calls && w.calls[k].stage.Done?
    ensures Sends(w, k, a) == w
    ensures Next(w, Place(k, a.found)) == w && Next(w, Finish(k, a.result)) == w
  {
  }

  // What several engines share, and who runs.
  class Desk {
    var logs: map<nat, seq<Record>>
    var locks: map<string, nat>
    var orders: seq<Order>
    const engines: map<nat, Engine>
    ghost var calls: map<nat, Call>

    ghost function Value(): World
      reads this
    {
      World(logs, engines, locks, calls, orders)
    }

    constructor (engines: map<nat, Engine>, logs: map<nat, seq<Record>>)
      ensures Value() == World(logs, engines, map[], map[], [])
    {
      this.engines, this.logs, locks, orders, calls := engines, logs, map[], [], map[];
    }

    // Appends to an engine's log, if it can be written.
    method AppendTo(e: Engine, number: Option<nat>, command: Option<nat>, kind: Kind)
      returns (written: Option<nat>)
      modifies this`logs
      ensures written == if Writes(old(Value()), e, number) then number else None
      ensures Value() == Append(old(Value()), e, number, command, kind)
    {
      if e.log.None? || e.log.value !in logs || number.None? {
        return None;
      }
      var log := logs[e.log.value];
      if number.value <= Last(log) || U64 <= number.value {
        return None;
      }
      logs := logs[e.log.value := log + [Record(number.value, command, kind)]];
      written := number;
    }

    // Whether this call is the one the caller has in hand.
    ghost predicate InHand(k: nat, t: Call)
      reads this
    {
      && k in calls && calls[k] == t && Alive(Value(), t.engine)
      && (t.command.Some? ==> t.command.value < U64 && engines[t.engine].log.Some?)
      && (engines[t.engine].log.Some? ==> engines[t.engine].log.value < U64)
    }

    method NoteStep(ghost t: Call, e: nat, command: Option<nat>, number: Option<nat>, kind: Kind)
      returns (written: Option<nat>)
      requires e in engines && t.engine == e && t.command == command
      modifies this`logs
      ensures written == Noted(old(Value()), t, number)
      ensures Value() == Note(old(Value()), t, number, kind)
    {
      if command.None? {
        return None;
      }
      written := AppendTo(engines[e], number, command, kind);
    }

    method BeginStep(k: nat, e: nat, venue: Venue, account: string, reduceOnly: bool, a: Answers)
      returns (command: Option<nat>)
      requires k !in calls && Alive(Value(), e)
      requires engines[e].log.Some? ==> engines[e].log.value < U64
      modifies `logs, `calls
      ensures Value() == Next(old(Value()), Begins(k, e, venue, account, reduceOnly, a))
      ensures InHand(k, Call(e, venue, account, reduceOnly, Begun, command, {}, None, None, None))
    {
      hide Advanced, LockName, TraderFor;
      ghost var w := Next(Value(), Begins(k, e, venue, account, reduceOnly, a));
      command := AppendTo(engines[e], a.command, None, CommandRecord(venue, account));
      calls := w.calls;
    }

    // The account's lock taken for this engine, unless another has it.
    method Claim(e: nat, venue: Venue, account: string, opens: bool) returns (taken: bool)
      requires e in engines
      modifies this`locks
      ensures var name := LockName(venue, account);
              var ours := !engines[e].locking || (name in old(locks) && old(locks)[name] == e);
              && taken == (ours || (name !in old(locks) && opens))
              && locks == if taken && !ours then old(locks)[name := e] else old(locks)
    {
      if !engines[e].locking {
        return true;
      }
      var name := LockName(venue, account);
      if name in locks {
        return locks[name] == e;
      }
      if !opens {
        return false;
      }
      locks := locks[name := e];
      taken := true;
    }

    method ClaimStep(k: nat, ghost t: Call, e: nat, venue: Venue, account: string, opens: bool)
      returns (taken: bool)
      requires InHand(k, t) && t.stage.Begun?
      requires t.engine == e && t.venue == venue && t.account == account
      modifies `locks, `calls
      ensures Value() == Next(old(Value()), Router.Claim(k, opens))
      ensures InHand(k, t.(stage := if taken then Claimed else Decided))
    {
      hide LockName, TraderFor, Append, Began;
      ghost var w := Next(Value(), Router.Claim(k, opens));
      taken := Claim(e, venue, account, opens);
      calls := w.calls;
    }

    method JudgeStep(k: nat, ghost t: Call, venue: Venue, account: string, taken: bool, a: Answers)
      returns (trader: Option<Trader>)
      requires InHand(k, t) && t.stage == (if taken then Claimed else Decided) && t.trader.None?
      requires t.venue == venue && t.account == account
      modifies `calls
      ensures Value() == Next(old(Value()), Judge(k, a.on, a.rulesAllow))
      ensures InHand(k, t.(stage := Decided, on := calls[k].on, trader := trader))
    {
      hide LockName, TraderFor, Append, Began, AfterClaim;
      ghost var w := Next(Value(), Judge(k, a.on, a.rulesAllow));
      trader := None;
      if taken {
        var decided := TraderFor(venue, account, a.on);
        if decided.Ok? && a.rulesAllow {
          trader := Some(decided.value);
        }
      }
      calls := w.calls;
    }

    method GateStep(k: nat, ghost t: Call, e: nat, command: Option<nat>, trader: Option<Trader>, a: Answers)
      requires InHand(k, t) && t.stage.Decided?
      requires t.engine == e && t.command == command && t.trader == trader
      modifies `logs, `calls
      ensures Value() == Next(old(Value()), NoteGate(k, a.gate))
      ensures InHand(k, t.(gateAs := calls[k].gateAs, stage := if trader.Some? then Passed else Done))
    {
      hide LockName, TraderFor, Append, AfterClaim, Began;
      ghost var w := Next(Value(), NoteGate(k, a.gate));
      var _ := NoteStep(t, e, command, a.gate, GateRecord(trader.Some?));
      calls := w.calls;
    }

    // The order's id, if it is on record, and whether the order may go on.
    method SentStep(k: nat, ghost t: Call, e: nat, command: Option<nat>, reduceOnly: bool, a: Answers)
      returns (clientId: Option<string>, goes: bool)
      requires InHand(k, t) && t.stage.Passed? && t.sentAs.None?
      requires t.engine == e && t.command == command && t.reduceOnly == reduceOnly
      modifies `logs, `calls
      ensures Value() == Next(old(Value()), NoteSent(k, a.sent))
      ensures InHand(k, t.(sentAs := calls[k].sentAs, stage := if goes then Ready else Done))
      ensures clientId == if calls[k].sentAs.Some? then IdOf(engines[e], calls[k]) else None
    {
      hide LockName, TraderFor, Append, AfterClaim, Began, ClientId;
      ghost var w := Next(Value(), NoteSent(k, a.sent));
      clientId := None;
      var recorded: Option<nat> := None;
      if engines[e].log.Some? && command.Some? {
        clientId := Some(ClientId(engines[e].log.value, command.value));
        recorded := NoteStep(t, e, command, a.sent, SentRecord(clientId.value));
      }
      calls := w.calls;
      goes := recorded.Some? || reduceOnly;
      if recorded.None? {
        clientId := None;
      }
    }

    method VenueStep(
      k: nat, ghost t: Call, e: nat, trader: Trader, reduceOnly: bool, clientId: Option<string>, a: Answers)
      requires InHand(k, t) && t.stage.Ready?
      requires t.engine == e && t.trader == Some(trader) && t.reduceOnly == reduceOnly
      requires clientId == if t.sentAs.Some? then IdOf(engines[e], t) else None
      modifies `orders, `calls
      ensures Value() == Next(old(Value()), Place(k, a.found))
      ensures InHand(k, t.(stage := if a.found then AtVenue else Done))
      ensures orders == if a.found then old(orders) + [Order(k, trader, reduceOnly, clientId)]
                        else old(orders)
    {
      hide LockName, TraderFor, AfterClaim, Began, ClientId;
      ghost var w := Next(Value(), Place(k, a.found));
      if a.found {
        orders := orders + [Order(k, trader, reduceOnly, clientId)];
      }
      calls := w.calls;
    }

    method FinishStep(k: nat, ghost t: Call, e: nat, command: Option<nat>, a: Answers)
      requires InHand(k, t) && t.stage.AtVenue? && t.engine == e && t.command == command
      modifies `logs, `calls
      ensures Value() == Next(old(Value()), Finish(k, a.result))
    {
      hide LockName, TraderFor, Append, AfterClaim, Began;
      ghost var w := Next(Value(), Finish(k, a.result));
      var _ := NoteStep(t, e, command, a.result, ResultRecord);
      calls := w.calls;
    }

    // The first half of a call: what the gate decides, and the note of it.
    method DecideOrder(k: nat, e: nat, venue: Venue, account: string, reduceOnly: bool, a: Answers)
      returns (command: Option<nat>, trader: Option<Trader>)
      requires k !in calls && Alive(Value(), e)
      requires engines[e].log.Some? ==> engines[e].log.value < U64
      modifies `logs, `locks, `calls
      ensures Value() == Decides(Next(old(Value()), Begins(k, e, venue, account, reduceOnly, a)), k, a)
      ensures k in calls && InHand(k, calls[k]) && calls[k].sentAs.None?
      ensures calls[k].engine == e && calls[k].reduceOnly == reduceOnly
      ensures calls[k].command == command && calls[k].trader == trader
      ensures calls[k].stage == if trader.Some? then Passed else Done
    {
      hide Next, IdOf, LockName, TraderFor, Alive;
      command := BeginStep(k, e, venue, account, reduceOnly, a);
      ghost var w := Value();
      var taken := ClaimStep(k, calls[k], e, venue, account, a.opens);
      trader := JudgeStep(k, calls[k], venue, account, taken, a);
      GateStep(k, calls[k], e, command, trader, a);
      assert Value() == Decides(w, k, a);
    }

    method PlaceOrder(k: nat, e: nat, venue: Venue, account: string, reduceOnly: bool, a: Answers)
      returns (clientId: Option<string>, sent: bool)
      requires k !in calls && Alive(Value(), e)
      requires engines[e].log.Some? ==> engines[e].log.value < U64
      modifies this
      ensures Value()
        == Sends(Decides(Next(old(Value()), Begins(k, e, venue, account, reduceOnly, a)), k, a), k, a)
      ensures |orders| == |old(orders)| + (if sent then 1 else 0)
      ensures sent ==> orders[..|old(orders)|] == old(orders)
                       && orders[|old(orders)|].clientId == clientId
    {
      hide Next, IdOf, Decides, Alive;
      clientId, sent := None, false;
      var command, trader := DecideOrder(k, e, venue, account, reduceOnly, a);
      if trader.None? {
        DoneIsDone(Value(), k, a);
        return;
      }
      var goes;
      clientId, goes := SentStep(k, calls[k], e, command, reduceOnly, a);
      if !goes {
        DoneIsDone(Value(), k, a);
        return;
      }
      VenueStep(k, calls[k], e, trader.value, reduceOnly, clientId, a);
      if !a.found {
        DoneIsDone(Value(), k, a);
        return;
      }
      sent := true;
      FinishStep(k, calls[k], e, command, a);
    }
  }
}
