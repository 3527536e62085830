// Engines placing orders side by side: one engine per account, and every order
// on record before it is sent. Each step is one engine's, between two awaits.
module Router {
  import opened Accounts
  import opened Basics
  import opened Trading

  // ---- The logs -------------------------------------------------------

  datatype Kind =
    | CommandRecord(venue: Venue, account: string)
    | GateRecord(passed: bool)
    | SentRecord(clientId: string)
    | ResultRecord

  datatype Record = Record(number: nat, command: Option<nat>, kind: Kind)

  function Last(log: seq<Record>): nat { if log == [] then 0 else log[|log| - 1].number }

  // Numbers rise, and a record follows the command it is a step of.
  predicate LogOk(log: seq<Record>) {
    && (forall i, j :: 0 <= i < j < |log| ==> log[i].number < log[j].number)
    && (forall i :: 0 <= i < |log| ==> 0 < log[i].number <= Last(log) && Last(log) < U64)
    && (forall r :: r in log && r.command.Some? ==> r.command.value < r.number)
  }

  // ---- Engines and what they are placing ------------------------------

  // The log it writes to, if it could be opened, by that log's engine id.
  datatype Engine = Engine(log: Option<nat>, locking: bool, live: bool)

  datatype Stage = Begun | Claimed | Decided | Passed | Ready | AtVenue | Done

  // One `place`. `trader` is what the gate decided, `on` the list it asked,
  // and the last two the numbers of its gate and sent records, if written.
  datatype Call = Call(
    engine: nat, venue: Venue, account: string, reduceOnly: bool, stage: Stage,
    command: Option<nat>, on: set<string>, trader: Option<Trader>,
    gateAs: Option<nat>, sentAs: Option<nat>)

  // What an adapter is given.
  datatype Order = Order(call: nat, trader: Trader, reduceOnly: bool, clientId: Option<string>)

  datatype World = World(
    logs: map<nat, seq<Record>>, engines: map<nat, Engine>, locks: map<string, nat>,
    calls: map<nat, Call>, orders: seq<Order>)

  const BEGINNING := World(map[], map[], map[], map[], [])

  // `number` is what `append` returned, if it worked.
  datatype Step =
    | Start(e: nat, log: Option<nat>, locking: bool)
    | Exit(e: nat)
    | Begin(t: nat, e: nat, venue: Venue, account: string, reduceOnly: bool, number: Option<nat>)
    | Claim(t: nat, opens: bool)
    | Judge(t: nat, on: set<string>, rulesAllow: bool)
    | NoteGate(t: nat, number: Option<nat>)
    | NoteSent(t: nat, number: Option<nat>)
    | Place(t: nat, found: bool)
    | Finish(t: nat, number: Option<nat>)

  predicate Alive(w: World, e: nat) { e in w.engines && w.engines[e].live }

  function LogOf(w: World, e: Engine): seq<Record> {
    if e.log.Some? && e.log.value in w.logs then w.logs[e.log.value] else []
  }

  // Whether appending as `number` to the engine's log writes anything.
  predicate Writes(w: World, e: Engine, number: Option<nat>) {
    && e.log.Some? && e.log.value in w.logs
    && number.Some? && Last(w.logs[e.log.value]) < number.value < U64
  }

  function Append(w: World, e: Engine, number: Option<nat>, command: Option<nat>, kind: Kind): World {
    if Writes(w, e, number) then
      var record := Record(number.value, command, kind);
      w.(logs := w.logs[e.log.value := w.logs[e.log.value] + [record]])
    else w
  }

  // The number a step of the call's command is noted under, if it is.
  function Noted(w: World, t: Call, number: Option<nat>): Option<nat> {
    if t.command.Some? && t.engine in w.engines && Writes(w, w.engines[t.engine], number)
    then number else None
  }

  function Note(w: World, t: Call, number: Option<nat>, kind: Kind): (r: World)
    ensures r.engines == w.engines && r.locks == w.locks && r.calls == w.calls && r.orders == w.orders
  {
    if Noted(w, t, number).Some?
    then Append(w, w.engines[t.engine], number, t.command, kind)
    else w
  }

  // The client order id the call's order goes out under.
  function IdOf(e: Engine, t: Call): Option<string> {
    if e.log.Some? && t.command.Some? && e.log.value < U64 && t.command.value < U64
    then Some(ClientId(e.log.value, t.command.value))
    else None
  }

  function WithCall(w: World, k: nat, t: Call): World { w.(calls := w.calls[k := t]) }

  // The account's lock taken by an engine, or refused it.
  function AfterClaim(w: World, k: nat, opens: bool): World
    requires k in w.calls && w.calls[k].engine in w.engines
  {
    var t := w.calls[k];
    var name := LockName(t.venue, t.account);
    if !w.engines[t.engine].locking || (name in w.locks && w.locks[name] == t.engine) then
      WithCall(w, k, t.(stage := Claimed))
    else if name !in w.locks && opens then
      WithCall(w.(locks := w.locks[name := t.engine]), k, t.(stage := Claimed))
    else WithCall(w, k, t.(stage := Decided))
  }

  function Began(w: World, k: nat, t: Call, number: Option<nat>): World
    requires t.engine in w.engines
  {
    var e := w.engines[t.engine];
    var command := if Writes(w, e, number) then number else None;
    WithCall(Append(w, e, number, None, CommandRecord(t.venue, t.account)), k, t.(command := command))
  }

  function Advanced(w: World, k: nat, s: Step): World
    requires k in w.calls && w.calls[k].engine in w.engines
  {
    var t := w.calls[k];
    match s
    case Claim(_, opens) => if t.stage.Begun? then AfterClaim(w, k, opens) else w
    case Judge(_, on, rulesAllow) =>
      if !t.stage.Claimed? then w
      else
        var trader := TraderFor(t.venue, t.account, on);
        WithCall(w, k, t.(stage := Decided, on := on,
                          trader := if trader.Ok? && rulesAllow then Some(trader.value) else None))
    case NoteGate(_, number) =>
      if !t.stage.Decided? then w
      else WithCall(Note(w, t, number, GateRecord(t.trader.Some?)), k,
                    t.(gateAs := Noted(w, t, number), stage := if t.trader.Some? then Passed else Done))
    case NoteSent(_, number) =>
      if !t.stage.Passed? then w
      else
        var id := IdOf(w.engines[t.engine], t);
        var (after, sentAs) :=
          if id.None? then (w, None)
          else (Note(w, t, number, SentRecord(id.value)), Noted(w, t, number));
        WithCall(after, k, t.(sentAs := sentAs,
                              stage := if sentAs.Some? || t.reduceOnly then Ready else Done))
    case Place(_, found) =>
      if !t.stage.Ready? || t.trader.None? then w
      else if !found then WithCall(w, k, t.(stage := Done))
      else
        var id := if t.sentAs.Some? then IdOf(w.engines[t.engine], t) else None;
        var order := Order(k, t.trader.value, t.reduceOnly, id);
        WithCall(w, k, t.(stage := AtVenue)).(orders := w.orders + [order])
    case Finish(_, number) =>
      if !t.stage.AtVenue? then w
      else WithCall(Note(w, t, number, ResultRecord), k, t.(stage := Done))
    case _ => w
  }

  function Next(w: World, s: Step): World {
    match s
    case Start(e, log, locking) =>
      if e in w.engines || (log.Some? && log.value >= U64) then w
      else
        w.(engines := w.engines[e := Engine(log, locking, true)],
           logs := if log.Some? && log.value !in w.logs then w.logs[log.value := []] else w.logs)
    case Exit(e) =>
      if !Alive(w, e) then w
      else
        w.(engines := w.engines[e := w.engines[e].(live := false)],
           locks := map name | name in w.locks && w.locks[name] != e :: w.locks[name])
    case Begin(t, e, venue, account, reduceOnly, number) =>
      if t in w.calls || !Alive(w, e) then w
      else Began(w, t, Call(e, venue, account, reduceOnly, Begun, None, {}, None, None, None), number)
    case _ =>
      if s.t in w.calls && Alive(w, w.calls[s.t].engine) then Advanced(w, s.t, s) else w
  }

  function Run(w: World, steps: seq<Step>): World
    decreases |steps|
  {
    if steps == [] then w else Run(Next(w, steps[0]), steps[1..])
  }

  // ---- What every interleaving keeps ----------------------------------

  predicate PastClaim(t: Call) { t.stage.Claimed? || t.trader.Some? }

  // A call's own records, and nothing else of its command's.
  predicate RecordsOk(t: Call, e: Engine, log: seq<Record>) {
    match t.command
    case None => t.gateAs.None? && t.sentAs.None?
    case Some(c) =>
      && e.log.Some? && e.log.value < U64 && c <= Last(log) && c < U64
      && Record(c, None, CommandRecord(t.venue, t.account)) in log
      && (t.gateAs.Some? ==>
            t.gateAs.value <= Last(log)
            && Record(t.gateAs.value, t.command, GateRecord(t.trader.Some?)) in log)
      && (t.sentAs.Some? ==>
            (t.gateAs.Some? ==> t.gateAs.value < t.sentAs.value)
            && Record(t.sentAs.value, t.command, SentRecord(ClientId(e.log.value, c))) in log)
      && (forall r :: r in log && r.command == t.command && r.kind.GateRecord? ==> t.gateAs == Some(r.number))
      && (forall r :: r in log && r.command == t.command && r.kind.SentRecord? ==> t.sentAs == Some(r.number))
  }

  predicate StageOk(t: Call, e: Engine, locks: map<string, nat>) {
    && (t.stage.Begun? || t.stage.Claimed? ==> t.trader.None?)
    && (t.stage.Begun? || t.stage.Claimed? || t.stage.Decided? ==> t.gateAs.None? && t.sentAs.None?)
    && (t.stage.Passed? ==> t.sentAs.None?)
    && (t.stage.Passed? || t.stage.Ready? || t.stage.AtVenue? ==> t.trader.Some?)
    && (t.trader.Some? ==> TraderFor(t.venue, t.account, t.on) == Ok(t.trader.value))
    && ((t.stage.Ready? || t.stage.AtVenue?) && !t.reduceOnly ==> t.sentAs.Some?)
    && (PastClaim(t) && e.live && e.locking ==>
          var name := LockName(t.venue, t.account); name in locks && locks[name] == t.engine)
  }

  predicate CallOk(w: World, k: nat)
    requires k in w.calls
  {
    var t := w.calls[k];
    && t.engine in w.engines
    && (var e := w.engines[t.engine]; RecordsOk(t, e, LogOf(w, e)) && StageOk(t, e, w.locks))
  }

  // Two calls never share a command.
  predicate Apart(w: World, j: nat, k: nat)
    requires j in w.calls && k in w.calls
  {
    var t, u := w.calls[j], w.calls[k];
    (t.engine in w.engines && u.engine in w.engines && t.command.Some? && t.command == u.command
     && w.engines[t.engine].log == w.engines[u.engine].log) ==> j == k
  }

  predicate OrderOk(w: World, o: Order) {
    && o.call in w.calls
    && (var t := w.calls[o.call];
        && (t.stage.AtVenue? || t.stage.Done?) && t.engine in w.engines
        && t.trader == Some(o.trader) && o.reduceOnly == t.reduceOnly
        && (t.sentAs.Some? || t.reduceOnly)
        && o.clientId == (if t.sentAs.Some? then IdOf(w.engines[t.engine], t) else None))
  }

  predicate LogsOk(w: World) {
    && (forall l :: l in w.logs ==> l < U64 && LogOk(w.logs[l]))
    && (forall e :: e in w.engines && w.engines[e].log.Some? ==> w.engines[e].log.value in w.logs)
  }

  predicate LocksOk(w: World) {
    forall name :: name in w.locks ==> Alive(w, w.locks[name]) && w.engines[w.locks[name]].locking
  }

  predicate CallsOk(w: World) { forall k :: k in w.calls ==> CallOk(w, k) }

  predicate AllApart(w: World) { forall j, k :: j in w.calls && k in w.calls ==> Apart(w, j, k) }

  predicate OrdersOk(w: World) {
    && (forall i :: 0 <= i < |w.orders| ==> OrderOk(w, w.orders[i]))
    && (forall i, j :: 0 <= i < j < |w.orders| ==> w.orders[i].call != w.orders[j].call)
  }

  predicate Sound(w: World) { LogsOk(w) && LocksOk(w) && CallsOk(w) && AllApart(w) && OrdersOk(w) }

  lemma AppendIsOk(log: seq<Record>, r: Record)
    requires LogOk(log) && Last(log) < r.number < U64
    requires r.command.Some? ==> r.command.value <= Last(log)
    ensures LogOk(log + [r]) && Last(log + [r]) == r.number
  {
    var all := log + [r];
    assert forall i :: 0 <= i < |log| ==> all[i] == log[i] && log[i].number <= Last(log);
    assert all[|log|] == r && Last(all) == r.number;
    assert forall x :: x in all ==> x in log || x == r;
  }

  // A record of another command's, or a result, leaves a call's records be.
  lemma AppendKeepsRecords(t: Call, e: Engine, log: seq<Record>, r: Record)
    requires RecordsOk(t, e, log) && LogOk(log) && Last(log) < r.number
    requires t.command.None? || r.command != t.command || r.kind.ResultRecord?
    ensures RecordsOk(t, e, log + [r])
  {
    hide LogOk;
    assert forall x :: x in log ==> x in log + [r];
    assert forall x :: x in log + [r] ==> x in log || x == r;
    assert Last(log + [r]) == r.number;
  }

  lemma NoteKeepsLogs(w: World, k: nat, number: Option<nat>, kind: Kind)
    requires LogsOk(w) && k in w.calls && CallOk(w, k)
    ensures LogsOk(Note(w, w.calls[k], number, kind))
  {
    hide StageOk, LogOk;
    var t := w.calls[k];
    if Noted(w, t, number).Some? {
      var l := w.engines[t.engine].log.value;
      CommandIsLogged(t, w.engines[t.engine], w.logs[l]);
      AppendIsOk(w.logs[l], Record(number.value, t.command, kind));
    }
  }

  lemma NoteKeepsCall(w: World, k: nat, j: nat, number: Option<nat>, kind: Kind)
    requires LogsOk(w) && k in w.calls && j in w.calls && j != k
    requires CallOk(w, j) && CallOk(w, k) && Apart(w, j, k)
    ensures CallOk(Note(w, w.calls[k], number, kind), j)
  {
    hide StageOk, RecordsOk, LogOk;
    var t, u := w.calls[k], w.calls[j];
    if Noted(w, t, number).Some? {
      var l := w.engines[t.engine].log.value;
      var e := w.engines[u.engine];
      if e.log == Some(l) {
        AppendKeepsRecords(u, e, w.logs[l], Record(number.value, t.command, kind));
      }
    }
  }

  // One call's step, a record of its command perhaps noted with it.
  lemma Replaced(w: World, k: nat, t: Call, number: Option<nat>, kind: Kind)
    requires Sound(w) && k in w.calls
    requires t.engine == w.calls[k].engine && t.command == w.calls[k].command
    requires w.calls[k].stage.AtVenue? || w.calls[k].stage.Done? ==> t == w.calls[k].(stage := Done)
    requires CallOk(WithCall(Note(w, w.calls[k], number, kind), k, t), k)
    ensures Sound(WithCall(Note(w, w.calls[k], number, kind), k, t))
  {
    hide StageOk, RecordsOk, LogOk, LogsOk, IdOf, Note, CallOk, Apart, OrderOk;
    var noted := Note(w, w.calls[k], number, kind);
    var after := WithCall(noted, k, t);
    NoteKeepsLogs(w, k, number, kind);
    LogsAlone(noted, after);
    forall j | j in after.calls ensures CallOk(after, j) {
      if j != k {
        assert Apart(w, j, k);
        NoteKeepsCall(w, k, j, number, kind);
        CallAlone(noted, after, j);
      }
    }
    forall i, j | i in after.calls && j in after.calls ensures Apart(after, i, j) {
      ApartAlone(w, after, i, j);
    }
    forall i | 0 <= i < |after.orders| ensures OrderOk(after, after.orders[i]) {
      OrderAlone(w, after, k, w.orders[i]);
    }
  }

  // Each part of the invariant reads only what is named here.
  lemma CallAlone(w: World, after: World, j: nat)
    requires j in w.calls && CallOk(w, j)
    requires after.logs == w.logs && after.engines == w.engines && after.locks == w.locks
    requires j in after.calls && after.calls[j] == w.calls[j]
    ensures CallOk(after, j)
  {
    hide StageOk, RecordsOk;
  }

  lemma ApartAlone(w: World, after: World, i: nat, j: nat)
    requires i in w.calls && j in w.calls && Apart(w, i, j) && after.engines == w.engines
    requires i in after.calls && j in after.calls
    requires after.calls[i].engine == w.calls[i].engine && after.calls[i].command == w.calls[i].command
    requires after.calls[j].engine == w.calls[j].engine && after.calls[j].command == w.calls[j].command
    ensures Apart(after, i, j)
  {
  }

  lemma OrderAlone(w: World, after: World, k: nat, o: Order)
    requires OrderOk(w, o) && k in w.calls && after.engines == w.engines
    requires k in after.calls && after.calls == w.calls[k := after.calls[k]]
    requires w.calls[k].stage.AtVenue? || w.calls[k].stage.Done?
             ==> after.calls[k] == w.calls[k].(stage := Done)
    ensures OrderOk(after, o)
  {
    hide ClientId;
  }

  lemma LogsAlone(w: World, after: World)
    requires LogsOk(w) && after.logs == w.logs && after.engines == w.engines
    ensures LogsOk(after)
  {
  }

  lemma CommandIsLogged(t: Call, e: Engine, log: seq<Record>)
    requires RecordsOk(t, e, log)
    ensures t.command.Some? ==> t.command.value <= Last(log)
  {
  }

  // ---- Step by step ---------------------------------------------------

  // A free lock taken leaves every other lock be.
  lemma LockTaken(w: World, name: string, e: nat)
    requires Sound(w) && name !in w.locks && Alive(w, e) && w.engines[e].locking
    ensures Sound(w.(locks := w.locks[name := e]))
  {
    hide RecordsOk, LogOk, LogsOk, IdOf, OrderOk, LockName, TraderFor, Apart;
    var after := w.(locks := w.locks[name := e]);
    LogsAlone(w, after);
    forall k | k in after.calls ensures CallOk(after, k) {
      assert CallOk(w, k);
    }
    forall i, j | i in after.calls && j in after.calls ensures Apart(after, i, j) {
      ApartAlone(w, after, i, j);
    }
    forall i | 0 <= i < |after.orders| ensures OrderOk(after, after.orders[i]) {
      assert OrderOk(w, w.orders[i]);
      OrderSame(w, after, w.orders[i]);
    }
  }

  lemma OrderSame(w: World, after: World, o: Order)
    requires OrderOk(w, o) && after.engines == w.engines && after.calls == w.calls
    ensures OrderOk(after, o)
  {
    hide ClientId;
  }

  lemma ClaimIsSound(w: World, k: nat, opens: bool)
    requires Sound(w) && k in w.calls && Alive(w, w.calls[k].engine)
    ensures Sound(Advanced(w, k, Claim(k, opens)))
  {
    hide RecordsOk, LogOk, LogsOk, IdOf, OrderOk, LockName, TraderFor, Apart, OrdersOk, AllApart;
    var t := w.calls[k];
    assert CallOk(w, k);
    if t.stage.Begun? {
      var name := LockName(t.venue, t.account);
      if !w.engines[t.engine].locking || (name in w.locks && w.locks[name] == t.engine) {
        StageKeepsRecords(t, t.(stage := Claimed), w.engines[t.engine], LogOf(w, w.engines[t.engine]));
        Replaced(w, k, t.(stage := Claimed), None, ResultRecord);
      } else if name !in w.locks && opens {
        LockTaken(w, name, t.engine);
        var locked := w.(locks := w.locks[name := t.engine]);
        StageKeepsRecords(t, t.(stage := Claimed), w.engines[t.engine], LogOf(w, w.engines[t.engine]));
        Replaced(locked, k, t.(stage := Claimed), None, ResultRecord);
      } else {
        StageKeepsRecords(t, t.(stage := Decided), w.engines[t.engine], LogOf(w, w.engines[t.engine]));
        Replaced(w, k, t.(stage := Decided), None, ResultRecord);
      }
    }
  }

  // A call not yet past the gate has no records but its command's.
  lemma StageKeepsRecords(t: Call, u: Call, e: Engine, log: seq<Record>)
    requires RecordsOk(t, e, log) && t.gateAs.None?
    requires u == t.(stage := u.stage, on := u.on, trader := u.trader)
    ensures RecordsOk(u, e, log)
  {
  }

  lemma JudgeIsSound(w: World, k: nat, on: set<string>, rulesAllow: bool)
    requires Sound(w) && k in w.calls && Alive(w, w.calls[k].engine)
    ensures Sound(Advanced(w, k, Judge(k, on, rulesAllow)))
  {
    hide AfterClaim, RecordsOk, LogOk, LogsOk, LocksOk, IdOf, OrderOk, LockName, TraderFor, Apart, OrdersOk, AllApart;
    var t := w.calls[k];
    assert CallOk(w, k);
    if t.stage.Claimed? {
      var trader := TraderFor(t.venue, t.account, on);
      var u := t.(stage := Decided, on := on,
                  trader := if trader.Ok? && rulesAllow then Some(trader.value) else None);
      StageKeepsRecords(t, u, w.engines[t.engine], LogOf(w, w.engines[t.engine]));
      Replaced(w, k, u, None, ResultRecord);
    }
  }

  // A gate record written, or not, is what the call says of it.
  lemma GateNoted(t: Call, u: Call, e: Engine, log: seq<Record>, number: nat)
    requires RecordsOk(t, e, log) && t.gateAs.None? && t.sentAs.None? && t.command.Some?
    requires Last(log) < number
    requires u == t.(gateAs := Some(number), stage := u.stage)
    ensures RecordsOk(u, e, log + [Record(number, t.command, GateRecord(t.trader.Some?))])
  {
    var r := Record(number, t.command, GateRecord(t.trader.Some?));
    assert forall x :: x in log ==> x in log + [r];
    assert forall x :: x in log + [r] ==> x in log || x == r;
    assert r in log + [r];
  }

  lemma SentNoted(t: Call, u: Call, e: Engine, log: seq<Record>, number: nat)
    requires RecordsOk(t, e, log) && t.sentAs.None? && t.command.Some?
    requires Last(log) < number
    requires u == t.(sentAs := Some(number), stage := u.stage)
    ensures RecordsOk(u, e, log + [Record(number, t.command, SentRecord(ClientId(e.log.value, t.command.value)))])
  {
    var r := Record(number, t.command, SentRecord(ClientId(e.log.value, t.command.value)));
    assert forall x :: x in log ==> x in log + [r];
    assert forall x :: x in log + [r] ==> x in log || x == r;
    assert r in log + [r];
  }

  lemma NoteGateIsSound(w: World, k: nat, number: Option<nat>)
    requires Sound(w) && k in w.calls && Alive(w, w.calls[k].engine)
    ensures Sound(Advanced(w, k, NoteGate(k, number)))
  {
    hide AfterClaim, RecordsOk, LogOk, LogsOk, LocksOk, IdOf, OrderOk, LockName, TraderFor, Apart, OrdersOk, AllApart;
    var t := w.calls[k];
    assert CallOk(w, k);
    if t.stage.Decided? {
      var e := w.engines[t.engine];
      var u := t.(gateAs := Noted(w, t, number), stage := if t.trader.Some? then Passed else Done);
      if Noted(w, t, number).Some? {
        GateNoted(t, u, e, LogOf(w, e), number.value);
      } else {
        StageKeepsRecords(t, u, e, LogOf(w, e));
      }
      Replaced(w, k, u, number, GateRecord(t.trader.Some?));
    }
  }

  lemma StageOnly(t: Call, u: Call, e: Engine, log: seq<Record>)
    requires RecordsOk(t, e, log) && u == t.(stage := u.stage)
    ensures RecordsOk(u, e, log)
  {
  }

  lemma SentIsSound(w: World, k: nat, number: Option<nat>, id: string)
    requires Sound(w) && k in w.calls && CallOk(w, k) && w.calls[k].stage.Passed?
    requires IdOf(w.engines[w.calls[k].engine], w.calls[k]) == Some(id)
    requires Noted(w, w.calls[k], number).Some?
    ensures Sound(WithCall(Note(w, w.calls[k], number, SentRecord(id)), k,
                           w.calls[k].(sentAs := number, stage := Ready)))
  {
    hide RecordsOk, LogOk, LogsOk, LocksOk, ClientId, OrderOk, LockName, TraderFor, Apart, OrdersOk, AllApart;
    var t := w.calls[k];
    var e := w.engines[t.engine];
    var u := t.(sentAs := number, stage := Ready);
    SentNoted(t, u, e, LogOf(w, e), number.value);
    Replaced(w, k, u, number, SentRecord(id));
  }

  lemma UnsentIsSound(w: World, k: nat)
    requires Sound(w) && k in w.calls && CallOk(w, k) && w.calls[k].stage.Passed?
    ensures Sound(WithCall(w, k, w.calls[k].(stage := if w.calls[k].reduceOnly then Ready else Done)))
  {
    hide RecordsOk, LogOk, LogsOk, LocksOk, ClientId, OrderOk, LockName, TraderFor, Apart, OrdersOk, AllApart;
    var t := w.calls[k];
    var e := w.engines[t.engine];
    var u := t.(stage := if t.reduceOnly then Ready else Done);
    StageOnly(t, u, e, LogOf(w, e));
    Replaced(w, k, u, None, ResultRecord);
  }

  lemma NoteSentIsSound(w: World, k: nat, number: Option<nat>)
    requires Sound(w) && k in w.calls && Alive(w, w.calls[k].engine)
    ensures Sound(Advanced(w, k, NoteSent(k, number)))
  {
    hide RecordsOk, LogsOk, LocksOk, OrdersOk, AllApart, AfterClaim, LockName, TraderFor, ClientId;
    var t := w.calls[k];
    assert CallOk(w, k);
    if t.stage.Passed? {
      var id := IdOf(w.engines[t.engine], t);
      if id.Some? && Noted(w, t, number).Some? {
        SentIsSound(w, k, number, id.value);
      } else {
        UnsentIsSound(w, k);
        assert t.(sentAs := None) == t;
      }
    }
  }

  lemma FinishIsSound(w: World, k: nat, number: Option<nat>)
    requires Sound(w) && k in w.calls && Alive(w, w.calls[k].engine)
    ensures Sound(Advanced(w, k, Finish(k, number)))
  {
    hide AfterClaim, RecordsOk, LogOk, LocksOk, IdOf, OrderOk, LockName, TraderFor, Apart, OrdersOk, AllApart;
    var t := w.calls[k];
    assert CallOk(w, k);
    if t.stage.AtVenue? {
      var e := w.engines[t.engine];
      var u := t.(stage := Done);
      StageOnly(t, u, e, LogOf(w, e));
      if Noted(w, t, number).Some? {
        AppendKeepsRecords(u, e, LogOf(w, e), Record(number.value, t.command, ResultRecord));
      }
      Replaced(w, k, u, number, ResultRecord);
    }
  }

  lemma PlaceIsSound(w: World, k: nat, found: bool)
    requires Sound(w) && k in w.calls && Alive(w, w.calls[k].engine)
    ensures Sound(Advanced(w, k, Place(k, found)))
  {
    hide AfterClaim, RecordsOk, LogOk, LogsOk, LocksOk, ClientId, LockName, TraderFor, Apart, AllApart;
    var t := w.calls[k];
    assert CallOk(w, k);
    if t.stage.Ready? {
      var e := w.engines[t.engine];
      var u := t.(stage := if found then AtVenue else Done);
      StageOnly(t, u, e, LogOf(w, e));
      Replaced(w, k, u, None, ResultRecord);
      if found {
        var placed := WithCall(w, k, u);
        var after := Advanced(w, k, Place(k, found));
        forall i | 0 <= i < |w.orders| ensures w.orders[i].call != k {
          assert OrderOk(w, w.orders[i]);
        }
        OrderAdded(placed, after, k);
      }
    }
  }

  lemma OrderAdded(w: World, after: World, k: nat)
    requires Sound(w) && k in w.calls && w.calls[k].stage.AtVenue? && CallOk(w, k)
    requires forall i :: 0 <= i < |w.orders| ==> w.orders[i].call != k
    requires w.calls[k].trader.Some?
    requires var t := w.calls[k];
             after == w.(orders := w.orders + [Order(k, t.trader.value, t.reduceOnly,
               if t.sentAs.Some? then IdOf(w.engines[t.engine], t) else None)])
    ensures Sound(after)
  {
    hide RecordsOk, LogOk, LogsOk, IdOf, LockName, TraderFor, Apart;
    LogsAlone(w, after);
    forall j | j in after.calls ensures CallOk(after, j) {
      CallAlone(w, after, j);
    }
    forall i, j | i in after.calls && j in after.calls ensures Apart(after, i, j) {
      ApartAlone(w, after, i, j);
    }
    forall i | 0 <= i < |after.orders| ensures OrderOk(after, after.orders[i]) {
      if i < |w.orders| {
        assert OrderOk(w, w.orders[i]);
        OrderSame(w, after, w.orders[i]);
      }
    }
  }

  // Another engine, and a log of its own perhaps, are nothing to a call.
  predicate Joined(w: World, after: World) {
    && after.locks == w.locks && after.calls == w.calls && after.orders == w.orders
    && (forall e :: e in w.engines ==> e in after.engines && after.engines[e] == w.engines[e])
    && (forall l :: l in w.logs ==> l in after.logs && after.logs[l] == w.logs[l])
  }

  lemma JoinedCall(w: World, after: World, k: nat)
    requires LogsOk(w) && k in w.calls && CallOk(w, k) && Joined(w, after)
    ensures CallOk(after, k)
  {
    hide RecordsOk, StageOk, LogOk;
  }

  lemma JoinedRest(w: World, after: World)
    requires AllApart(w) && CallsOk(w) && OrdersOk(w) && LocksOk(w) && Joined(w, after)
    ensures AllApart(after) && OrdersOk(after) && LocksOk(after)
  {
    hide RecordsOk, StageOk, ClientId;
    forall i, j | i in after.calls && j in after.calls ensures Apart(after, i, j) {
      assert Apart(w, i, j) && CallOk(w, i) && CallOk(w, j);
    }
    forall i | 0 <= i < |after.orders| ensures OrderOk(after, after.orders[i]) {
      assert OrderOk(w, w.orders[i]);
    }
  }

  lemma StartIsSound(w: World, e: nat, log: Option<nat>, locking: bool)
    requires Sound(w)
    ensures Sound(Next(w, Start(e, log, locking)))
  {
    hide CallOk, AllApart, OrdersOk, LocksOk, Advanced;
    var after := Next(w, Start(e, log, locking));
    if after != w {
      assert Joined(w, after);
      assert LogsOk(after);
      forall k | k in after.calls ensures CallOk(after, k) {
        JoinedCall(w, after, k);
      }
      JoinedRest(w, after);
    }
  }

  lemma ExitKeepsCall(w: World, e: nat, k: nat)
    requires Alive(w, e) && k in w.calls && CallOk(w, k)
    ensures CallOk(Next(w, Exit(e)), k)
  {
    hide RecordsOk, LockName, TraderFor, Advanced;
    var after := Next(w, Exit(e));
    var t := w.calls[k];
    assert LogOf(after, after.engines[t.engine]) == LogOf(w, w.engines[t.engine]);
    ExitKeepsRecords(t, w.engines[t.engine], after.engines[t.engine], LogOf(w, w.engines[t.engine]));
  }

  lemma ExitKeepsRecords(t: Call, e: Engine, f: Engine, log: seq<Record>)
    requires RecordsOk(t, e, log) && f.log == e.log
    ensures RecordsOk(t, f, log)
  {
  }

  lemma ExitIsSound(w: World, e: nat)
    requires Sound(w)
    ensures Sound(Next(w, Exit(e)))
  {
    hide LogOk, ClientId, LockName, TraderFor, Advanced, CallOk;
    var after := Next(w, Exit(e));
    if after != w {
      forall k | k in after.calls ensures CallOk(after, k) {
        ExitKeepsCall(w, e, k);
      }
      forall i, j | i in after.calls && j in after.calls ensures Apart(after, i, j) {
        assert Apart(w, i, j);
      }
      forall i | 0 <= i < |after.orders| ensures OrderOk(after, after.orders[i]) {
        assert OrderOk(w, w.orders[i]);
      }
    }
  }

  // What a call begun leaves: its command on record, if it could be written.
  predicate IsBegun(w: World, after: World, k: nat, t: Call, number: Option<nat>) {
    && k !in w.calls && t.engine in w.engines
    && (var e := w.engines[t.engine];
        && t == Call(t.engine, t.venue, t.account, t.reduceOnly, Begun,
                     if Writes(w, e, number) then number else None, {}, None, None, None)
        && after == WithCall(Append(w, e, number, None, CommandRecord(t.venue, t.account)), k, t))
  }

  lemma BegunLogs(w: World, after: World, k: nat, t: Call, number: Option<nat>)
    requires Sound(w) && IsBegun(w, after, k, t, number)
    ensures LogsOk(after)
  {
    hide LogOk;
    var e := w.engines[t.engine];
    if Writes(w, e, number) {
      AppendIsOk(w.logs[e.log.value], Record(number.value, None, CommandRecord(t.venue, t.account)));
    }
  }

  lemma BegunKeeps(w: World, after: World, k: nat, t: Call, number: Option<nat>, j: nat)
    requires Sound(w) && IsBegun(w, after, k, t, number) && j in w.calls
    ensures CallOk(after, j)
  {
    hide LogOk, RecordsOk, StageOk;
    assert CallOk(w, j);
    var e, u := w.engines[t.engine], w.calls[j];
    if Writes(w, e, number) && w.engines[u.engine].log == e.log {
      AppendKeepsCommand(u, w.engines[u.engine], w.logs[e.log.value],
                         Record(number.value, None, CommandRecord(t.venue, t.account)));
    }
  }

  lemma AppendKeepsCommand(t: Call, e: Engine, log: seq<Record>, r: Record)
    requires RecordsOk(t, e, log) && LogOk(log) && Last(log) < r.number && r.kind.CommandRecord?
    ensures RecordsOk(t, e, log + [r])
  {
    hide LogOk;
    assert forall x :: x in log ==> x in log + [r];
    assert forall x :: x in log + [r] ==> x in log || x == r;
    assert Last(log + [r]) == r.number;
  }

  lemma BegunCall(w: World, after: World, k: nat, t: Call, number: Option<nat>)
    requires Sound(w) && IsBegun(w, after, k, t, number)
    ensures CallOk(after, k)
  {
    var e := w.engines[t.engine];
    if Writes(w, e, number) {
      var log := w.logs[e.log.value];
      var r := Record(number.value, None, CommandRecord(t.venue, t.account));
      assert LogOk(log) && e.log.value < U64;
      assert forall x :: x in log + [r] ==> x in log || x == r;
      assert r in log + [r];
      forall x | x in log && x.command.Some? ensures x.command.value < number.value {
        assert exists i :: 0 <= i < |log| && log[i] == x;
      }
    }
  }

  lemma BegunApart(w: World, after: World, k: nat, t: Call, number: Option<nat>, i: nat, j: nat)
    requires Sound(w) && IsBegun(w, after, k, t, number) && i in after.calls && j in after.calls
    ensures Apart(after, i, j)
  {
    hide LogOk, StageOk;
    if i in w.calls && j in w.calls {
      assert Apart(w, i, j);
    } else if i != j {
      var other := if i == k then j else i;
      assert CallOk(w, other);
      CommandIsLogged(w.calls[other], w.engines[w.calls[other].engine],
                      LogOf(w, w.engines[w.calls[other].engine]));
    }
  }

  // A command's number is above every other's in its log.
  lemma BeginIsSound(
    w: World, k: nat, e: nat, venue: Venue, account: string, reduceOnly: bool, number: Option<nat>)
    requires Sound(w)
    ensures Sound(Next(w, Begin(k, e, venue, account, reduceOnly, number)))
  {
    hide StageOk, RecordsOk, LogOk, ClientId, LockName, TraderFor, Advanced, LogsOk, CallOk, Apart;
    var after := Next(w, Begin(k, e, venue, account, reduceOnly, number));
    if k !in w.calls && Alive(w, e) {
      var t := after.calls[k];
      assert IsBegun(w, after, k, t, number);
      BegunLogs(w, after, k, t, number);
      forall j | j in after.calls ensures CallOk(after, j) {
        if j == k {
          BegunCall(w, after, k, t, number);
        } else {
          BegunKeeps(w, after, k, t, number, j);
        }
      }
      forall i, j | i in after.calls && j in after.calls ensures Apart(after, i, j) {
        BegunApart(w, after, k, t, number, i, j);
      }
      forall i | 0 <= i < |after.orders| ensures OrderOk(after, after.orders[i]) {
        assert OrderOk(w, w.orders[i]);
      }
    }
  }

  lemma NextIsSound(w: World, s: Step)
    requires Sound(w)
    ensures Sound(Next(w, s))
  {
    hide Sound, Advanced, Began;
    match s
    case Start(e, log, locking) => StartIsSound(w, e, log, locking);
    case Exit(e) => ExitIsSound(w, e);
    case Begin(t, e, venue, account, reduceOnly, number) =>
      BeginIsSound(w, t, e, venue, account, reduceOnly, number);
    case _ =>
      if s.t in w.calls && Alive(w, w.calls[s.t].engine) {
        match s
        case Claim(t, opens) => ClaimIsSound(w, t, opens);
        case Judge(t, on, rulesAllow) => JudgeIsSound(w, t, on, rulesAllow);
        case NoteGate(t, number) => NoteGateIsSound(w, t, number);
        case NoteSent(t, number) => NoteSentIsSound(w, t, number);
        case Place(t, found) => PlaceIsSound(w, t, found);
        case Finish(t, number) => FinishIsSound(w, t, number);
        case _ =>
      }
  }

  lemma {:induction false} RunIsSound(w: World, steps: seq<Step>)
    requires Sound(w)
    ensures Sound(Run(w, steps))
    decreases |steps|
  {
    hide Sound, Next;
    if steps != [] {
      NextIsSound(w, steps[0]);
      RunIsSound(Next(w, steps[0]), steps[1..]);
    }
  }

  // ---- Safety, over every interleaving --------------------------------

  ghost predicate Reachable(w: World) { exists steps :: Run(BEGINNING, steps) == w }

  lemma ReachableIsSound(w: World)
    requires Reachable(w)
    ensures Sound(w)
  {
    var steps :| Run(BEGINNING, steps) == w;
    RunIsSound(BEGINNING, steps);
  }

  // A call of an engine that runs and locks, past its account's lock.
  predicate Holding(w: World, k: nat) {
    && k in w.calls && PastClaim(w.calls[k])
    && Alive(w, w.calls[k].engine) && w.engines[w.calls[k].engine].locking
  }

  // No two engines that run and lock hold one lock.
  lemma OneEngineALock(w: World, j: nat, k: nat)
    requires Reachable(w) && Holding(w, j) && Holding(w, k)
    requires LockName(w.calls[j].venue, w.calls[j].account) == LockName(w.calls[k].venue, w.calls[k].account)
    ensures w.calls[j].engine == w.calls[k].engine
  {
    hide Reachable, RecordsOk, LogsOk, OrdersOk, AllApart, LockName, TraderFor;
    ReachableIsSound(w);
    assert CallOk(w, j) && CallOk(w, k);
  }

  // An order's command, then its client order id, written to a log that gives
  // the id its first half.
  predicate OnRecord(log: seq<Record>, l: nat, venue: Venue, account: string, id: string) {
    exists r, x | r in log && x in log ::
      && r.kind == CommandRecord(venue, account) && r.number < U64 && l < U64
      && x.kind == SentRecord(id) && x.command == Some(r.number) && r.number < x.number
      && id == ClientId(l, r.number)
  }

  // When an order reaches an adapter, its account has been let through and the
  // order is on record under its id already; only a reduce-only order can go
  // unrecorded, and then it has no id.
  lemma AnOrderIsOnRecordFirst(w: World, s: Step)
    requires Reachable(w) && |Next(w, s).orders| > |w.orders|
    ensures var o := Next(w, s).orders[|w.orders|];
            && o.call in w.calls
            && (var t := w.calls[o.call];
                && TraderFor(t.venue, t.account, t.on) == Ok(o.trader) && o.reduceOnly == t.reduceOnly
                && (o.clientId.None? ==> o.reduceOnly)
                && (o.clientId.Some? ==>
                      && Alive(w, t.engine) && w.engines[t.engine].log.Some?
                      && (var l := w.engines[t.engine].log.value;
                          l in w.logs && OnRecord(w.logs[l], l, t.venue, t.account, o.clientId.value))))
  {
    hide Reachable, LogOk, OrdersOk, AllApart, LockName, TraderFor, ClientId, OnRecord;
    ReachableIsSound(w);
    assert s.Place? && s.t in w.calls;
    assert CallOk(w, s.t);
    var t := w.calls[s.t];
    if t.sentAs.Some? {
      RecordsAreInOrder(LogOf(w, w.engines[t.engine]), t, w.engines[t.engine]);
    }
  }

  lemma RecordsAreInOrder(log: seq<Record>, t: Call, e: Engine)
    requires LogOk(log) && RecordsOk(t, e, log) && t.sentAs.Some?
    ensures OnRecord(log, e.log.value, t.venue, t.account, ClientId(e.log.value, t.command.value))
  {
    hide ClientId;
    var r := Record(t.command.value, None, CommandRecord(t.venue, t.account));
    var x := Record(t.sentAs.value, t.command, SentRecord(ClientId(e.log.value, t.command.value)));
    assert r in log && x in log;
  }

  // No two orders, of any engines, ever went out under one id.
  lemma NoIdIsSentTwice(w: World, i: nat, j: nat)
    requires Reachable(w) && i < j < |w.orders| && w.orders[i].clientId.Some?
    ensures w.orders[i].clientId != w.orders[j].clientId
  {
    hide Reachable, LogsOk, LockName, TraderFor, ClientId, LocksOk, StageOk, LogOf;
    ReachableIsSound(w);
    var o, p := w.orders[i], w.orders[j];
    assert OrderOk(w, o) && OrderOk(w, p);
    assert CallOk(w, o.call) && CallOk(w, p.call) && Apart(w, o.call, p.call);
    var t, u := w.calls[o.call], w.calls[p.call];
    if p.clientId.Some? {
      ClientIdIsInjective(w.engines[t.engine].log.value, t.command.value,
                          w.engines[u.engine].log.value, u.command.value);
    }
  }

  // A step that notes what the gate decided of a call, and is written.
  predicate WritesGate(w: World, s: Step, k: nat) {
    && s.NoteGate? && s.t == k && k in w.calls && Alive(w, w.calls[k].engine)
    && w.calls[k].stage.Decided? && w.calls[k].command.Some?
    && Writes(w, w.engines[w.calls[k].engine], s.number)
  }

  ghost predicate GateWritten(steps: seq<Step>, k: nat) {
    exists m: nat :: m < |steps| && WritesGate(Run(BEGINNING, steps[..m]), steps[m], k)
  }

  predicate HasGate(w: World, k: nat) { k in w.calls && w.calls[k].gateAs.Some? }

  lemma GateAfterStep(w: World, s: Step, k: nat)
    requires Sound(w)
    ensures HasGate(Next(w, s), k) <==> HasGate(w, k) || WritesGate(w, s, k)
  {
    hide RecordsOk, LogOk, LogsOk, LocksOk, OrdersOk, AllApart, LockName, TraderFor, ClientId;
    if k in w.calls {
      assert CallOk(w, k);
    }
  }

  lemma {:induction false} GateHistory(steps: seq<Step>, k: nat)
    ensures HasGate(Run(BEGINNING, steps), k) <==> GateWritten(steps, k)
    decreases |steps|
  {
    hide Next, Run, WritesGate, HasGate, Sound, Reachable;
    if steps == [] {
      Beginning(k);
    } else {
      var n := |steps| - 1;
      var before := steps[..n];
      var w := Run(BEGINNING, before);
      GateHistory(before, k);
      assert steps == before + [steps[n]];
      RunOnce(BEGINNING, before, steps[n]);
      RunReaches(before);
      ReachableIsSound(w);
      GateAfterStep(w, steps[n], k);
      if GateWritten(before, k) {
        var m: nat :| m < n && WritesGate(Run(BEGINNING, before[..m]), before[m], k);
        assert before[..m] == steps[..m] && before[m] == steps[m];
      }
      if GateWritten(steps, k) {
        var m: nat :| m < |steps| && WritesGate(Run(BEGINNING, steps[..m]), steps[m], k);
        if m < n {
          assert before[..m] == steps[..m] && before[m] == steps[m];
        }
      }
    }
  }

  lemma Beginning(k: nat)
    ensures !HasGate(Run(BEGINNING, []), k)
  {
  }

  lemma RunReaches(steps: seq<Step>)
    ensures Reachable(Run(BEGINNING, steps))
  {
  }

  // Between an order's command and its sent record its log shows the gate's
  // pass exactly if the note of it was written when the gate had decided, which
  // nothing waits for.
  lemma ThePassIsOnRecordIfWritten(steps: seq<Step>, i: nat)
    requires i < |Run(BEGINNING, steps).orders| && Run(BEGINNING, steps).orders[i].clientId.Some?
    ensures Run(BEGINNING, steps).orders[i].call in Run(BEGINNING, steps).calls
    ensures var w := Run(BEGINNING, steps);
            var t := w.calls[w.orders[i].call];
            && t.engine in w.engines && t.command.Some? && t.sentAs.Some?
            && ((exists g | g in LogOf(w, w.engines[t.engine]) ::
                   g.kind == GateRecord(true) && g.command == t.command
                   && t.command.value < g.number < t.sentAs.value)
                <==> GateWritten(steps, w.orders[i].call))
  {
    hide Run, Reachable, GateWritten, LockName, TraderFor, ClientId, LocksOk, AllApart;
    RunReaches(steps);
    var w := Run(BEGINNING, steps);
    ReachableIsSound(w);
    GateHistory(steps, w.orders[i].call);
    var o := w.orders[i];
    assert OrderOk(w, o) && CallOk(w, o.call);
    var t := w.calls[o.call];
    var log := LogOf(w, w.engines[t.engine]);
    if t.gateAs.Some? {
      var g := Record(t.gateAs.value, t.command, GateRecord(true));
      assert g in log && LogOk(log);
    }
  }

  // What a log shows refused was never given to an adapter.
  lemma ARefusedCommandIsNotSent(w: World, i: nat, r: Record)
    requires Reachable(w) && i < |w.orders| && r.kind == GateRecord(false)
    ensures w.orders[i].call in w.calls
    ensures var t := w.calls[w.orders[i].call];
            && t.engine in w.engines
            && (t.command.Some? && r in LogOf(w, w.engines[t.engine]) ==> r.command != t.command)
  {
    hide Reachable, LockName, TraderFor, ClientId, LocksOk, AllApart;
    ReachableIsSound(w);
    var o := w.orders[i];
    assert OrderOk(w, o) && CallOk(w, o.call);
    var t := w.calls[o.call];
    var log := LogOf(w, w.engines[t.engine]);
    if t.command.Some? && r in log && r.command == t.command {
      NumbersTell(log, r, Record(t.gateAs.value, t.command, GateRecord(true)));
    }
  }

  lemma NumbersTell(log: seq<Record>, r: Record, x: Record)
    requires LogOk(log) && r in log && x in log && r.number == x.number
    ensures r == x
  {
    var i :| 0 <= i < |log| && log[i] == r;
    var j :| 0 <= j < |log| && log[j] == x;
  }

  lemma {:induction false} RunOnce(w: World, steps: seq<Step>, s: Step)
    ensures Run(w, steps + [s]) == Next(Run(w, steps), s)
    decreases |steps|
  {
    hide Next;
    if steps == [] {
      assert Run(Next(w, s), []) == Next(w, s);
    } else {
      assert (steps + [s])[1..] == steps[1..] + [s];
      RunOnce(Next(w, steps[0]), steps[1..], s);
    }
  }

  lemma TheBeginningIsReachable()
    ensures Reachable(BEGINNING)
  {
    assert Run(BEGINNING, []) == BEGINNING;
  }

  lemma ReachableNext(w: World, s: Step)
    requires Reachable(w)
    ensures Reachable(Next(w, s))
  {
    hide Next;
    var steps :| Run(BEGINNING, steps) == w;
    RunOnce(BEGINNING, steps, s);
  }

  // One engine, one log, one call.
  function Alone(t: Call, log: seq<Record>, orders: seq<Order>): World {
    World(map[1 := log], map[0 := Engine(Some(1), false, true)], map[], map[0 := t], orders)
  }

  lemma AloneBegins(t: Call)
    requires t == Call(0, t.venue, t.account, false, Begun, Some(1), {}, None, None, None)
    ensures Reachable(Alone(t, [Record(1, None, CommandRecord(t.venue, t.account))], []))
  {
    hide Reachable, LockName, TraderFor, ClientId, Run, Advanced;
    var begin := Begin(0, 0, t.venue, t.account, false, Some(1));
    TheBeginningIsReachable();
    ReachableNext(BEGINNING, Start(0, Some(1), false));
    var w := Next(BEGINNING, Start(0, Some(1), false));
    assert w == World(map[1 := []], map[0 := Engine(Some(1), false, true)], map[], map[], []);
    ReachableNext(w, begin);
    assert Writes(w, w.engines[0], Some(1));
    var r := Record(1, None, CommandRecord(t.venue, t.account));
    assert Next(w, begin).logs == w.logs[1 := w.logs[1] + [r]];
    assert w.logs[1] + [r] == [r];
    assert Next(w, begin).logs == map[1 := [r]];
    assert Next(w, begin).calls == map[0 := t];
    assert Next(w, begin) == Alone(t, [r], []);
  }

  lemma AloneAdvances(t: Call, log: seq<Record>, s: Step, u: Call)
    requires Reachable(Alone(t, log, [])) && t.engine == 0 && t.command == Some(1) && t.reduceOnly == false
    requires Last(log) == 1
    requires match s
      case Claim(k, _) => k == 0 && t.stage.Begun? && u == t.(stage := Claimed)
      case Judge(k, on, allow) =>
        k == 0 && t.stage.Claimed? && allow && TraderFor(t.venue, t.account, on).Ok?
        && u == t.(stage := Decided, on := on, trader := Some(TraderFor(t.venue, t.account, on).value))
      case NoteGate(k, number) =>
        k == 0 && t.stage.Decided? && t.trader.Some? && number == None
        && u == t.(stage := Passed, gateAs := None)
      case _ => false
    ensures Reachable(Alone(u, log, []))
  {
    hide Reachable, LockName, TraderFor, ClientId, Run;
    ReachableNext(Alone(t, log, []), s);
    assert Next(Alone(t, log, []), s) == Alone(u, log, []);
  }

  lemma AloneSends(t: Call, command: Record) returns (w: World)
    requires Reachable(Alone(t, [command], [])) && t.engine == 0 && !t.reduceOnly
    requires t.stage.Passed? && t.command == Some(1) && t.trader.Some? && command.number == 1
    ensures Reachable(w) && |w.orders| == 1 && !w.orders[0].reduceOnly
    ensures w.orders[0].clientId == Some(ClientId(1, 1))
    ensures 1 in w.logs && w.logs[1] == [command, Record(2, Some(1), SentRecord(ClientId(1, 1)))]
  {
    hide Reachable, LockName, TraderFor, ClientId, Run;
    var was := Alone(t, [command], []);
    ReachableNext(was, NoteSent(0, Some(2)));
    var w1 := Next(was, NoteSent(0, Some(2)));
    var u := t.(stage := Ready, sentAs := Some(2));
    assert Writes(was, was.engines[0], Some(2));
    assert w1.logs[1] == [command] + [Record(2, Some(1), SentRecord(ClientId(1, 1)))];
    assert w1.calls[0] == u && w1.engines == was.engines && w1.orders == [];
    ReachableNext(w1, Place(0, true));
    w := Next(w1, Place(0, true));
    assert w.orders == [] + [Order(0, t.trader.value, false, Some(ClientId(1, 1)))];
  }

  // An opening order can go out with no pass on record: the gate's note failed
  // and the next one didn't.
  lemma AnUnloggedPassIsStillSent(venue: Venue, account: string, on: set<string>) returns (w: World)
    requires TraderFor(venue, account, on).Ok?
    ensures Reachable(w) && |w.orders| == 1 && !w.orders[0].reduceOnly
    ensures 1 in w.logs && w.orders[0].clientId.Some?
    ensures OnRecord(w.logs[1], 1, venue, account, w.orders[0].clientId.value)
    ensures forall r :: r in w.logs[1] ==> !r.kind.GateRecord?
  {
    hide Reachable, LockName, TraderFor, ClientId, Run, Next;
    var command, sent := Record(1, None, CommandRecord(venue, account)),
                         Record(2, Some(1), SentRecord(ClientId(1, 1)));
    var t := Call(0, venue, account, false, Begun, Some(1), {}, None, None, None);
    AloneBegins(t);
    AloneAdvances(t, [command], Claim(0, true), t.(stage := Claimed));
    var passed := t.(stage := Decided, on := on, trader := Some(TraderFor(venue, account, on).value));
    AloneAdvances(t.(stage := Claimed), [command], Judge(0, on, true), passed);
    AloneAdvances(passed, [command], NoteGate(0, None), passed.(stage := Passed));
    w := AloneSends(passed.(stage := Passed), command);
    assert command in w.logs[1] && sent in w.logs[1];
  }

  // ---- One engine an account ------------------------------------------

  // Two engines, each past its claim of one of two accounts.
  predicate Two(w: World, j: nat, k: nat, v: Venue, a: string, u: Venue, b: string) {
    && Holding(w, j) && Holding(w, k) && w.calls[j].engine != w.calls[k].engine
    && w.calls[j].venue == v && w.calls[j].account == a && w.calls[k].venue == u && w.calls[k].account == b
  }

  function NewCall(e: nat, venue: Venue, account: string): Call {
    Call(e, venue, account, false, Begun, None, {}, None, None, None)
  }

  // Two engines without logs, and the calls they have begun.
  function Pair(calls: map<nat, Call>, locks: map<string, nat>): World {
    World(map[], map[0 := Engine(None, true, true), 1 := Engine(None, true, true)], locks, calls, [])
  }

  lemma PairBegins(v: Venue, a: string, u: Venue, b: string)
    ensures Reachable(Pair(map[0 := NewCall(0, v, a), 1 := NewCall(1, u, b)], map[]))
  {
    hide Reachable, LockName, Run, Advanced;
    TheBeginningIsReachable();
    ReachableNext(BEGINNING, Start(0, None, true));
    var w1 := Next(BEGINNING, Start(0, None, true));
    ReachableNext(w1, Start(1, None, true));
    assert Next(w1, Start(1, None, true)) == Pair(map[], map[]);
    ReachableNext(Pair(map[], map[]), Begin(0, 0, v, a, false, None));
    var begun := map[0 := NewCall(0, v, a)];
    assert Next(Pair(map[], map[]), Begin(0, 0, v, a, false, None)) == Pair(begun, map[]);
    ReachableNext(Pair(begun, map[]), Begin(1, 1, u, b, false, None));
    assert Next(Pair(begun, map[]), Begin(1, 1, u, b, false, None)) == Pair(begun[1 := NewCall(1, u, b)], map[]);
    assert begun[1 := NewCall(1, u, b)] == map[0 := NewCall(0, v, a), 1 := NewCall(1, u, b)];
  }

  lemma PairClaims(v: Venue, a: string, u: Venue, b: string) returns (w: World)
    requires LockName(v, a) != LockName(u, b)
    ensures Reachable(w) && Two(w, 0, 1, v, a, u, b)
  {
    hide Reachable, LockName, Run;
    PairBegins(v, a, u, b);
    var w0 := Pair(map[0 := NewCall(0, v, a), 1 := NewCall(1, u, b)], map[]);
    ReachableNext(w0, Claim(0, true));
    var w1 := Next(w0, Claim(0, true));
    assert w1.calls[0].stage.Claimed? && w1.calls[1] == NewCall(1, u, b) && w1.engines == w0.engines;
    assert LockName(u, b) !in w1.locks;
    ReachableNext(w1, Claim(1, true));
    w := Next(w1, Claim(1, true));
  }

  // Two engines can be at two accounts exactly if a lock file tells the two
  // apart: by venue, or by a character that one can hold.
  lemma TwoEnginesExactly(v: Venue, a: string, u: Venue, b: string)
    ensures (exists w, j: nat, k: nat :: Reachable(w) && Two(w, j, k, v, a, u, b))
            <==> v != u || SafeAll(a) != SafeAll(b)
  {
    hide Reachable, LockName;
    LocksAreShared(v, a, u, b);
    if LockName(v, a) == LockName(u, b) {
      forall w, j: nat, k: nat | Reachable(w) && Two(w, j, k, v, a, u, b) ensures false {
        OneEngineALock(w, j, k);
      }
    } else {
      var w := PairClaims(v, a, u, b);
    }
  }

  predicate HoldsAccount(w: World, k: nat, known: Known) {
    Holding(w, k) && Identity(w.calls[k].venue, w.calls[k].account) == Some(known)
  }

  // One engine an account, however any call of any of them spells it.
  ghost predicate OneEngine(known: Known) {
    forall w, j: nat, k: nat ::
      Reachable(w) && HoldsAccount(w, j, known) && HoldsAccount(w, k, known)
      ==> w.calls[j].engine == w.calls[k].engine
  }

  // It holds of numbered accounts, which have one spelling, and of no wallet.
  lemma OneEngineExactly(venue: Venue, account: string)
    requires Identity(venue, account).Some?
    ensures OneEngine(Identity(venue, account).value) <==> venue != Hyperliquid && venue != Aster
  {
    hide Reachable, Identity, LockName;
    var known := Identity(venue, account).value;
    if venue == Hyperliquid || venue == Aster {
      WalletSpellings(venue, account);
      LocksAreShared(venue, known.id, venue, " " + known.id);
      var w := PairClaims(venue, known.id, venue, " " + known.id);
      assert HoldsAccount(w, 0, known) && HoldsAccount(w, 1, known);
    } else {
      forall w, j: nat, k: nat | Reachable(w) && HoldsAccount(w, j, known) && HoldsAccount(w, k, known)
        ensures w.calls[j].engine == w.calls[k].engine
      {
        SpelledOnce(venue, account, w.calls[j].venue, w.calls[j].account);
        SpelledOnce(venue, account, w.calls[k].venue, w.calls[k].account);
        OneEngineALock(w, j, k);
      }
    }
  }
}
