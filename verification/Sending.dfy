// Whether one call's order goes out, and what its log then says, from what the
// lock, the gate, the rules, the log and the venue answer it.
module Sending {
  import opened Accounts
  import opened Basics
  import opened Placing
  import opened Router
  import opened Trading

  // ---- Step by step ---------------------------------------------------

  // A lock that is this engine's, or free and opened; an engine without locks needs
  // none.
  predicate HoldsLock(w: World, e: nat, venue: Venue, account: string, opens: bool)
    requires e in w.engines
  {
    var name := LockName(venue, account);
    !w.engines[e].locking || (if name in w.locks then w.locks[name] == e else opens)
  }

  // The gate lets the account through, and its rules the order.
  predicate LetThrough(venue: Venue, account: string, a: Answers) {
    TraderFor(venue, account, a.on).Ok? && a.rulesAllow
  }

  predicate Going(w: World, k: nat) { k in w.calls && Alive(w, w.calls[k].engine) }

  lemma BegunIs(w: World, k: nat, e: nat, venue: Venue, account: string, reduceOnly: bool, a: Answers)
    requires k !in w.calls && Alive(w, e)
    ensures var v := Next(w, Begins(k, e, venue, account, reduceOnly, a));
            && Going(v, k) && v.engines == w.engines && v.locks == w.locks && v.orders == w.orders
            && (exists command :: v.calls[k]
                  == Call(e, venue, account, reduceOnly, Begun, command, {}, None, None, None))
  {
    var v := Next(w, Begins(k, e, venue, account, reduceOnly, a));
    assert v.calls[k] == Call(e, venue, account, reduceOnly, Begun, v.calls[k].command, {}, None, None, None);
  }

  lemma ClaimedIs(w: World, k: nat, a: Answers)
    requires Going(w, k) && w.calls[k].stage.Begun?
    ensures var v, t := Next(w, Router.Claim(k, a.opens)), w.calls[k];
            && Going(v, k) && v.engines == w.engines && v.orders == w.orders && v.logs == w.logs
            && v.calls[k] == t.(stage := if HoldsLock(w, t.engine, t.venue, t.account, a.opens)
                                         then Claimed else Decided)
  {
    hide LockName;
  }

  lemma JudgedIs(w: World, k: nat, a: Answers)
    requires Going(w, k) && (w.calls[k].stage.Claimed? || w.calls[k].stage.Decided?) && w.calls[k].trader.None?
    ensures var v, t := Next(w, Judge(k, a.on, a.rulesAllow)), w.calls[k];
            && Going(v, k) && v.engines == w.engines && v.orders == w.orders && v.logs == w.logs
            && v.calls[k] == t.(stage := Decided, on := v.calls[k].on, trader := v.calls[k].trader)
            && (v.calls[k].trader.Some? <==> t.stage.Claimed? && LetThrough(t.venue, t.account, a))
  {
    hide TraderFor;
  }

  lemma GateIs(w: World, k: nat, a: Answers)
    requires Going(w, k) && w.calls[k].stage.Decided?
    ensures var v, t := Next(w, NoteGate(k, a.gate)), w.calls[k];
            && Going(v, k) && v.engines == w.engines && v.orders == w.orders
            && v.calls[k] == t.(gateAs := v.calls[k].gateAs, stage := if t.trader.Some? then Passed else Done)
  {
  }

  // What the first half comes to.
  lemma DecidedIs(w: World, k: nat, a: Answers)
    requires Going(w, k) && w.calls[k].stage.Begun? && w.calls[k].trader.None? && w.calls[k].sentAs.None?
    ensures var v, t := Decides(w, k, a), w.calls[k];
            && Going(v, k) && v.engines == w.engines && v.orders == w.orders
            && (v.calls[k].trader.Some?
                <==> HoldsLock(w, t.engine, t.venue, t.account, a.opens) && LetThrough(t.venue, t.account, a))
            && v.calls[k].stage == (if v.calls[k].trader.Some? then Passed else Done)
            && v.calls[k].reduceOnly == t.reduceOnly && v.calls[k].engine == t.engine
            && v.calls[k].command == t.command && v.calls[k].sentAs.None?
  {
    hide Next, HoldsLock, LetThrough;
    ClaimedIs(w, k, a);
    var claimed := Next(w, Router.Claim(k, a.opens));
    JudgedIs(claimed, k, a);
    GateIs(Next(claimed, Judge(k, a.on, a.rulesAllow)), k, a);
  }

  // What the second half comes to, for a call that was let through.
  lemma SentIs(w: World, k: nat, a: Answers)
    requires Going(w, k) && w.calls[k].stage.Passed? && w.calls[k].trader.Some? && w.calls[k].sentAs.None?
    ensures var v, noted := Sends(w, k, a), Next(w, NoteSent(k, a.sent));
            && k in noted.calls
            && v.orders == if (noted.calls[k].sentAs.Some? || w.calls[k].reduceOnly) && a.found
                           then w.orders + [Order(k, w.calls[k].trader.value, w.calls[k].reduceOnly,
                                                  if noted.calls[k].sentAs.Some?
                                                  then IdOf(w.engines[w.calls[k].engine], w.calls[k]) else None)]
                           else w.orders
  {
    hide ClientId, TraderFor;
    var noted := Next(w, NoteSent(k, a.sent));
    assert noted.calls[k] == w.calls[k].(sentAs := noted.calls[k].sentAs,
             stage := if noted.calls[k].sentAs.Some? || w.calls[k].reduceOnly then Ready else Done);
    assert IdOf(w.engines[w.calls[k].engine], noted.calls[k]) == IdOf(w.engines[w.calls[k].engine], w.calls[k]);
    var placed := Next(noted, Place(k, a.found));
    assert Going(placed, k) && Next(placed, Finish(k, a.result)).orders == placed.orders;
  }

  // ---- Whether it goes out --------------------------------------------

  // A call nothing comes between sends its order exactly if the lock is this
  // engine's, the account is let through, its rules allow it and the venue has its
  // adapter, and it is on record first; one that only reduces goes out on record or
  // not.
  lemma SentExactly(w: World, k: nat, e: nat, venue: Venue, account: string, reduceOnly: bool, a: Answers)
    requires k !in w.calls && Alive(w, e)
    ensures var decided := Decides(Next(w, Begins(k, e, venue, account, reduceOnly, a)), k, a);
            var noted := Next(decided, NoteSent(k, a.sent));
            var after := Sends(decided, k, a);
            && k in noted.calls
            && |after.orders| == |w.orders| +
                 (if HoldsLock(w, e, venue, account, a.opens) && LetThrough(venue, account, a) && a.found
                     && (reduceOnly || noted.calls[k].sentAs.Some?) then 1 else 0)
            && after.orders[..|w.orders|] == w.orders
            && (|after.orders| > |w.orders| ==>
                  var o := after.orders[|w.orders|]; o.call == k && o.reduceOnly == reduceOnly)
  {
    hide Next, HoldsLock, LetThrough, Decides, IdOf, Sends;
    BegunIs(w, k, e, venue, account, reduceOnly, a);
    var begun := Next(w, Begins(k, e, venue, account, reduceOnly, a));
    SameLocks(w, begun, e, venue, account, a.opens);
    DecidedIs(begun, k, a);
    var decided := Decides(begun, k, a);
    if decided.calls[k].trader.Some? {
      SentIs(decided, k, a);
    } else {
      DoneIsDone(decided, k, a);
      NothingNoted(decided, k, a);
    }
  }

  lemma SameLocks(w: World, v: World, e: nat, venue: Venue, account: string, opens: bool)
    requires e in w.engines && v.engines == w.engines && v.locks == w.locks
    ensures HoldsLock(w, e, venue, account, opens) == HoldsLock(v, e, venue, account, opens)
  {
  }

  lemma NothingNoted(w: World, k: nat, a: Answers)
    requires Going(w, k) && w.calls[k].stage.Done?
    ensures Next(w, NoteSent(k, a.sent)) == w
  {
  }

  // ---- What is on record ----------------------------------------------

  // Each number the log gives is above the one before, and the log has an id.
  predicate AllWritten(w: World, e: nat, a: Answers)
    requires e in w.engines
  {
    && w.engines[e].log.Some? && w.engines[e].log.value in w.logs && w.engines[e].log.value < U64
    && a.command.Some? && a.gate.Some? && a.sent.Some? && a.result.Some?
    && Last(w.logs[w.engines[e].log.value]) < a.command.value < a.gate.value < a.sent.value < a.result.value < U64
  }

  function LogAt(w: World, e: nat): seq<Record>
    requires e in w.engines
  {
    LogOf(w, w.engines[e])
  }

  lemma BegunLog(w: World, k: nat, e: nat, venue: Venue, account: string, reduceOnly: bool, a: Answers)
    requires k !in w.calls && Alive(w, e) && AllWritten(w, e, a)
    ensures var v := Next(w, Begins(k, e, venue, account, reduceOnly, a));
            && e in v.engines && v.engines[e].log.Some? && v.engines[e].log.value in v.logs
            && LogAt(v, e) == LogAt(w, e) + [Record(a.command.value, None, CommandRecord(venue, account))]
            && Going(v, k) && v.calls[k].command == a.command
  {
  }

  // A step of a command that is on record.
  predicate Logs(w: World, k: nat) {
    Going(w, k) && w.calls[k].command.Some? && w.engines[w.calls[k].engine].log.Some?
    && w.engines[w.calls[k].engine].log.value in w.logs && w.engines[w.calls[k].engine].log.value < U64
    && w.calls[k].command.value < U64
  }

  lemma GateLog(w: World, k: nat, a: Answers)
    requires Logs(w, k) && w.calls[k].stage.Decided?
    requires a.gate.Some? && Last(LogAt(w, w.calls[k].engine)) < a.gate.value < U64
    ensures var v, t := Next(w, NoteGate(k, a.gate)), w.calls[k];
            Logs(v, k) && v.calls[k].engine == t.engine
            && LogAt(v, t.engine)
               == LogAt(w, t.engine) + [Record(a.gate.value, t.command, GateRecord(t.trader.Some?))]
  {
  }

  lemma SentLog(w: World, k: nat, a: Answers)
    requires Logs(w, k) && w.calls[k].stage.Passed?
    requires a.sent.Some? && Last(LogAt(w, w.calls[k].engine)) < a.sent.value < U64
    ensures var v, t := Next(w, NoteSent(k, a.sent)), w.calls[k];
            && Logs(v, k) && v.calls[k].stage.Ready? && v.calls[k].engine == t.engine
            && v.calls[k].trader == t.trader && v.calls[k].command == t.command
            && v.calls[k].sentAs == a.sent
            && LogAt(v, t.engine)
               == LogAt(w, t.engine) + [Record(a.sent.value, t.command,
                    SentRecord(ClientId(w.engines[t.engine].log.value, t.command.value)))]
  {
    hide ClientId;
  }

  lemma FinishLog(w: World, k: nat, a: Answers)
    requires Logs(w, k) && w.calls[k].stage.Ready? && w.calls[k].trader.Some?
    requires a.result.Some? && Last(LogAt(w, w.calls[k].engine)) < a.result.value < U64
    ensures var v, t := Next(Next(w, Place(k, a.found)), Finish(k, a.result)), w.calls[k];
            t.engine in v.engines
            && LogAt(v, t.engine)
               == LogAt(w, t.engine) + if a.found then [Record(a.result.value, t.command, ResultRecord)] else []
  {
    hide ClientId;
  }

  // Where every record is written, the log has, in this order and nothing else: the
  // command, what the gate answered it, and, if it was let through, what was sent
  // and, where there is an adapter, the result.
  lemma OnRecord(w: World, k: nat, e: nat, venue: Venue, account: string, reduceOnly: bool, a: Answers)
    requires k !in w.calls && Alive(w, e) && AllWritten(w, e, a)
    ensures var after := Sends(Decides(Next(w, Begins(k, e, venue, account, reduceOnly, a)), k, a), k, a);
            var passed := HoldsLock(w, e, venue, account, a.opens) && LetThrough(venue, account, a);
            && e in after.engines
            && LogAt(after, e) == LogAt(w, e)
               + [Record(a.command.value, None, CommandRecord(venue, account))]
               + [Record(a.gate.value, a.command, GateRecord(passed))]
               + (if passed then [Record(a.sent.value, a.command,
                    SentRecord(ClientId(w.engines[e].log.value, a.command.value)))] else [])
               + (if passed && a.found then [Record(a.result.value, a.command, ResultRecord)] else [])
  {
    hide Next, HoldsLock, LetThrough, ClientId;
    BegunIs(w, k, e, venue, account, reduceOnly, a);
    BegunLog(w, k, e, venue, account, reduceOnly, a);
    var begun := Next(w, Begins(k, e, venue, account, reduceOnly, a));
    SameLocks(w, begun, e, venue, account, a.opens);
    DecidedIs(begun, k, a);
    ClaimedIs(begun, k, a);
    var claimed := Next(begun, Router.Claim(k, a.opens));
    JudgedIs(claimed, k, a);
    var judged := Next(claimed, Judge(k, a.on, a.rulesAllow));
    GateLog(judged, k, a);
    var decided := Decides(begun, k, a);
    if decided.calls[k].trader.Some? {
      SentLog(decided, k, a);
      FinishLog(Next(decided, NoteSent(k, a.sent)), k, a);
    } else {
      DoneIsDone(decided, k, a);
    }
  }
}
