// The list of live accounts switched on, one file shared by several engines:
// each has a copy of it, brought up to date before every answer.
module Gate {
  import opened Accounts
  import opened Basics

  // A list of names, whose order and repeats nobody reads, or anything else.
  datatype Bytes = Listing(ids: set<string>) | Garbage

  // No two writes leave the same stamp.
  datatype File = File(bytes: Bytes, stamp: nat)
  datatype Shared = Shared(file: Option<File>, writes: nat)

  // One engine: whether it has a file to keep, its copy, and the stamp the
  // file had when it was last read.
  datatype Engine = Engine(keeps: bool, on: set<string>, seen: Option<nat>)

  // ---- What each operation comes to -----------------------------------

  function StampOf(shared: Shared): Option<nat> {
    if shared.file.Some? then Some(shared.file.value.stamp) else None
  }

  // The accounts some bytes name: none if there are none or they're no list.
  function AccountsIn(bytes: Option<Bytes>): set<string> {
    match bytes
    case Some(Listing(ids)) => set id | id in ids && KnownId(id)
    case _ => {}
  }

  function BytesOf(shared: Shared): Option<Bytes> {
    if shared.file.Some? then Some(shared.file.value.bytes) else None
  }

  // The accounts the file has on.
  function InForce(shared: Shared): set<string> { AccountsIn(BytesOf(shared)) }

  function Put(shared: Shared, bytes: Bytes): Shared {
    Shared(Some(File(bytes, shared.writes)), shared.writes + 1)
  }

  function Removed(shared: Shared): Shared { shared.(file := None) }

  // `readable` is whether reading the file works just then.
  function Loaded(keeps: bool, shared: Shared, readable: bool): Engine {
    if !keeps then Engine(false, {}, None)
    else Engine(true, if readable then InForce(shared) else {}, StampOf(shared))
  }

  // An engine that has looked at the file again.
  function Looked(e: Engine, shared: Shared, readable: bool): Engine {
    if !e.keeps || StampOf(shared) == e.seen || (shared.file.Some? && !readable) then e
    else e.(on := InForce(shared), seen := StampOf(shared))
  }

  function Switched(on: set<string>, uid: string, to: bool): set<string> {
    if to then on + {uid} else on - {uid}
  }

  // The file, the engine and whether it was done, once `uid` is set.
  // `writable` is whether writing the file would work.
  function SetOutcome(e: Engine, shared: Shared, uid: string, to: bool, readable: bool, writable: bool)
    : (Shared, Engine, bool)
  {
    var now := Looked(e, shared, readable);
    if (uid in now.on) == to then (shared, now, true)
    else if now.keeps && writable then
      var after := Put(shared, Listing(Switched(now.on, uid, to)));
      (after, now.(on := Switched(now.on, uid, to), seen := StampOf(after)), true)
    else (shared, now, false)
  }

  // ---- The operations, in place ---------------------------------------

  class Disk {
    var file: Option<File>
    var writes: nat

    constructor ()
      ensures Value() == Shared(None, 0)
    {
      file, writes := None, 0;
    }

    ghost function Value(): Shared reads this { Shared(file, writes) }

    method Stat() returns (stamp: Option<nat>)
      ensures stamp == StampOf(Value())
    {
      stamp := if file.Some? then Some(file.value.stamp) else None;
    }

    // The temporary file renamed over the old one.
    method Replace(bytes: Bytes)
      modifies this
      ensures Value() == Put(old(Value()), bytes)
    {
      file, writes := Some(File(bytes, writes)), writes + 1;
    }
  }

  datatype Change = Same | Written(bytes: Bytes) | Gone

  class Kept {
    const path: Option<Disk>
    var seen: Option<nat>

    constructor (path: Option<Disk>)
      ensures this.path == path
      ensures seen == if path.Some? then StampOf(path.value.Value()) else None
    {
      this.path := path;
      seen := None;
      new;
      if path.Some? {
        seen := path.value.Stat();
      }
    }

    method Changed(readable: bool) returns (change: Change)
      ensures change == Same <==>
        path.None? || StampOf(path.value.Value()) == seen || (path.value.file.Some? && !readable)
      ensures change.Written? ==> BytesOf(path.value.Value()) == Some(change.bytes)
      ensures change.Gone? ==> path.value.file.None?
    {
      if path.None? {
        return Same;
      }
      var now := path.value.Stat();
      if now == seen {
        return Same;
      }
      match now {
        case None => return Gone;
        case Some(_) => return if readable then Written(path.value.file.value.bytes) else Same;
      }
    }

    method Taken()
      modifies this
      ensures seen == if path.Some? then StampOf(path.value.Value()) else old(seen)
    {
      if path.Some? {
        seen := path.value.Stat();
      }
    }

    method Write(bytes: Bytes, writable: bool) returns (written: bool)
      modifies this, if path.Some? then {path.value} else {}
      ensures written == (path.Some? && writable)
      ensures written ==> path.value.Value() == Put(old(path.value.Value()), bytes)
      ensures written ==> seen == StampOf(path.value.Value())
      ensures !written ==> seen == old(seen)
      ensures !written && path.Some? ==> path.value.Value() == old(path.value.Value())
    {
      if path.None? {
        return false;
      }
      written := writable;
      if written {
        path.value.Replace(bytes);
        Taken();
      }
    }
  }

  class LiveTrading {
    var on: set<string>
    const file: Kept

    ghost function Value(): Engine
      reads this, file
    {
      Engine(file.path.Some?, on, file.seen)
    }

    constructor (path: Option<Disk>, readable: bool)
      ensures fresh(this) && fresh(file) && file.path == path
      ensures path.Some? ==> Value() == Loaded(true, path.value.Value(), readable)
      ensures path.None? ==> Value() == Engine(false, {}, None)
    {
      on := {};
      file := new Kept(path);
      new;
      if path.Some? && readable && path.value.file.Some? {
        on := AccountsIn(Some(path.value.file.value.bytes));
      }
    }

    // The copy, brought up to date.
    method Current(readable: bool)
      modifies this, file
      ensures file.path.Some? ==>
        Value() == Looked(old(Value()), file.path.value.Value(), readable)
      ensures file.path.None? ==> Value() == old(Value())
    {
      var change := file.Changed(readable);
      match change {
        case Same =>
        case Gone =>
          on := {};
          file.Taken();
        case Written(bytes) =>
          on := AccountsIn(Some(bytes));
          file.Taken();
      }
    }

    method IsOn(uid: string, readable: bool) returns (yes: bool)
      modifies this, file
      ensures file.path.Some? ==>
        Value() == Looked(old(Value()), file.path.value.Value(), readable)
      ensures file.path.None? ==> Value() == old(Value())
      ensures yes == (uid in Value().on)
    {
      Current(readable);
      yes := uid in on;
    }

    method Set(uid: string, to: bool, readable: bool, writable: bool) returns (ok: bool)
      modifies this, file, if file.path.Some? then {file.path.value} else {}
      ensures file.path.Some? ==>
        (file.path.value.Value(), Value(), ok)
        == SetOutcome(old(Value()), old(file.path.value.Value()), uid, to, readable, writable)
      ensures file.path.None? ==> Value() == old(Value()) && ok == ((uid in on) == to)
    {
      Current(readable);
      ghost var was := on;
      var changed := (uid in on) != to;
      if to {
        on := on + {uid};
      } else {
        on := on - {uid};
      }
      if !changed {
        assert on == was;
        return true;
      }
      ok := file.Write(Listing(on), writable);
      if ok {
        return;
      }
      if to {
        on := on - {uid};
      } else {
        on := on + {uid};
      }
      assert on == was;
    }
  }

  // ---- Every interleaving ---------------------------------------------

  datatype World = World(shared: Shared, engines: map<nat, Engine>)

  // One engine's operation, whole, or something else touching the file.
  datatype Step =
    | Start(n: nat, keeps: bool, readable: bool)
    | Exit(n: nat)
    | Ask(n: nat, readable: bool)
    | Set(n: nat, uid: string, to: bool, readable: bool, writable: bool)
    | Overwrite(bytes: Bytes)
    | Delete

  function Next(w: World, s: Step): World {
    match s
    case Start(n, keeps, readable) => w.(engines := w.engines[n := Loaded(keeps, w.shared, readable)])
    case Exit(n) => w.(engines := w.engines - {n})
    case Ask(n, readable) =>
      if n !in w.engines then w
      else w.(engines := w.engines[n := Looked(w.engines[n], w.shared, readable)])
    case Set(n, uid, to, readable, writable) =>
      if n !in w.engines then w
      else
        var (shared, e, _) := SetOutcome(w.engines[n], w.shared, uid, to, readable, writable);
        World(shared, w.engines[n := e])
    case Overwrite(bytes) => w.(shared := Put(w.shared, bytes))
    case Delete => w.(shared := Removed(w.shared))
  }

  function Run(w: World, steps: seq<Step>): World
    decreases |steps|
  {
    if steps == [] then w else Run(Next(w, steps[0]), steps[1..])
  }

  const BEGINNING := World(Shared(None, 0), map[])

  // Whoever turns an account on names it by one of the three kinds of id.
  predicate Careful(s: Step) { s.Set? && s.to ==> KnownId(s.uid) }

  predicate ReadsWork(s: Step) {
    match s
    case Start(_, _, readable) => readable
    case Ask(_, readable) => readable
    case Set(_, _, _, readable, _) => readable
    case _ => true
  }

  // Whether engine `n`, asked now, has `uid` on.
  predicate Answers(w: World, n: nat, uid: string, readable: bool)
    requires n in w.engines
  {
    uid in Looked(w.engines[n], w.shared, readable).on
  }

  // A copy whose stamp is the file's has nobody on whom the file hasn't - and
  // everybody it has, if no read has failed.
  predicate Holds(e: Engine, shared: Shared, exact: bool) {
    && (e.seen.Some? ==> e.seen.value < shared.writes)
    && (!e.keeps || e.seen.None? ==> e.on == {})
    && (e.keeps && e.seen == StampOf(shared) ==>
          e.on <= InForce(shared) && (exact ==> e.on == InForce(shared)))
    && (forall id :: id in e.on ==> KnownId(id))
  }

  predicate Sound(w: World, exact: bool) {
    && (w.shared.file.Some? ==> w.shared.file.value.stamp < w.shared.writes)
    && forall n :: n in w.engines ==> Holds(w.engines[n], w.shared, exact)
  }

  // Turning an id on or off by an engine up to date makes the file say so.
  lemma SetSays(e: Engine, shared: Shared, uid: string, to: bool)
    requires forall id :: id in e.on ==> KnownId(id)
    requires to ==> KnownId(uid)
    ensures InForce(Put(shared, Listing(Switched(e.on, uid, to)))) == Switched(e.on, uid, to)
  {
    hide KnownId;
  }

  lemma NextIsSound(w: World, s: Step, exact: bool)
    requires Sound(w, exact) && Careful(s) && (exact ==> ReadsWork(s))
    ensures Sound(Next(w, s), exact)
  {
    hide KnownId;
    if s.Set? && s.n in w.engines {
      var now := Looked(w.engines[s.n], w.shared, s.readable);
      SetSays(now, w.shared, s.uid, s.to);
    }
  }

  lemma {:induction false} RunIsSound(w: World, steps: seq<Step>, exact: bool)
    requires Sound(w, exact)
    requires forall s :: s in steps ==> Careful(s) && (exact ==> ReadsWork(s))
    ensures Sound(Run(w, steps), exact)
    decreases |steps|
  {
    hide KnownId, Sound, Next;
    if steps != [] {
      NextIsSound(w, steps[0], exact);
      RunIsSound(Next(w, steps[0]), steps[1..], exact);
    }
  }

  // While reads work, every engine answers by what the file says now - nobody
  // is on when it's missing or no list.
  lemma EveryEngineAnswersByTheFile(steps: seq<Step>, n: nat, uid: string)
    requires forall s :: s in steps ==> Careful(s) && ReadsWork(s)
    requires n in Run(BEGINNING, steps).engines
    ensures var w := Run(BEGINNING, steps);
            Answers(w, n, uid, true) <==> w.engines[n].keeps && uid in InForce(w.shared)
  {
    hide KnownId, Run;
    RunIsSound(BEGINNING, steps, true);
  }

  // Whatever reads failed before, an answer whose own read works never lets
  // through an account the file doesn't.
  lemma NobodyIsOnUnlessTheFileSays(steps: seq<Step>, n: nat, uid: string)
    requires forall s :: s in steps ==> Careful(s)
    requires n in Run(BEGINNING, steps).engines
    ensures var w := Run(BEGINNING, steps);
            Answers(w, n, uid, true) ==> w.engines[n].keeps && uid in InForce(w.shared)
  {
    hide KnownId, Run;
    RunIsSound(BEGINNING, steps, false);
  }

  // A file that can't be read is not taken for an empty one: the answer stays
  // what it was, so an account switched off elsewhere is still let through.
  lemma AnUnreadableFileKeepsTheAnswer(w: World, n: nat, uid: string)
    requires n in w.engines && w.shared.file.Some?
    ensures Answers(w, n, uid, false) <==> uid in w.engines[n].on
  {
  }

  lemma AnUnreadableFileLetsThrough(uid: string)
    requires KnownId(uid)
    ensures var w := Run(BEGINNING, [Start(0, true, true), Start(1, true, true),
                                     Set(0, uid, true, true, true), Ask(1, true),
                                     Set(0, uid, false, true, true)]);
            && 1 in w.engines && uid !in InForce(w.shared)
            && Answers(w, 1, uid, false) && !Answers(w, 1, uid, true)
  {
    hide KnownId;
    var one, two := Start(0, true, true), Start(1, true, true);
    var on, ask, off := Set(0, uid, true, true, true), Ask(1, true), Set(0, uid, false, true, true);
    var w2 := Next(Next(BEGINNING, one), two);
    var w3 := Next(w2, on);
    assert InForce(w3.shared) == {uid};
    var w4 := Next(w3, ask);
    assert w4.engines[1].on == {uid};
    var w5 := Next(w4, off);
    assert Run(w5, []) == w5 && Run(w4, [off]) == w5 && Run(w3, [ask, off]) == w5;
    assert Run(w2, [on, ask, off]) == w5;
    assert Run(Next(BEGINNING, one), [two, on, ask, off]) == w5;
    assert Run(BEGINNING, [one, two, on, ask, off]) == w5;
  }

  // A switch that was set reaches every engine before its next order, and
  // moves no other account's.
  lemma ASetReachesEveryEngine(w: World, n: nat, uid: string, to: bool, m: nat, other: string)
    requires Sound(w, true) && (to ==> KnownId(uid))
    requires n in w.engines && m in w.engines && w.engines[n].keeps && w.engines[m].keeps
    ensures var after := Next(w, Set(n, uid, to, true, true));
            Answers(after, m, other, true)
            <==> (if other == uid then to else Answers(w, m, other, true))
  {
    hide KnownId;
    var now := Looked(w.engines[n], w.shared, true);
    assert now.on == InForce(w.shared);
    SetSays(now, w.shared, uid, to);
    NextIsSound(w, Set(n, uid, to, true, true), true);
    assert Looked(w.engines[m], w.shared, true).on == InForce(w.shared);
  }

  // It is set exactly if it already was, or the engine has a file and it could be
  // written.
  lemma SetWorksExactly(w: World, n: nat, uid: string, to: bool, readable: bool, writable: bool)
    requires n in w.engines
    ensures var done := SetOutcome(w.engines[n], w.shared, uid, to, readable, writable);
            && (done.2 <==> (Answers(w, n, uid, readable) <==> to) || (w.engines[n].keeps && writable))
            && (done.2 ==> (uid in done.1.on <==> to))
            && ((Answers(w, n, uid, readable) <==> to) ==> done.0 == w.shared)
  {
  }

  // One that couldn't be saved changed nothing: not the file, and no answer.
  lemma AFailedSetChangesNothing(
    w: World, n: nat, uid: string, to: bool, readable: bool, writable: bool, m: nat, other: string)
    requires n in w.engines && m in w.engines
    requires !SetOutcome(w.engines[n], w.shared, uid, to, readable, writable).2
    ensures var after := Next(w, Set(n, uid, to, readable, writable));
            && after.shared == w.shared
            && (Answers(after, m, other, readable) <==> Answers(w, m, other, readable))
  {
  }

  // Set to an id, a copy matches the file exactly if it is one read back.
  lemma OnlyKnownIdsAreKept(w: World, n: nat, uid: string)
    requires Sound(w, true) && n in w.engines && w.engines[n].keeps
    ensures var (shared, e, ok) := SetOutcome(w.engines[n], w.shared, uid, true, true, true);
            ok && uid in e.on && (e.on == InForce(shared) <==> KnownId(uid))
  {
    hide KnownId;
    var now := Looked(w.engines[n], w.shared, true);
    if KnownId(uid) {
      SetSays(now, w.shared, uid, true);
    }
  }

  // ---- A file that moves between two calls ----------------------------

  function Touched(shared: Shared, puts: seq<Option<Bytes>>): Shared
    decreases |puts|
  {
    if puts == [] then shared
    else Touched(if puts[0].Some? then Put(shared, puts[0].value) else Removed(shared), puts[1..])
  }

  predicate Stamped(shared: Shared) {
    shared.file.Some? ==> shared.file.value.stamp < shared.writes
  }

  // Writes only add stamps: a file with one of before is the file of before.
  lemma {:induction false} TouchedIsLater(shared: Shared, puts: seq<Option<Bytes>>)
    requires Stamped(shared)
    ensures var after := Touched(shared, puts);
            && Stamped(after) && shared.writes <= after.writes
            && (after.file.Some? && after.file.value.stamp < shared.writes ==> after == shared)
    decreases |puts|
  {
    if puts != [] {
      TouchedIsLater(if puts[0].Some? then Put(shared, puts[0].value) else Removed(shared), puts[1..]);
    }
  }

  // `current` reads the file and then takes its stamp. Written in between, a
  // copy is wrong at every later look, until the file changes again, unless
  // the two writes name the same accounts.
  lemma TakenAfterReading(read: Shared, between: seq<Option<Bytes>>, since: seq<Option<Bytes>>)
    requires Stamped(read)
    ensures var stamped := Touched(read, between);
            var now := Touched(stamped, since);
            var e := Engine(true, InForce(read), StampOf(stamped));
            Looked(e, now, true).on == InForce(now)
            <==> now.file != stamped.file || InForce(read) == InForce(stamped)
  {
    TouchedIsLater(read, between);
    TouchedIsLater(Touched(read, between), since);
  }

  // `load` takes the stamp first, so what comes in between is read at the
  // next look - but for a file put there and taken away again.
  lemma TakenBeforeReading(stamped: Shared, between: seq<Option<Bytes>>, since: seq<Option<Bytes>>)
    requires Stamped(stamped)
    ensures var read := Touched(stamped, between);
            var now := Touched(read, since);
            var e := Engine(true, InForce(read), StampOf(stamped));
            Looked(e, now, true).on == InForce(now)
            <==> !(stamped.file.None? && now.file.None? && InForce(read) != {})
  {
    TouchedIsLater(stamped, between);
    TouchedIsLater(Touched(stamped, between), since);
  }
}
