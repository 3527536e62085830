// The engines of the router with what their gates ask: the copy of the switch,
// brought up to date, of the engine that asks, and the rules of the account as the
// call spelled it.
module Gated {
  import opened Accounts
  import opened Basics
  import opened Trading
  import Gate
  import Progress
  import Router
  import Rules
  import RuleBook
  import SameDay
  import Tightening

  datatype World = World(gate: Gate.World, desk: Router.World, sets: seq<RuleBook.RuleSet>)

  // Nothing has started, and some rules are kept.
  function Before(sets: seq<RuleBook.RuleSet>): World { World(Gate.BEGINNING, Router.BEGINNING, sets) }

  // What an order's check comes by: the clock, the account if it can be read, the
  // calendar, and the order at its price.
  datatype Inquiry = Inquiry(
    clock: nat, reading: Option<Rules.Facts>, calendar: Option<seq<Rules.NewsEvent>>, asked: Rules.Asked)

  // An engine starts and exits with its copy; the rest are steps of the one or
  // the other, but for a gate's decision, which is of both.
  datatype Step =
    | Start(e: nat, log: Option<nat>, locking: bool, keeps: bool, readable: bool)
    | Exit(e: nat)
    | Switch(gate: Gate.Step)
    | Desk(desk: Router.Step)
    | Rule(op: SameDay.Op)
    | Judge(k: nat, i: Inquiry, readable: bool)

  // The rules an order meets, and what comes of it.
  function AccountOf(t: Router.Call): RuleBook.Account { RuleBook.Account(t.venue, t.account) }

  function RulesMet(sets: seq<RuleBook.RuleSet>, t: Router.Call, clock: nat): Option<Rules.Rules> {
    RuleBook.InForceIn(RuleBook.Settled(sets, clock), AccountOf(t))
  }

  function ProgressMet(sets: seq<RuleBook.RuleSet>, t: Router.Call, clock: nat): Progress.Progress {
    match SameDay.SetOf(RuleBook.Settled(sets, clock), AccountOf(t))
    case Some(s) => s.progress
    case None => Progress.EMPTY
  }

  function AskedBy(t: Router.Call, i: Inquiry): Rules.Asked { i.asked.(reduceOnly := t.reduceOnly) }

  // `guard_order`: no rules in force, or rules that pass it. (Rules out of range
  // are never kept.)
  predicate Permits(sets: seq<RuleBook.RuleSet>, t: Router.Call, i: Inquiry) {
    match RulesMet(sets, t, i.clock)
    case None => true
    case Some(rules) =>
      Rules.Valid(rules) ==>
        Tightening.Decide(rules, ProgressMet(sets, t, i.clock), i.reading, i.calendar, AskedBy(t, i)).Passed?
  }

  // The sets once it has looked, where it gets as far as looking.
  function LookedAt(sets: seq<RuleBook.RuleSet>, t: Router.Call, i: Inquiry): seq<RuleBook.RuleSet> {
    var settled := RuleBook.Settled(sets, i.clock);
    match RulesMet(sets, t, i.clock)
    case None => settled
    case Some(rules) =>
      if t.reduceOnly || i.reading.None? then settled
      else RuleBook.Stood(settled, AccountOf(t), rules, Tightening.ReadFor(rules, i.reading.value, i.calendar))
  }

  function Next(w: World, s: Step): World {
    match s
    case Start(e, log, locking, keeps, readable) =>
      if e in w.desk.engines then w
      else w.(gate := Gate.Next(w.gate, Gate.Start(e, keeps, readable)),
              desk := Router.Next(w.desk, Router.Start(e, log, locking)))
    case Exit(e) => w.(gate := Gate.Next(w.gate, Gate.Exit(e)), desk := Router.Next(w.desk, Router.Exit(e)))
    case Switch(g) => if g.Start? || g.Exit? then w else w.(gate := Gate.Next(w.gate, g))
    case Desk(d) => if d.Start? || d.Exit? || d.Judge? then w else w.(desk := Router.Next(w.desk, d))
    case Rule(op) => w.(sets := SameDay.Step(w.sets, op))
    case Judge(k, i, readable) =>
      if k !in w.desk.calls || !w.desk.calls[k].stage.Claimed? then w
      else
        var t := w.desk.calls[k];
        var gate := Gate.Next(w.gate, Gate.Ask(t.engine, readable));
        var on := OnOf(gate, t.engine);
        World(gate, Router.Next(w.desk, Router.Judge(k, on, Permits(w.sets, t, i))),
              if TraderFor(t.venue, t.account, on).Ok? then LookedAt(w.sets, t, i) else w.sets)
  }

  function OnOf(gate: Gate.World, e: nat): set<string> {
    if e in gate.engines then gate.engines[e].on else {}
  }

  function Run(w: World, steps: seq<Step>): World
    decreases |steps|
  {
    if steps == [] then w else Run(Next(w, steps[0]), steps[1..])
  }

  // Reads work, and what is turned on is a known id.
  predicate Good(s: Step) {
    match s
    case Start(_, _, _, _, readable) => readable
    case Switch(g) => Gate.Careful(g) && Gate.ReadsWork(g)
    case Judge(_, _, readable) => readable
    case _ => true
  }

  predicate Sound(w: World) { Gate.Sound(w.gate, true) && Router.Sound(w.desk) }

  lemma DeskIsSound(w: World, s: Step)
    requires Router.Sound(w.desk)
    ensures Router.Sound(Next(w, s).desk)
  {
    hide Router.Sound, Router.Next, Gate.Next;
    match s
    case Start(e, log, locking, _, _) => Router.NextIsSound(w.desk, Router.Start(e, log, locking));
    case Exit(e) => Router.NextIsSound(w.desk, Router.Exit(e));
    case Switch(_) =>
    case Desk(d) => Router.NextIsSound(w.desk, d);
    case Rule(_) =>
    case Judge(k, i, readable) =>
      if k in w.desk.calls {
        var t := w.desk.calls[k];
        var on := OnOf(Gate.Next(w.gate, Gate.Ask(t.engine, readable)), t.engine);
        Router.NextIsSound(w.desk, Router.Judge(k, on, Permits(w.sets, t, i)));
      }
  }

  lemma GateIsSound(w: World, s: Step)
    requires Gate.Sound(w.gate, true) && Good(s)
    ensures Gate.Sound(Next(w, s).gate, true)
  {
    hide Gate.Sound, Router.Next, Gate.Next;
    match s
    case Start(e, _, _, keeps, readable) => Gate.NextIsSound(w.gate, Gate.Start(e, keeps, readable), true);
    case Exit(e) => Gate.NextIsSound(w.gate, Gate.Exit(e), true);
    case Switch(g) => Gate.NextIsSound(w.gate, g, true);
    case Desk(_) =>
    case Rule(_) =>
    case Judge(k, _, readable) =>
      if k in w.desk.calls {
        Gate.NextIsSound(w.gate, Gate.Ask(w.desk.calls[k].engine, readable), true);
      }
  }

  lemma {:induction false} RunIsSound(w: World, steps: seq<Step>)
    requires Sound(w) && forall s :: s in steps ==> Good(s)
    ensures Sound(Run(w, steps))
    decreases |steps|
  {
    hide Router.Sound, Gate.Sound, Next;
    if steps != [] {
      DeskIsSound(w, steps[0]);
      GateIsSound(w, steps[0]);
      RunIsSound(Next(w, steps[0]), steps[1..]);
    }
  }

  lemma BeginsSound(sets: seq<RuleBook.RuleSet>)
    ensures Sound(Before(sets))
  {
  }

  // ---- Switched off ---------------------------------------------------

  predicate Off(w: World, uid: string) { uid !in Gate.InForce(w.gate.shared) }

  // A step that doesn't put the account on the list again.
  predicate LeavesOff(s: Step, uid: string) {
    s.Switch? ==>
      match s.gate
      case Set(_, who, to, _, _) => who != uid || !to
      case Overwrite(bytes) => uid !in Gate.AccountsIn(Some(bytes))
      case _ => true
  }

  lemma StaysOff(w: World, s: Step, uid: string)
    requires Gate.Sound(w.gate, true) && Good(s) && Off(w, uid) && LeavesOff(s, uid)
    ensures Off(Next(w, s), uid)
  {
    hide KnownId, Router.Next;
    if s.Switch? && s.gate.Set? && s.gate.n in w.gate.engines {
      SetLeavesOff(w.gate, s.gate, uid);
    }
  }

  // Setting another account leaves one off that is; setting it off makes it so.
  lemma SetLeavesOff(w: Gate.World, s: Gate.Step, uid: string)
    requires Gate.Sound(w, true) && s.Set? && s.readable && s.n in w.engines
    requires s.uid == uid ==> !s.to
    requires uid !in Gate.InForce(w.shared) || (s.uid == uid && w.engines[s.n].keeps && s.writable)
    ensures uid !in Gate.InForce(Gate.Next(w, s).shared)
  {
    hide KnownId;
    var e := w.engines[s.n];
    var now := Gate.Looked(e, w.shared, true);
    assert e.keeps ==> now.on == Gate.InForce(w.shared);
  }

  lemma {:induction false} RunStaysOff(w: World, steps: seq<Step>, uid: string)
    requires Sound(w) && Off(w, uid)
    requires forall s :: s in steps ==> Good(s) && LeavesOff(s, uid)
    ensures Sound(Run(w, steps)) && Off(Run(w, steps), uid)
    decreases |steps|
  {
    hide Router.Sound, Gate.Sound, Next, Off;
    if steps != [] {
      DeskIsSound(w, steps[0]);
      GateIsSound(w, steps[0]);
      StaysOff(w, steps[0], uid);
      RunStaysOff(Next(w, steps[0]), steps[1..], uid);
    }
  }

  // ---- Refused --------------------------------------------------------

  predicate Refused(w: Router.World, k: nat) {
    k in w.calls && w.calls[k].trader.None? && !w.calls[k].stage.Begun? && !w.calls[k].stage.Claimed?
  }

  lemma RefusedStays(w: Router.World, s: Router.Step, k: nat)
    requires Refused(w, k)
    ensures Refused(Router.Next(w, s), k)
  {
    hide LockName, TraderFor, ClientId;
  }

  lemma RefusedPlacesNothing(w: Router.World, k: nat)
    requires Router.Sound(w) && Refused(w, k)
    ensures forall o :: o in w.orders ==> o.call != k
  {
    forall o | o in w.orders ensures o.call != k {
      assert Router.OrderOk(w, o);
    }
  }

  lemma {:induction false} RunStaysRefused(w: World, steps: seq<Step>, k: nat)
    requires Router.Sound(w.desk) && Refused(w.desk, k)
    ensures Router.Sound(Run(w, steps).desk) && Refused(Run(w, steps).desk, k)
    decreases |steps|
  {
    hide Router.Sound, Router.Next, Gate.Next, Refused;
    if steps != [] {
      DeskIsSound(w, steps[0]);
      StepStaysRefused(w, steps[0], k);
      RunStaysRefused(Next(w, steps[0]), steps[1..], k);
    }
  }

  lemma StepStaysRefused(w: World, s: Step, k: nat)
    requires Refused(w.desk, k)
    ensures Refused(Next(w, s).desk, k)
  {
    hide Router.Next, Gate.Next, Refused;
    match s
    case Start(e, log, locking, _, _) => RefusedStays(w.desk, Router.Start(e, log, locking), k);
    case Exit(e) => RefusedStays(w.desk, Router.Exit(e), k);
    case Switch(_) =>
    case Desk(d) => RefusedStays(w.desk, d, k);
    case Rule(_) =>
    case Judge(j, i, readable) =>
      if j in w.desk.calls {
        var t := w.desk.calls[j];
        var on := OnOf(Gate.Next(w.gate, Gate.Ask(t.engine, readable)), t.engine);
        RefusedStays(w.desk, Router.Judge(j, on, Permits(w.sets, t, i)), k);
      }
  }

  // ---- Off in one engine, refused in every other ----------------------

  // A call waiting for the gate, for the live account a name on the list stands
  // for.
  predicate Asks(w: Router.World, k: nat, uid: string) {
    && k in w.calls && w.calls[k].stage.Claimed? && Router.Alive(w, w.calls[k].engine)
    && (match Identity(w.calls[k].venue, w.calls[k].account)
        case Some(known) => !known.demo && SwitchOf(known) == uid
        case None => false)
  }

  lemma JudgedOff(w: World, k: nat, i: Inquiry, uid: string)
    requires Sound(w) && Off(w, uid) && Asks(w.desk, k, uid)
    ensures Refused(Next(w, Judge(k, i, true)).desk, k)
  {
    hide KnownId, TraderFor, Identity, SwitchOf, Router.Sound, Permits, LookedAt;
    var t := w.desk.calls[k];
    var gate := Gate.Next(w.gate, Gate.Ask(t.engine, true));
    assert OnOf(gate, t.engine) <= Gate.InForce(w.gate.shared);
    TradesExactlyWhenSwitchedOn(t.venue, t.account, OnOf(gate, t.engine));
  }

  // From any reachable state: once an account has been switched off in any
  // engine, and while nothing switches it on again, an order for it that any
  // engine's gate is then asked of never reaches an adapter, however its account
  // is spelled and whatever happens after.
  lemma SwitchedOffIsNotSent(sets: seq<RuleBook.RuleSet>, before: seq<Step>, m: nat, uid: string, between: seq<Step>, k: nat,
                             i: Inquiry, after: seq<Step>)
    requires forall s :: s in before ==> Good(s)
    requires forall s :: s in between ==> Good(s) && LeavesOff(s, uid)
    requires var w := Run(Before(sets), before); m in w.gate.engines && w.gate.engines[m].keeps
    requires var off := Next(Run(Before(sets), before), Switch(Gate.Set(m, uid, false, true, true)));
             Asks(Run(off, between).desk, k, uid)
    ensures var off := Next(Run(Before(sets), before), Switch(Gate.Set(m, uid, false, true, true)));
            var w := Run(Next(Run(off, between), Judge(k, i, true)), after);
            forall o :: o in w.desk.orders ==> o.call != k
  {
    hide Sound, Next, Run, Off, Asks, Refused;
    var w := Run(Before(sets), before);
    BeginsSound(sets);
    RunIsSound(Before(sets), before);
    var s := Switch(Gate.Set(m, uid, false, true, true));
    var off := Next(w, s);
    SetIsOff(w, m, uid);
    RunStaysOff(off, between, uid);
    var asked := Run(off, between);
    JudgedOff(asked, k, i, uid);
    var judged := Next(asked, Judge(k, i, true));
    JudgeIsSound(asked, k, i);
    RunStaysRefused(judged, after, k);
    RefusedPlacesNothing(Run(judged, after).desk, k);
  }

  lemma SetIsOff(w: World, m: nat, uid: string)
    requires Sound(w) && m in w.gate.engines && w.gate.engines[m].keeps
    ensures var off := Next(w, Switch(Gate.Set(m, uid, false, true, true))); Sound(off) && Off(off, uid)
  {
    hide Router.Sound, Router.Next, Gate.Sound;
    var s := Switch(Gate.Set(m, uid, false, true, true));
    DeskIsSound(w, s);
    GateIsSound(w, s);
    SetLeavesOff(w.gate, s.gate, uid);
  }

  lemma JudgeIsSound(w: World, k: nat, i: Inquiry)
    requires Sound(w)
    ensures Router.Sound(Next(w, Judge(k, i, true)).desk)
  {
    hide Router.Sound, Gate.Sound, Next;
    DeskIsSound(w, Judge(k, i, true));
  }

  // ---- Refused by the rules -------------------------------------------

  lemma JudgedAgainst(w: World, k: nat, i: Inquiry, readable: bool)
    requires k in w.desk.calls && w.desk.calls[k].stage.Claimed? && Router.Alive(w.desk, w.desk.calls[k].engine)
    requires !Permits(w.sets, w.desk.calls[k], i)
    ensures Refused(Next(w, Judge(k, i, readable)).desk, k)
  {
    hide TraderFor, Permits, LookedAt, Gate.Next;
  }

  lemma {:induction false} DeskStaysSound(w: World, steps: seq<Step>)
    requires Router.Sound(w.desk)
    ensures Router.Sound(Run(w, steps).desk)
    decreases |steps|
  {
    hide Router.Sound, Next;
    if steps != [] {
      DeskIsSound(w, steps[0]);
      DeskStaysSound(Next(w, steps[0]), steps[1..]);
    }
  }

  // From any reachable state: an order the rules in force for its account, as the
  // call spelled it, refuse never reaches an adapter, whatever happens after.
  lemma RefusedByRulesIsNotSent(sets: seq<RuleBook.RuleSet>, before: seq<Step>, k: nat, i: Inquiry,
                                readable: bool, after: seq<Step>)
    requires var w := Run(Before(sets), before);
             && k in w.desk.calls && w.desk.calls[k].stage.Claimed?
             && Router.Alive(w.desk, w.desk.calls[k].engine) && !Permits(w.sets, w.desk.calls[k], i)
    ensures var w := Run(Next(Run(Before(sets), before), Judge(k, i, readable)), after);
            forall o :: o in w.desk.orders ==> o.call != k
  {
    hide Sound, Next, Run, Permits, Refused, Router.Sound;
    var w := Run(Before(sets), before);
    DeskBegins(sets);
    DeskStaysSound(Before(sets), before);
    JudgedAgainst(w, k, i, readable);
    DeskIsSound(w, Judge(k, i, readable));
    var judged := Next(w, Judge(k, i, readable));
    RunStaysRefused(judged, after, k);
    RefusedPlacesNothing(Run(judged, after).desk, k);
  }

  lemma DeskBegins(sets: seq<RuleBook.RuleSet>)
    ensures Router.Sound(Before(sets).desk)
  {
    BeginsSound(sets);
  }

  // ---- The rules of an account ----------------------------------------

  // Every spelling of an account meets the same rules, whatever rules are kept.
  ghost predicate OneSetOfRules(known: Known) {
    forall sets: seq<RuleBook.RuleSet>, v: Venue, a: string, u: Venue, b: string ::
      Identity(v, a) == Some(known) && Identity(u, b) == Some(known) ==>
        RuleBook.InForceIn(sets, RuleBook.Account(v, a)) == RuleBook.InForceIn(sets, RuleBook.Account(u, b))
  }

  // It holds of numbered accounts and of no wallet: a wallet spelled another way
  // than its rules were given for is traded under its own key and met by none.
  lemma OneSetOfRulesExactly(venue: Venue, account: string, rules: Rules.Rules)
    requires Identity(venue, account).Some?
    ensures OneSetOfRules(Identity(venue, account).value) <==> venue != Hyperliquid && venue != Aster
  {
    hide Identity;
    var known := Identity(venue, account).value;
    if venue == Hyperliquid || venue == Aster {
      WalletSpellings(venue, account);
      var kept := RuleBook.Account(venue, known.id);
      var other := RuleBook.Account(venue, " " + known.id);
      var sets := [RuleBook.RuleSet("", true, kept, rules, None, Progress.EMPTY)];
      assert |other.id| != |kept.id|;
      assert sets[1..] == [];
      assert RuleBook.InForceIn(sets, kept) == Some(rules) && RuleBook.InForceIn(sets, other) == None;
    } else {
      forall sets: seq<RuleBook.RuleSet>, v: Venue, a: string, u: Venue, b: string |
        Identity(v, a) == Some(known) && Identity(u, b) == Some(known)
        ensures RuleBook.InForceIn(sets, RuleBook.Account(v, a)) == RuleBook.InForceIn(sets, RuleBook.Account(u, b))
      {
        SpelledOnce(venue, account, v, a);
        SpelledOnce(venue, account, u, b);
      }
    }
  }

  // ---- What the gate asks of the rules --------------------------------

  // With the lists of rules as they are ever kept: an order is permitted exactly if
  // its account, once what is due has landed, has no set or one that is off, or the
  // set's rules pass it from where the account has got to.
  lemma PermitsExactly(sets: seq<RuleBook.RuleSet>, t: Router.Call, i: Inquiry)
    requires SameDay.Kept(sets)
    ensures var s := SameDay.SetOf(RuleBook.Settled(sets, i.clock), RuleBook.Account(t.venue, t.account));
            && (s.Some? ==> Rules.Valid(s.value.rules))
            && (Permits(sets, t, i) <==>
                  s.None? || !s.value.on
                  || Tightening.Decide(s.value.rules, s.value.progress, i.reading, i.calendar,
                                       i.asked.(reduceOnly := t.reduceOnly)).Passed?)
  {
    hide Tightening.Decide, Rules.Valid, RuleBook.SettleOne;
    var settled := RuleBook.Settled(sets, i.clock);
    SameDay.SettledKeeps(sets, i.clock);
    SameDay.InForceIsTheSet(settled, AccountOf(t));
    assert forall k :: 0 <= k < |settled| ==> SameDay.WellKept(settled[k]);
  }

  // And asking does to them what two of the day's own operations do: what is due
  // lands, and, for an opening order on an account that could be read, there is a
  // look at it.
  lemma JudgeIsOfTheDay(w: World, k: nat, i: Inquiry, readable: bool)
    requires k in w.desk.calls && w.desk.calls[k].stage.Claimed?
    ensures var t := w.desk.calls[k];
            var account := RuleBook.Account(t.venue, t.account);
            var after := Next(w, Judge(k, i, readable));
            var let := TraderFor(t.venue, t.account, OnOf(after.gate, t.engine)).Ok?;
            var rules := RuleBook.InForceIn(RuleBook.Settled(w.sets, i.clock), account);
            after.sets == SameDay.Steps(w.sets,
              if !let then []
              else [SameDay.Ask(i.clock)]
                   + if rules.Some? && !t.reduceOnly && i.reading.Some? then
                       [SameDay.Look(account, rules.value,
                          i.reading.value.(news := if rules.value.news.on then i.calendar else None))]
                     else [])
  {
    hide TraderFor, Router.Next, Gate.Next, RuleBook.Settled, RuleBook.Stood, RuleBook.InForceIn;
    var t := w.desk.calls[k];
    var settled := SameDay.Ask(i.clock);
    var rules := RulesMet(w.sets, t, i.clock);
    SameDay.NoSteps(RuleBook.Settled(w.sets, i.clock));
    SameDay.OneThen(w.sets, settled, []);
    if rules.Some? && i.reading.Some? {
      var look := SameDay.Look(AccountOf(t), rules.value, Tightening.ReadFor(rules.value, i.reading.value, i.calendar));
      SameDay.OneThen(w.sets, settled, [look]);
      SameDay.OneThen(RuleBook.Settled(w.sets, i.clock), look, []);
      SameDay.NoSteps(SameDay.Step(RuleBook.Settled(w.sets, i.clock), look));
      assert [look] + [] == [look] && [settled] + [] == [settled];
    }
  }
}
