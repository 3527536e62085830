// Aster's request nonces: one shared counter, any number of threads, each step
// of the loop on its own.
module Nonce {
  import opened Basics

  // Where a thread is in `next_nonce`: not in it, or between its load (or a
  // failed exchange) and its next exchange.
  datatype Thread = Idle | Trying(now: nat, last: nat)

  // The shared counter, the threads, and every nonce handed out, in the order
  // the exchanges happened, each with the clock its thread had read.
  datatype State = State(counter: nat, threads: map<nat, Thread>, issued: seq<Issue>)
  datatype Issue = Issue(thread: nat, nonce: nat, now: nat)

  // A thread starts, having read a clock that may say anything; loses the
  // exchange, for a changed counter or for nothing (it is the weak one); or
  // wins it.
  datatype Event = Load(thread: nat, now: nat) | Lose(thread: nat) | Win(thread: nat)

  function ThreadAt(s: State, thread: nat): Thread {
    if thread in s.threads then s.threads[thread] else Idle
  }

  function Next(t: Thread): nat
    requires t.Trying?
  {
    if t.now < t.last + 1 then t.last + 1 else t.now
  }

  predicate Enabled(s: State, e: Event) {
    match e
    case Load(thread, _) => ThreadAt(s, thread).Idle?
    case Lose(thread) => ThreadAt(s, thread).Trying?
    case Win(thread) => ThreadAt(s, thread).Trying? && ThreadAt(s, thread).last == s.counter
  }

  function Step(s: State, e: Event): State
    requires Enabled(s, e)
  {
    match e
    case Load(thread, now) => s.(threads := s.threads[thread := Trying(now, s.counter)])
    case Lose(thread) => s.(threads := s.threads[thread := ThreadAt(s, thread).(last := s.counter)])
    case Win(thread) =>
      var t := ThreadAt(s, thread);
      State(Next(t), s.threads[thread := Idle], s.issued + [Issue(thread, Next(t), t.now)])
  }

  const START := State(0, map[], [])

  // A run, state by state.
  ghost predicate IsRun(states: seq<State>, events: seq<Event>) {
    && |states| == |events| + 1 && states[0] == START
    && forall i :: 0 <= i < |events| ==> Enabled(states[i], events[i]) && states[i + 1] == Step(states[i], events[i])
  }

  predicate Rising(issued: seq<Issue>) {
    forall i, j :: 0 <= i < j < |issued| ==> issued[i].nonce < issued[j].nonce
  }

  // The counter is the last nonce handed out; each is above the one before it
  // and no lower than the clock its thread had read.
  predicate Good(s: State) {
    && Rising(s.issued)
    && (forall i :: 0 <= i < |s.issued| ==> s.issued[i].nonce <= s.counter)
    && (forall i :: 0 <= i < |s.issued| ==> s.issued[i].now <= s.issued[i].nonce)
  }

  lemma StepIsGood(s: State, e: Event)
    requires Good(s) && Enabled(s, e)
    ensures Good(Step(s, e)) && Step(s, e).counter >= s.counter && s.issued <= Step(s, e).issued
  {
  }

  // However the threads interleave, and whatever their clocks say, no nonce is
  // handed out twice: they only rise, in the order of the exchanges, and none
  // is below the time its thread read.
  lemma {:induction false} NoncesOnlyRise(states: seq<State>, events: seq<Event>)
    requires IsRun(states, events)
    ensures Good(states[|events|])
    ensures forall i, j :: 0 <= i < j < |states[|events|].issued| ==>
      states[|events|].issued[i].nonce != states[|events|].issued[j].nonce
  {
    if events != [] {
      var n := |events| - 1;
      assert IsRun(states[..n + 1], events[..n]);
      NoncesOnlyRise(states[..n + 1], events[..n]);
      StepIsGood(states[n], events[n]);
    }
  }

  // A thread that keeps at it is only held up by others: run on its own from
  // its last look at the counter, its next exchange wins.
  lemma AloneItWins(s: State, thread: nat)
    requires ThreadAt(s, thread).Trying?
    ensures Enabled(Step(s, Lose(thread)), Win(thread))
    ensures ThreadAt(Step(s, Lose(thread)), thread).now == ThreadAt(s, thread).now
    ensures ThreadAt(s, thread).last == s.counter ==> Enabled(s, Win(thread))
  {
  }

  // It is no higher than that takes: the time read, or one past the last where the
  // clock hasn't passed it.
  lemma NextIsLeast(s: State, thread: nat)
    requires Enabled(s, Win(thread))
    ensures var t, after := ThreadAt(s, thread), Step(s, Win(thread));
            && after.counter > s.counter && after.counter >= t.now
            && (after.counter == s.counter + 1 || after.counter == t.now)
            && after.issued == s.issued + [Issue(thread, after.counter, t.now)]
  {
  }

  // One that has just started wins its first, if nothing comes between.
  lemma FirstWins(s: State, thread: nat, now: nat)
    requires Enabled(s, Load(thread, now))
    ensures Enabled(Step(s, Load(thread, now)), Win(thread))
    ensures ThreadAt(Step(s, Load(thread, now)), thread).now == now
  {
  }
}
