// A market's recent trades, kept newest first (Binance, Aster and BloFin).
module Tape {
  import opened Ordering

  const TAPE_LEN := 100

  datatype Trade = Trade(id: string, price: real, size: real, time: nat)

  predicate Has(trades: seq<Trade>, id: string) {
    exists i :: 0 <= i < |trades| && trades[i].id == id
  }

  // Where a trade goes: before the first no newer, or at the end.
  function Place(trades: seq<Trade>, time: nat): (i: nat)
    ensures i <= |trades|
    ensures i < |trades| ==> trades[i].time <= time
    ensures forall j :: 0 <= j < i ==> trades[j].time > time
  {
    if trades == [] || trades[0].time <= time then 0 else 1 + Place(trades[1..], time)
  }

  // One more trade, unless it is there already.
  function With(trades: seq<Trade>, t: Trade): seq<Trade> {
    if Has(trades, t.id) then trades
    else var i := Place(trades, t.time); trades[..i] + [t] + trades[i..]
  }

  function WithAll(trades: seq<Trade>, more: seq<Trade>): seq<Trade> {
    if more == [] then trades else With(WithAll(trades, more[..|more| - 1]), more[|more| - 1])
  }

  function OldestFirst(trades: seq<Trade>): seq<Trade> { Sort(trades, (a: Trade, b: Trade) => a.time <= b.time) }

  function Cut(trades: seq<Trade>): seq<Trade> {
    if |trades| > TAPE_LEN then trades[..TAPE_LEN] else trades
  }

  function Recorded(trades: seq<Trade>, incoming: seq<Trade>): seq<Trade> {
    Cut(WithAll(trades, OldestFirst(incoming)))
  }

  class Tape {
    // Newest first.
    var trades: seq<Trade>

    constructor ()
      ensures trades == []
    {
      trades := [];
    }

    // Adds what is new, and says whether anything was.
    method Record(incoming: seq<Trade>) returns (changed: bool)
      modifies this
      ensures trades == Recorded(old(trades), incoming)
      ensures changed <==> exists t :: t in incoming && !Has(old(trades), t.id)
      ensures !changed && |old(trades)| <= TAPE_LEN ==> trades == old(trades)
    {
      var sorted := OldestFirst(incoming);
      SameTrades(incoming);
      changed := false;
      for n := 0 to |sorted|
        invariant trades == WithAll(old(trades), sorted[..n])
        invariant changed <==> exists k :: 0 <= k < n && !Has(old(trades), sorted[k].id)
        invariant !changed ==> trades == old(trades)
        invariant forall id :: Has(old(trades), id) ==> Has(trades, id)
      {
        assert sorted[..n + 1][..n] == sorted[..n];
        var trade := sorted[n];
        ghost var before := trades;
        if !Has(trades, trade.id) {
          var at := Place(trades, trade.time);
          trades := trades[..at] + [trade] + trades[at..];
          changed := true;
        }
        KeepsIds(before, trade);
      }
      assert sorted[..|sorted|] == sorted;
      if |trades| > TAPE_LEN {
        trades := trades[..TAPE_LEN];
      }
      assert changed <==> exists t :: t in sorted && !Has(old(trades), t.id);
    }
  }

  lemma SameTrades(incoming: seq<Trade>)
    ensures forall t :: t in OldestFirst(incoming) <==> t in incoming
  {
    var le := (a: Trade, b: Trade) => a.time <= b.time;
    SortSorts(incoming, le);
    assert forall t :: t in OldestFirst(incoming) <==> t in multiset(OldestFirst(incoming));
  }

  // ---- What a tape is -------------------------------------------------

  predicate NewestFirst(trades: seq<Trade>) {
    forall i, j :: 0 <= i < j < |trades| ==> trades[i].time >= trades[j].time
  }

  predicate OneOfEach(trades: seq<Trade>) {
    forall i, j :: 0 <= i < j < |trades| ==> trades[i].id != trades[j].id
  }

  // Position by position, one list is at least as new as another.
  predicate NoOlder(later: seq<Trade>, earlier: seq<Trade>) {
    |later| >= |earlier| && forall i :: 0 <= i < |earlier| ==> later[i].time >= earlier[i].time
  }

  lemma InsertedAt(trades: seq<Trade>, t: Trade)
    requires !Has(trades, t.id)
    ensures var i, next := Place(trades, t.time), With(trades, t);
            && |next| == |trades| + 1 && next[i] == t
            && (forall j :: 0 <= j < i ==> next[j] == trades[j])
            && (forall j :: i < j < |next| ==> next[j] == trades[j - 1])
  {
  }

  lemma KeepsIds(trades: seq<Trade>, t: Trade)
    ensures forall id :: Has(With(trades, t), id) <==> Has(trades, id) || id == t.id
  {
    if !Has(trades, t.id) {
      InsertedAt(trades, t);
      var i, next := Place(trades, t.time), With(trades, t);
      assert next[i].id == t.id;
      forall id | Has(trades, id) ensures Has(next, id) {
        var j :| 0 <= j < |trades| && trades[j].id == id;
        assert next[if j < i then j else j + 1].id == id;
      }
    }
  }

  lemma WithKeepsOrder(trades: seq<Trade>, t: Trade)
    requires NewestFirst(trades)
    ensures NewestFirst(With(trades, t)) && NoOlder(With(trades, t), trades)
  {
    hide Place, With;
    var i, next := Place(trades, t.time), With(trades, t);
    if Has(trades, t.id) {
      assert next == trades by { Unchanged(trades, t); }
    } else {
      InsertedAt(trades, t);
      assert forall j :: i <= j < |trades| ==> trades[j].time <= trades[i].time <= t.time;
    }
  }

  lemma Unchanged(trades: seq<Trade>, t: Trade)
    requires Has(trades, t.id)
    ensures With(trades, t) == trades
  {
  }

  lemma WithKeepsOnce(trades: seq<Trade>, t: Trade)
    requires OneOfEach(trades)
    ensures OneOfEach(With(trades, t))
    ensures forall x :: x in With(trades, t) ==> x in trades || x == t
    ensures forall x :: x in trades ==> x in With(trades, t)
  {
    if !Has(trades, t.id) {
      InsertedAt(trades, t);
      var i, next := Place(trades, t.time), With(trades, t);
      hide With, Place;
      assert forall j :: 0 <= j < |trades| ==> trades[j].id != t.id;
      forall x | x in trades ensures x in next {
        var j :| 0 <= j < |trades| && trades[j] == x;
        assert next[if j < i then j else j + 1] == x;
      }
    }
  }

  lemma {:induction false} WithAllKeeps(trades: seq<Trade>, more: seq<Trade>)
    requires NewestFirst(trades) && OneOfEach(trades)
    ensures var all := WithAll(trades, more);
            && NewestFirst(all) && OneOfEach(all) && NoOlder(all, trades)
            && (forall x :: x in all ==> x in trades || x in more)
            && (forall x :: x in trades ==> x in all)
            && (forall x :: x in more ==> Has(all, x.id))
  {
    hide With;
    if more != [] {
      var n := |more| - 1;
      WithAllKeeps(trades, more[..n]);
      WithKeepsOrder(WithAll(trades, more[..n]), more[n]);
      WithKeepsOnce(WithAll(trades, more[..n]), more[n]);
      KeepsIds(WithAll(trades, more[..n]), more[n]);
      assert forall x :: x in more <==> x in more[..n] || x == more[n];
    }
  }

  // ---- Against a tape without a cap -----------------------------------

  function TapeAfter(batches: seq<seq<Trade>>): seq<Trade> {
    if batches == [] then [] else Recorded(TapeAfter(batches[..|batches| - 1]), batches[|batches| - 1])
  }

  predicate Seen(batches: seq<seq<Trade>>, t: Trade) {
    exists b :: 0 <= b < |batches| && t in batches[b]
  }

  // An id names one trade, whenever it comes.
  ghost predicate IdsNameOne(batches: seq<seq<Trade>>) {
    forall a, b :: Seen(batches, a) && Seen(batches, b) && a.id == b.id ==> a == b
  }

  // The tape is the newest of everything seen: in order, each once, no more
  // than it holds; nothing is left out unless it is full, and nothing left
  // out is newer than anything kept.
  ghost predicate IsNewest(tape: seq<Trade>, batches: seq<seq<Trade>>) {
    && NewestFirst(tape) && OneOfEach(tape) && |tape| <= 100
    && (forall t :: t in tape ==> Seen(batches, t))
    && (forall t :: Seen(batches, t) && t !in tape ==> LeftOut(t, tape))
  }

  predicate LeftOut(t: Trade, tape: seq<Trade>) {
    |tape| == 100 && forall i :: 0 <= i < |tape| ==> t.time <= tape[i].time
  }

  lemma CutLeavesOut(all: seq<Trade>, t: Trade)
    requires NewestFirst(all) && t in all && t !in Cut(all)
    ensures LeftOut(t, Cut(all))
  {
    assert forall j :: 0 <= j < |all| && j < TAPE_LEN ==> Cut(all)[j] == all[j];
    var j :| 0 <= j < |all| && all[j] == t;
  }

  lemma StaysLeftOut(before: seq<Trade>, all: seq<Trade>, t: Trade)
    requires LeftOut(t, before) && NoOlder(all, before)
    ensures LeftOut(t, Cut(all))
  {
    forall i | 0 <= i < TAPE_LEN ensures t.time <= Cut(all)[i].time {
      assert t.time <= before[i].time <= all[i].time;
    }
  }

  // One more batch, on a tape that is the newest of the ones before it.
  lemma BatchIsNewest(before: seq<Trade>, batches: seq<seq<Trade>>)
    requires IdsNameOne(batches) && batches != []
    requires IsNewest(before, batches[..|batches| - 1])
    ensures IsNewest(Recorded(before, batches[|batches| - 1]), batches)
  {
    hide OldestFirst, WithAll, With, Has, LeftOut, NoOlder;
    var n := |batches| - 1;
    var earlier := batches[..n];
    var sorted := OldestFirst(batches[n]);
    var all := WithAll(before, sorted);
    SeenSplits(batches);
    SameTrades(batches[n]);
    WithAllKeeps(before, sorted);
    forall t | t in batches[n] ensures t in all {
      var x := HasOne(all, t.id);
    }
    assert forall t :: t in Cut(all) ==> t in all;
    forall t | Seen(batches, t) && t !in Cut(all) ensures LeftOut(t, Cut(all)) {
      if t in all {
        CutLeavesOut(all, t);
      } else {
        assert Seen(earlier, t) && t !in before;
        StaysLeftOut(before, all, t);
      }
    }
  }

  lemma HasOne(trades: seq<Trade>, id: string) returns (x: Trade)
    requires Has(trades, id)
    ensures x in trades && x.id == id
  {
    var i :| 0 <= i < |trades| && trades[i].id == id;
    x := trades[i];
  }

  lemma SeenSplits(batches: seq<seq<Trade>>)
    requires batches != []
    ensures forall t :: Seen(batches, t) <==> Seen(batches[..|batches| - 1], t) || t in batches[|batches| - 1]
  {
    var n := |batches| - 1;
    forall t ensures Seen(batches, t) <==> Seen(batches[..n], t) || t in batches[n] {
      if Seen(batches[..n], t) {
        var b :| 0 <= b < n && t in batches[..n][b];
        assert t in batches[b];
      }
      if Seen(batches, t) && t !in batches[n] {
        var b :| 0 <= b < |batches| && t in batches[b];
        assert t in batches[..n][b];
      }
    }
  }

  // However often trades come, and come again, in whatever batches.
  lemma {:induction false} TapeIsNewest(batches: seq<seq<Trade>>)
    requires IdsNameOne(batches)
    ensures IsNewest(TapeAfter(batches), batches)
  {
    hide IsNewest, Recorded;
    if batches == [] {
      NothingIsNewest();
    } else {
      SeenSplits(batches);
      TapeIsNewest(batches[..|batches| - 1]);
      BatchIsNewest(TapeAfter(batches[..|batches| - 1]), batches);
    }
  }

  lemma NothingIsNewest()
    ensures IsNewest([], [])
  {
  }

  // ---- A trade taken in and cut off again -----------------------------

  lemma {:induction false} GrowsIfNew(trades: seq<Trade>, more: seq<Trade>)
    ensures |WithAll(trades, more)| >= |trades|
    ensures forall id :: Has(WithAll(trades, more), id) <==> Has(trades, id) || Has(more, id)
    ensures (exists t :: t in more && !Has(trades, t.id)) ==> |WithAll(trades, more)| > |trades|
    ensures (forall t :: t in more ==> Has(trades, t.id)) ==> WithAll(trades, more) == trades
  {
    hide With;
    if more != [] {
      var n := |more| - 1;
      var was := WithAll(trades, more[..n]);
      GrowsIfNew(trades, more[..n]);
      KeepsIds(was, more[n]);
      WithGrows(was, more[n]);
      assert more == more[..n] + [more[n]];
      forall id ensures Has(more, id) <==> Has(more[..n], id) || id == more[n].id {
        if Has(more[..n], id) {
          var i :| 0 <= i < n && more[..n][i].id == id;
          assert more[i].id == id;
        }
        if Has(more, id) && id != more[n].id {
          var i :| 0 <= i < |more| && more[i].id == id;
          assert more[..n][i].id == id;
        }
      }
      assert forall t :: t in more <==> t in more[..n] || t == more[n];
    }
  }

  lemma WithGrows(trades: seq<Trade>, t: Trade)
    ensures |With(trades, t)| == |trades| + if Has(trades, t.id) then 0 else 1
    ensures Has(trades, t.id) ==> With(trades, t) == trades
  {
  }

  // Each trade a tape hasn't is older than all of it, or names one that came
  // before.
  predicate AllBehind(trades: seq<Trade>, more: seq<Trade>)
    requires trades != []
  {
    forall k :: 0 <= k < |more| ==> IsBehind(trades, more, k)
  }

  predicate IsBehind(trades: seq<Trade>, more: seq<Trade>, k: nat)
    requires trades != [] && k < |more|
  {
    Has(trades, more[k].id) || Has(more[..k], more[k].id) || more[k].time < trades[|trades| - 1].time
  }

  predicate IsMixed(trades: seq<Trade>, cur: seq<Trade>)
    requires |cur| >= |trades|
  {
    exists j :: 0 <= j < |trades| && !Has(trades, cur[j].id)
  }

  lemma FrontIsUnmixed(trades: seq<Trade>, cur: seq<Trade>)
    requires |cur| >= |trades| && cur[..|trades|] == trades
    ensures !IsMixed(trades, cur)
  {
    forall j | 0 <= j < |trades| ensures Has(trades, cur[j].id) {
      assert trades[j].id == cur[..|trades|][j].id;
    }
  }

  // One more trade: a tape in front of all else stays there exactly if the
  // trade is no news or older than all of it, and one that isn't never is again.
  lemma FrontStays(trades: seq<Trade>, cur: seq<Trade>, t: Trade)
    requires trades != [] && NewestFirst(trades) && |cur| >= |trades|
    requires forall id :: Has(trades, id) ==> Has(cur, id)
    ensures |With(cur, t)| >= |trades|
    ensures IsMixed(trades, cur) ==> IsMixed(trades, With(cur, t))
    ensures cur[..|trades|] == trades ==>
      if Has(cur, t.id) || t.time < trades[|trades| - 1].time
      then With(cur, t)[..|trades|] == trades else IsMixed(trades, With(cur, t))
  {
    var n := |trades|;
    WithGrows(cur, t);
    if !Has(cur, t.id) {
      InsertedAt(cur, t);
      var at, next := Place(cur, t.time), With(cur, t);
      hide With, Place, Has;
      if cur[..n] == trades {
        assert forall j :: 0 <= j < n ==> cur[j] == trades[j] && trades[j].time >= trades[n - 1].time;
        if t.time < trades[n - 1].time {
          assert next[..n] == trades;
        } else {
          assert at < n && next[at] == t;
        }
      }
      if IsMixed(trades, cur) {
        var j :| 0 <= j < n && !Has(trades, cur[j].id);
        assert next[if at <= j then at else j] == if at <= j then t else cur[j];
      }
    }
  }

  lemma AllBehindSplits(trades: seq<Trade>, more: seq<Trade>)
    requires trades != [] && more != []
    ensures var n := |more| - 1;
            AllBehind(trades, more) <==> AllBehind(trades, more[..n]) && IsBehind(trades, more, n)
  {
    hide Has;
    var n := |more| - 1;
    forall k: nat | k < n ensures IsBehind(trades, more, k) <==> IsBehind(trades, more[..n], k) {
      assert more[..n][k] == more[k] && more[..n][..k] == more[..k];
    }
  }

  lemma {:induction false} FrontExactly(trades: seq<Trade>, more: seq<Trade>)
    requires trades != [] && NewestFirst(trades)
    ensures |WithAll(trades, more)| >= |trades|
    ensures if AllBehind(trades, more) then WithAll(trades, more)[..|trades|] == trades
            else IsMixed(trades, WithAll(trades, more))
  {
    hide With, IsMixed, Has, AllBehind, NewestFirst;
    GrowsIfNew(trades, more);
    if more == [] {
      assert AllBehind(trades, more) by { NothingIsBehind(trades); }
    } else {
      var n := |more| - 1;
      FrontExactly(trades, more[..n]);
      GrowsIfNew(trades, more[..n]);
      FrontStays(trades, WithAll(trades, more[..n]), more[n]);
      AllBehindSplits(trades, more);
    }
  }

  lemma NothingIsBehind(trades: seq<Trade>)
    requires trades != []
    ensures AllBehind(trades, [])
  {
  }

  // The oldest of an id in a sorted list comes first of it.
  lemma {:induction false} FirstOf(more: seq<Trade>, k: nat) returns (i: nat)
    requires k < |more|
    ensures i <= k && more[i].id == more[k].id && !Has(more[..i], more[k].id)
  {
    if Has(more[..k], more[k].id) {
      var j :| 0 <= j < k && more[..k][j].id == more[k].id;
      i := FirstOf(more, j);
    } else {
      i := k;
    }
  }

  // A trade older than all of the tape, or with a namesake among the new that is.
  predicate GoesBehind(trades: seq<Trade>, incoming: seq<Trade>, t: Trade)
    requires trades != []
  {
    exists x :: x in incoming && x.id == t.id && x.time < trades[|trades| - 1].time
  }

  predicate NewGoBehind(trades: seq<Trade>, incoming: seq<Trade>)
    requires trades != []
  {
    forall t :: t in incoming && !Has(trades, t.id) ==> GoesBehind(trades, incoming, t)
  }

  lemma BehindGoesBehind(trades: seq<Trade>, more: seq<Trade>)
    requires trades != [] && AllBehind(trades, more)
    ensures NewGoBehind(trades, more)
  {
    hide Has;
    forall t | t in more && !Has(trades, t.id) ensures GoesBehind(trades, more, t) {
      var k :| 0 <= k < |more| && more[k] == t;
      var i := FirstOf(more, k);
      assert IsBehind(trades, more, i);
      assert more[i] in more;
    }
  }

  lemma GoesBehindIsBehind(trades: seq<Trade>, more: seq<Trade>)
    requires trades != [] && NewGoBehind(trades, more)
    requires forall i, j :: 0 <= i < j < |more| ==> more[i].time <= more[j].time
    ensures AllBehind(trades, more)
  {
    forall k: nat | k < |more| ensures IsBehind(trades, more, k) {
      IsBehindAt(trades, more, k);
    }
  }

  lemma HasBefore(more: seq<Trade>, k: nat, x: Trade)
    requires k < |more| && x in more && x.id == more[k].id && x.time < more[k].time
    requires forall i, j :: 0 <= i < j < |more| ==> more[i].time <= more[j].time
    ensures Has(more[..k], more[k].id)
  {
    var i :| 0 <= i < |more| && more[i] == x;
    assert i < k;
    assert more[..k][i].id == more[k].id;
  }

  lemma IsBehindAt(trades: seq<Trade>, more: seq<Trade>, k: nat)
    requires trades != [] && k < |more| && NewGoBehind(trades, more)
    requires forall i, j :: 0 <= i < j < |more| ==> more[i].time <= more[j].time
    ensures IsBehind(trades, more, k)
  {
    hide Has;
    var t, last := more[k], trades[|trades| - 1].time;
    if !Has(trades, t.id) && t.time >= last {
      assert GoesBehind(trades, more, t);
      var x :| x in more && x.id == t.id && x.time < last;
      HasBefore(more, k, x);
    }
  }

  // Something was new and yet the tape is as it was: exactly if the tape is
  // full and all that is new is older than all of it.
  lemma TapeAsItWasExactly(trades: seq<Trade>, incoming: seq<Trade>)
    requires NewestFirst(trades) && |trades| <= TAPE_LEN
    requires exists t :: t in incoming && !Has(trades, t.id)
    ensures Recorded(trades, incoming) == trades <==>
            |trades| == TAPE_LEN && NewGoBehind(trades, incoming)
  {
    hide WithAll, Has, OldestFirst, NewestFirst, AllBehind, IsMixed, NewGoBehind;
    var sorted := OldestFirst(incoming);
    SameTrades(incoming);
    InTimeOrder(incoming);
    GrowsIfNew(trades, sorted);
    if |trades| == TAPE_LEN {
      FrontExactly(trades, sorted);
      SameNews(trades, incoming, sorted);
      if AllBehind(trades, sorted) {
        BehindGoesBehind(trades, sorted);
      } else {
        if WithAll(trades, sorted)[..TAPE_LEN] == trades {
          FrontIsUnmixed(trades, WithAll(trades, sorted));
        }
        if NewGoBehind(trades, sorted) {
          GoesBehindIsBehind(trades, sorted);
        }
      }
    }
  }

  lemma SameNews(trades: seq<Trade>, a: seq<Trade>, b: seq<Trade>)
    requires trades != [] && forall t :: t in a <==> t in b
    ensures NewGoBehind(trades, a) <==> NewGoBehind(trades, b)
  {
    hide Has;
    assert forall t :: GoesBehind(trades, a, t) <==> GoesBehind(trades, b, t);
  }

  lemma InTimeOrder(incoming: seq<Trade>)
    ensures var s := OldestFirst(incoming); forall i, j :: 0 <= i < j < |s| ==> s[i].time <= s[j].time
  {
    var le := (a: Trade, b: Trade) => a.time <= b.time;
    SortSorts(incoming, le);
    var s := OldestFirst(incoming);
    forall i, j | 0 <= i < j < |s| ensures s[i].time <= s[j].time {
      assert le(s[i], s[j]);
    }
  }
}
