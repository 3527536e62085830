// Binance's order book: a REST snapshot, then the diff stream on top of it.
module BinanceBook {
  import opened Basics
  import opened Ladder

  datatype Applied = Changed | Stale | Gap

  datatype Depth = Depth(lastUpdateId: nat, time: nat, bids: seq<(real, real)>, asks: seq<(real, real)>)

  // `first` to `last` are the update ids it spans; `prev` is the last one of
  // the diff before it.
  datatype Diff = Diff(
    first: nat, last: nat, prev: nat, time: nat, bids: seq<(real, real)>, asks: seq<(real, real)>)

  datatype State = State(
    bids: Levels, asks: Levels, snapshotId: Option<nat>, last: Option<nat>, time: nat)

  const EMPTY := State(map[], map[], None, None, 0)

  function AfterReset(depth: Depth): State {
    State(PutAll(map[], depth.bids), PutAll(map[], depth.asks),
          Some(depth.lastUpdateId), None, depth.time)
  }

  function Outcome(s: State, diff: Diff): Applied {
    if s.last.Some? then
      if diff.prev == s.last.value then Changed else Gap
    else if s.snapshotId.None? then Gap
    else if diff.last < s.snapshotId.value then Stale
    else if diff.first > s.snapshotId.value then Gap
    else Changed
  }

  function AfterDiff(s: State, diff: Diff): State {
    if Outcome(s, diff) != Changed then s
    else s.(bids := PutAll(s.bids, diff.bids), asks := PutAll(s.asks, diff.asks),
            last := Some(diff.last), time := diff.time)
  }

  class Book {
    var bids: Levels
    var asks: Levels
    var snapshotId: Option<nat>
    var last: Option<nat>
    var time: nat

    function Contents(): State
      reads this
    {
      State(bids, asks, snapshotId, last, time)
    }

    constructor ()
      ensures Contents() == EMPTY
    {
      bids, asks, snapshotId, last, time := map[], map[], None, None, 0;
    }

    method Reset(depth: Depth)
      modifies this
      ensures Contents() == AfterReset(depth)
    {
      bids, asks := map[], map[];
      bids := SetLevels(bids, depth.bids);
      asks := SetLevels(asks, depth.asks);
      snapshotId := Some(depth.lastUpdateId);
      last := None;
      time := depth.time;
    }

    method Apply(diff: Diff) returns (r: Applied)
      modifies this
      ensures r == Outcome(old(Contents()), diff)
      ensures Contents() == AfterDiff(old(Contents()), diff)
      ensures old(last).Some? ==> r == if diff.prev == old(last).value then Changed else Gap
      ensures old(last).None? && old(snapshotId).None? ==> r == Gap
      ensures old(last).None? && old(snapshotId).Some? ==>
        r == if diff.last < old(snapshotId).value then Stale
             else if diff.first > old(snapshotId).value then Gap else Changed
      ensures r != Changed ==> Contents() == old(Contents())
      ensures r == Changed ==> last == Some(diff.last) && time == diff.time
    {
      match (last, snapshotId) {
        case (Some(l), _) =>
          if diff.prev != l {
            return Gap;
          }
        case (None, Some(id)) =>
          if diff.last < id {
            return Stale;
          }
          if diff.first > id {
            return Gap;
          }
        case (None, None) =>
          return Gap;
      }
      bids := SetLevels(bids, diff.bids);
      asks := SetLevels(asks, diff.asks);
      last := Some(diff.last);
      time := diff.time;
      return Changed;
    }

    // What is shown of each side: its best `depth` prices, the bids from the
    // highest down.
    method Snapshot(depth: nat) returns (bestBids: seq<(real, real)>, bestAsks: seq<(real, real)>)
      ensures BestLevels(bids, depth, true, bestBids)
      ensures BestLevels(asks, depth, false, bestAsks)
      ensures forall i, j :: 0 <= i < j < |bestBids| ==> bestBids[i].0 > bestBids[j].0
      ensures forall i, j :: 0 <= i < j < |bestAsks| ==> bestAsks[i].0 < bestAsks[j].0
      ensures forall price, i :: price in bids && !Names(bestBids, price) && 0 <= i < |bestBids| ==>
        price < bestBids[i].0
      ensures forall price, i :: price in asks && !Names(bestAsks, price) && 0 <= i < |bestAsks| ==>
        price > bestAsks[i].0
    {
      bestBids := Top(bids, depth, true);
      bestAsks := Top(asks, depth, false);
    }
  }

  // ---- The venue's messages, and what the book is then ----------------

  function SideOf(s: State, bid: bool): Levels { if bid then s.bids else s.asks }

  function DepthSide(depth: Depth, bid: bool): seq<(real, real)> { if bid then depth.bids else depth.asks }

  function DiffSide(diff: Diff, bid: bool): seq<(real, real)> { if bid then diff.bids else diff.asks }

  // A snapshot of the whole book: exactly the venue's at that update.
  ghost predicate GenuineDepth(depth: Depth, history: seq<Update>) {
    && PutAll(map[], depth.bids) == VenueSide(history, depth.lastUpdateId, true)
    && PutAll(map[], depth.asks) == VenueSide(history, depth.lastUpdateId, false)
  }

  // A diff as the venue sends it: it covers every update after the last one
  // of the diff before it.
  ghost predicate GenuineDiff(diff: Diff, history: seq<Update>) {
    && diff.prev < diff.first <= diff.last
    && Covers(diff.bids, history, diff.prev, diff.last, true)
    && Covers(diff.asks, history, diff.prev, diff.last, false)
  }

  // One that is right of a price on a side, if no more.
  ghost predicate GenuineDiffAt(diff: Diff, history: seq<Update>, bid: bool, price: real) {
    && diff.prev < diff.first <= diff.last
    && CoversAt(DiffSide(diff, bid), history, diff.prev, diff.last, bid, price)
  }

  // The update the book is right at, once it has a snapshot.
  function SyncedAt(s: State): Option<nat> { if s.last.Some? then s.last else s.snapshotId }

  ghost predicate Refines(s: State, history: seq<Update>) {
    match SyncedAt(s)
    case None => s.bids == map[] && s.asks == map[]
    case Some(id) => s.bids == VenueSide(history, id, true) && s.asks == VenueSide(history, id, false)
  }

  lemma ResetRefines(depth: Depth, history: seq<Update>)
    requires GenuineDepth(depth, history)
    ensures Refines(AfterReset(depth), history)
    ensures AfterReset(depth).time == depth.time
  {
  }

  lemma DiffRefines(s: State, diff: Diff, history: seq<Update>)
    requires GenuineDiff(diff, history) && Refines(s, history)
    ensures Refines(AfterDiff(s, diff), history)
  {
    if Outcome(s, diff) == Changed {
      var at := SyncedAt(s).value;
      DiffAdvances(diff.bids, history, diff.prev, at, diff.last, true);
      DiffAdvances(diff.asks, history, diff.prev, at, diff.last, false);
    }
  }

  // What reaches the book, in whatever order the network brings it.
  datatype Message = Snap(depth: Depth) | Push(diff: Diff)

  ghost predicate Genuine(m: Message, history: seq<Update>) {
    match m
    case Snap(depth) => GenuineDepth(depth, history)
    case Push(diff) => GenuineDiff(diff, history)
  }

  function Receive(s: State, m: Message): State {
    match m
    case Snap(depth) => AfterReset(depth)
    case Push(diff) => AfterDiff(s, diff)
  }

  function ReceiveAll(messages: seq<Message>): State {
    if messages == [] then EMPTY
    else Receive(ReceiveAll(messages[..|messages| - 1]), messages[|messages| - 1])
  }

  // ---- Price by price -------------------------------------------------

  // The book is the venue's at a price, at the update it has reached.
  ghost predicate RightAt(s: State, history: seq<Update>, bid: bool, price: real) {
    match SyncedAt(s)
    case None => price !in SideOf(s, bid)
    case Some(id) => AgreeAt(SideOf(s, bid), VenueSide(history, id, bid), price)
  }

  lemma DiffRightAt(s: State, diff: Diff, history: seq<Update>, bid: bool, price: real)
    requires GenuineDiffAt(diff, history, bid, price)
    requires RightAt(s, history, bid, price)
             || (Outcome(s, diff) == Changed && Names(DiffSide(diff, bid), price))
    ensures RightAt(AfterDiff(s, diff), history, bid, price)
    ensures SyncedAt(s).Some? ==> SyncedAt(AfterDiff(s, diff)).Some?
  {
    if Outcome(s, diff) == Changed {
      DiffAdvancesAt(SideOf(s, bid), DiffSide(diff, bid), history, diff.prev, SyncedAt(s).value, diff.last,
                     bid, price);
    }
  }

  // Snapshots are cut at some depth, so one may be right at a price or not.
  ghost predicate SnapAgrees(m: Message, history: seq<Update>, bid: bool, price: real) {
    m.Snap? ==> AgreeAt(PutAll(map[], DepthSide(m.depth, bid)),
                        VenueSide(history, m.depth.lastUpdateId, bid), price)
  }

  // So may a diff, if the venue sends no more than some of its levels.
  ghost predicate PushAgrees(m: Message, history: seq<Update>, bid: bool, price: real) {
    m.Push? ==> GenuineDiffAt(m.diff, history, bid, price)
  }

  // Where every message is right at a price, the book always is, whichever of them
  // are lost, stale, repeated or reordered.
  lemma {:induction false} AlwaysRightAt(messages: seq<Message>, history: seq<Update>, bid: bool, price: real)
    requires forall i :: 0 <= i < |messages| ==> PushAgrees(messages[i], history, bid, price)
    requires forall i :: 0 <= i < |messages| ==> SnapAgrees(messages[i], history, bid, price)
    ensures RightAt(ReceiveAll(messages), history, bid, price)
  {
    if messages != [] {
      var n := |messages| - 1;
      AlwaysRightAt(messages[..n], history, bid, price);
      assert PushAgrees(messages[n], history, bid, price) && SnapAgrees(messages[n], history, bid, price);
      if messages[n].Push? {
        DiffRightAt(ReceiveAll(messages[..n]), messages[n].diff, history, bid, price);
      }
    }
  }

  // A message the book learns a price from: a snapshot right there, or a diff
  // that names it and was applied.
  ghost predicate Tells(messages: seq<Message>, k: nat, history: seq<Update>, bid: bool, price: real)
    requires k < |messages|
  {
    match messages[k]
    case Snap(_) => SnapAgrees(messages[k], history, bid, price)
    case Push(diff) => Outcome(ReceiveAll(messages[..k]), diff) == Changed && Names(DiffSide(diff, bid), price)
  }

  // One told it, and neither it nor any since was wrong there.
  ghost predicate Told(messages: seq<Message>, history: seq<Update>, bid: bool, price: real) {
    exists k: nat :: k < |messages| && TellsLast(messages, k, history, bid, price)
  }

  ghost predicate TellsLast(messages: seq<Message>, k: nat, history: seq<Update>, bid: bool, price: real)
    requires k < |messages|
  {
    && Tells(messages, k, history, bid, price)
    && (forall j :: k <= j < |messages| ==>
          SnapAgrees(messages[j], history, bid, price) && PushAgrees(messages[j], history, bid, price))
  }

  lemma TellsBefore(messages: seq<Message>, n: nat, k: nat, history: seq<Update>, bid: bool, price: real)
    requires k < n <= |messages|
    ensures Tells(messages[..n], k, history, bid, price) <==> Tells(messages, k, history, bid, price)
    ensures TellsLast(messages, k, history, bid, price) ==> TellsLast(messages[..n], k, history, bid, price)
  {
    assert messages[..n][k] == messages[k] && messages[..n][..k] == messages[..k];
    assert forall j :: k <= j < n ==> messages[..n][j] == messages[j];
  }

  // Of a price it was told, the book is right from then on.
  lemma {:induction false} ToldIsRight(messages: seq<Message>, history: seq<Update>, bid: bool, price: real)
    requires Told(messages, history, bid, price)
    ensures SyncedAt(ReceiveAll(messages)).Some? && RightAt(ReceiveAll(messages), history, bid, price)
  {
    hide Outcome, GenuineDiffAt, RightAt;
    var n := |messages| - 1;
    var k: nat :| k < |messages| && TellsLast(messages, k, history, bid, price);
    var s := ReceiveAll(messages[..n]);
    assert PushAgrees(messages[n], history, bid, price);
    match messages[n] {
      case Snap(depth) =>
        assert SnapAgrees(messages[n], history, bid, price);
        SnapIsRight(depth, history, bid, price);
      case Push(diff) =>
        if k < n {
          TellsBefore(messages, n, k, history, bid, price);
          ToldIsRight(messages[..n], history, bid, price);
        } else {
          ChangedIsSynced(s, diff);
        }
        DiffRightAt(s, diff, history, bid, price);
    }
  }

  lemma SnapIsRight(depth: Depth, history: seq<Update>, bid: bool, price: real)
    requires SnapAgrees(Snap(depth), history, bid, price)
    ensures SyncedAt(AfterReset(depth)).Some? && RightAt(AfterReset(depth), history, bid, price)
  {
  }

  lemma ChangedIsSynced(s: State, diff: Diff)
    requires Outcome(s, diff) == Changed
    ensures SyncedAt(s).Some?
  {
  }

  // ---- The whole book -------------------------------------------------

  // So of snapshots of the whole book: whatever genuine messages arrive, lost,
  // stale, repeated or reordered, the book is the venue's at the last update
  // applied - after a gap too, when it has only stopped - and never holds a
  // level of no size.
  lemma AlwaysTheVenuesBook(messages: seq<Message>, history: seq<Update>)
    requires forall i :: 0 <= i < |messages| ==> Genuine(messages[i], history)
    ensures Refines(ReceiveAll(messages), history)
    ensures NoEmptyLevels(ReceiveAll(messages).bids) && NoEmptyLevels(ReceiveAll(messages).asks)
  {
    hide ReceiveAll;
    var s := ReceiveAll(messages);
    forall bid: bool, price: real ensures RightAt(s, history, bid, price) {
      forall i | 0 <= i < |messages|
        ensures PushAgrees(messages[i], history, bid, price) && SnapAgrees(messages[i], history, bid, price)
      {
        GenuineAgrees(messages[i], history, bid, price);
      }
      AlwaysRightAt(messages, history, bid, price);
    }
    match SyncedAt(s) {
      case None =>
        forall price: real ensures price !in s.bids && price !in s.asks {
          assert RightAt(s, history, true, price) && RightAt(s, history, false, price);
        }
        assert s.bids.Keys == {} && s.asks.Keys == {};
      case Some(id) =>
        forall price ensures AgreeAt(s.bids, VenueSide(history, id, true), price) {
          assert RightAt(s, history, true, price);
        }
        forall price ensures AgreeAt(s.asks, VenueSide(history, id, false), price) {
          assert RightAt(s, history, false, price);
        }
        AgreeEverywhere(s.bids, VenueSide(history, id, true));
        AgreeEverywhere(s.asks, VenueSide(history, id, false));
    }
    NeverEmptyLevels(messages);
  }

  lemma GenuineAgrees(m: Message, history: seq<Update>, bid: bool, price: real)
    requires Genuine(m, history)
    ensures PushAgrees(m, history, bid, price) && SnapAgrees(m, history, bid, price)
  {
    hide CoversAt;
  }

  lemma {:induction false} NeverEmptyLevels(messages: seq<Message>)
    ensures NoEmptyLevels(ReceiveAll(messages).bids) && NoEmptyLevels(ReceiveAll(messages).asks)
  {
    if messages != [] {
      var n := |messages| - 1;
      NeverEmptyLevels(messages[..n]);
      var s := ReceiveAll(messages[..n]);
      match messages[n] {
        case Snap(depth) =>
          PutAllKeepsSizes(map[], depth.bids);
          PutAllKeepsSizes(map[], depth.asks);
        case Push(diff) =>
          PutAllKeepsSizes(s.bids, diff.bids);
          PutAllKeepsSizes(s.asks, diff.asks);
      }
    }
  }

  // ---- What is shown of it --------------------------------------------

  // The levels shown are the venue's best exactly if the book is right at every
  // price they reach.
  lemma ShownExactly(messages: seq<Message>, history: seq<Update>, depth: nat, bid: bool,
                     top: seq<(real, real)>)
    requires SyncedAt(ReceiveAll(messages)).Some?
    requires BestLevels(SideOf(ReceiveAll(messages), bid), depth, bid, top)
    ensures BestLevels(VenueSide(history, SyncedAt(ReceiveAll(messages)).value, bid), depth, bid, top)
            <==> forall price :: Reaches(top, depth, bid, price) ==> RightAt(ReceiveAll(messages), history, bid, price)
  {
    var s := ReceiveAll(messages);
    BestOfBothExactly(SideOf(s, bid), VenueSide(history, SyncedAt(s).value, bid), depth, bid, top);
  }

  // And they are, after a snapshot of the venue's best `limit` levels, while every
  // price shown, or passed over on the way, was inside that or named by a diff
  // applied since - whatever came before it.
  lemma ShownIsTheVenuesBest(messages: seq<Message>, history: seq<Update>, k: nat, limit: nat,
                             depth: nat, bid: bool, top: seq<(real, real)>)
    requires forall i, price :: k < i < |messages| && Reaches(top, depth, bid, price) ==>
      PushAgrees(messages[i], history, bid, price)
    requires k < |messages| && messages[k].Snap? && forall j :: k < j < |messages| ==> messages[j].Push?
    requires BestLevels(VenueSide(history, messages[k].depth.lastUpdateId, bid), limit, bid,
                        DepthSide(messages[k].depth, bid))
    requires BestLevels(SideOf(ReceiveAll(messages), bid), depth, bid, top)
    requires forall price :: Reaches(top, depth, bid, price) ==>
      Reaches(DepthSide(messages[k].depth, bid), limit, bid, price)
      || exists j: nat :: k < j < |messages| && Tells(messages, j, history, bid, price)
    ensures SyncedAt(ReceiveAll(messages)).Some?
    ensures BestLevels(VenueSide(history, SyncedAt(ReceiveAll(messages)).value, bid), depth, bid, top)
  {
    hide ReceiveAll, Tells, BestLevels, RightAt;
    StaysSynced(messages, k);
    var m := messages[k];
    forall price | Reaches(top, depth, bid, price)
      ensures RightAt(ReceiveAll(messages), history, bid, price)
    {
      if Reaches(DepthSide(m.depth, bid), limit, bid, price) {
        VenueHasSizes(history, m.depth.lastUpdateId, bid);
        CutAgrees(VenueSide(history, m.depth.lastUpdateId, bid), limit, bid, DepthSide(m.depth, bid), price);
        assert Tells(messages, k, history, bid, price) by { SnapTells(messages, k, history, bid, price); }
        assert TellsLast(messages, k, history, bid, price);
      } else {
        var j: nat :| k < j < |messages| && Tells(messages, j, history, bid, price);
        assert TellsLast(messages, j, history, bid, price);
      }
      ToldIsRight(messages, history, bid, price);
    }
    ShownExactly(messages, history, depth, bid, top);
  }

  lemma SnapTells(messages: seq<Message>, k: nat, history: seq<Update>, bid: bool, price: real)
    requires k < |messages| && messages[k].Snap? && SnapAgrees(messages[k], history, bid, price)
    ensures Tells(messages, k, history, bid, price)
  {
  }

  lemma {:induction false} StaysSynced(messages: seq<Message>, k: nat)
    requires k < |messages| && messages[k].Snap?
    ensures SyncedAt(ReceiveAll(messages)).Some?
  {
    var n := |messages| - 1;
    if k < n {
      assert messages[..n][k] == messages[k];
      StaysSynced(messages[..n], k);
    }
  }

  // ---- Nothing lost, nothing missed -----------------------------------

  // The stream as sent: each diff names the one before it. (Its ids may leave
  // some out between the two: they aren't one market's alone.)
  predicate Chain(diffs: seq<Diff>) {
    && (forall i :: 0 <= i < |diffs| ==> diffs[i].prev < diffs[i].first <= diffs[i].last)
    && (forall i :: 0 < i < |diffs| ==> diffs[i].prev == diffs[i - 1].last)
  }

  // A diff that is past the snapshot where the one before it, if any, was from
  // before it.
  predicate JumpsOver(diffs: seq<Diff>, i: nat, id: nat)
    requires i < |diffs|
  {
    (i == 0 || diffs[i].prev < id) && id < diffs[i].first
  }

  function ApplyAll(s: State, diffs: seq<Diff>): State {
    if diffs == [] then s else AfterDiff(ApplyAll(s, diffs[..|diffs| - 1]), diffs[|diffs| - 1])
  }

  // A stream all from before the snapshot has brought the book nowhere.
  lemma {:induction false} StillWaiting(depth: Depth, diffs: seq<Diff>)
    requires Chain(diffs) && (diffs != [] ==> diffs[|diffs| - 1].last < depth.lastUpdateId)
    ensures ApplyAll(AfterReset(depth), diffs) == AfterReset(depth)
  {
    if diffs != [] {
      var n := |diffs| - 1;
      assert n > 0 ==> diffs[..n][n - 1] == diffs[n - 1];
      StillWaiting(depth, diffs[..n]);
    }
  }

  // Where a whole stream that doesn't jump over the snapshot has brought the book:
  // nowhere until it reaches the snapshot, and then to its own last update.
  lemma {:induction false} WholeStreamKeepsUp(depth: Depth, diffs: seq<Diff>)
    requires Chain(diffs) && diffs != []
    requires forall i :: 0 <= i < |diffs| ==> !JumpsOver(diffs, i, depth.lastUpdateId)
    ensures var s, end := ApplyAll(AfterReset(depth), diffs), diffs[|diffs| - 1].last;
            if end < depth.lastUpdateId then s == AfterReset(depth) else s.last == Some(end)
  {
    var n := |diffs| - 1;
    assert !JumpsOver(diffs, n, depth.lastUpdateId);
    if n > 0 {
      forall i | 0 <= i < n ensures !JumpsOver(diffs[..n], i, depth.lastUpdateId) {
        assert !JumpsOver(diffs, i, depth.lastUpdateId);
      }
      WholeStreamKeepsUp(depth, diffs[..n]);
      assert diffs[..n][n - 1] == diffs[n - 1];
    } else {
      assert ApplyAll(AfterReset(depth), diffs[..n]) == AfterReset(depth);
    }
  }

  // So with nothing lost, and none that jumps over it, no diff is ever a gap.
  lemma WholeStreamNeverGaps(depth: Depth, diffs: seq<Diff>, i: nat)
    requires Chain(diffs) && i < |diffs|
    requires forall j :: 0 <= j < |diffs| ==> !JumpsOver(diffs, j, depth.lastUpdateId)
    ensures Outcome(ApplyAll(AfterReset(depth), diffs[..i]), diffs[i]) != Gap
  {
    assert !JumpsOver(diffs, i, depth.lastUpdateId);
    if i > 0 {
      forall j | 0 <= j < i ensures !JumpsOver(diffs[..i], j, depth.lastUpdateId) {
        assert !JumpsOver(diffs, j, depth.lastUpdateId);
      }
      WholeStreamKeepsUp(depth, diffs[..i]);
      assert diffs[..i][i - 1] == diffs[i - 1];
    }
  }

  // A whole stream meets no gap exactly if none of its diffs jumps over the
  // snapshot: though nothing was missed, one that does is a gap.
  lemma NoGapExactly(depth: Depth, diffs: seq<Diff>)
    requires Chain(diffs)
    ensures (forall i :: 0 <= i < |diffs| ==> Outcome(ApplyAll(AfterReset(depth), diffs[..i]), diffs[i]) != Gap)
            <==> forall i :: 0 <= i < |diffs| ==> !JumpsOver(diffs, i, depth.lastUpdateId)
  {
    if forall i :: 0 <= i < |diffs| ==> !JumpsOver(diffs, i, depth.lastUpdateId) {
      forall i | 0 <= i < |diffs| ensures Outcome(ApplyAll(AfterReset(depth), diffs[..i]), diffs[i]) != Gap {
        WholeStreamNeverGaps(depth, diffs, i);
      }
    }
    forall i | 0 <= i < |diffs| && JumpsOver(diffs, i, depth.lastUpdateId)
      ensures Outcome(ApplyAll(AfterReset(depth), diffs[..i]), diffs[i]) == Gap
    {
      assert i > 0 ==> diffs[..i][i - 1] == diffs[i - 1];
      StillWaiting(depth, diffs[..i]);
    }
  }

  // Where the ids leave none out, that is a stream that starts at the snapshot or
  // past it.
  lemma JumpsWithoutHoles(depth: Depth, diffs: seq<Diff>)
    requires Chain(diffs) && diffs != []
    requires forall i :: 0 <= i < |diffs| ==> diffs[i].first == diffs[i].prev + 1
    ensures (forall i :: 0 <= i < |diffs| ==> !JumpsOver(diffs, i, depth.lastUpdateId))
            <==> diffs[0].prev < depth.lastUpdateId
  {
    assert JumpsOver(diffs, 0, depth.lastUpdateId) <==> diffs[0].prev >= depth.lastUpdateId;
  }

  // ---- Something lost -------------------------------------------------

  // A diff is passed over as stale only by a book that waits for its first one,
  // and only if it ends before the snapshot; with no snapshot every one is a gap.
  // What isn't applied changes nothing.
  lemma StaleExactly(s: State, diff: Diff)
    ensures Outcome(s, diff) == Stale <==> s.last.None? && s.snapshotId.Some? && diff.last < s.snapshotId.value
    ensures SyncedAt(s).None? ==> Outcome(s, diff) == Gap
    ensures Outcome(s, diff) != Changed ==> AfterDiff(s, diff) == s
    ensures Outcome(s, diff) == Changed ==> SyncedAt(AfterDiff(s, diff)) == Some(diff.last)
                                            && AfterDiff(s, diff).time == diff.time
  {
  }

  lemma {:induction false} ChainRises(diffs: seq<Diff>, i: nat, j: nat)
    requires Chain(diffs) && i < j < |diffs|
    ensures diffs[i].last < diffs[j].last
  {
    if i < j - 1 {
      ChainRises(diffs, i, j - 1);
    }
  }

  // Once one diff of a stream has been applied, the next is, and any other is a gap.
  lemma OnlyTheNext(s: State, diffs: seq<Diff>, i: nat, j: nat)
    requires Chain(diffs) && i < |diffs| && j < |diffs| && s.last == Some(diffs[i].last)
    ensures Outcome(s, diffs[j]) == if j == i + 1 then Changed else Gap
  {
    if j > i + 1 {
      ChainRises(diffs, i, j - 1);
    } else if 0 < j <= i {
      if j - 1 < i { ChainRises(diffs, j - 1, i); }
    } else if j == 0 && i > 0 {
      ChainRises(diffs, 0, i);
    }
  }

  // What arrives is of the stream, without the one due.
  ghost predicate Misses(diffs: seq<Diff>, due: nat, arrived: seq<Diff>) {
    forall k :: 0 <= k < |arrived| ==> OtherThan(diffs, due, arrived[k])
  }

  ghost predicate OtherThan(diffs: seq<Diff>, due: nat, diff: Diff) {
    exists j: nat :: j < |diffs| && j != due && diffs[j] == diff
  }

  lemma OthersAreGaps(s: State, diffs: seq<Diff>, i: nat, diff: Diff)
    requires Chain(diffs) && i < |diffs| && s.last == Some(diffs[i].last) && OtherThan(diffs, i + 1, diff)
    ensures Outcome(s, diff) == Gap
  {
    var j: nat :| j < |diffs| && j != i + 1 && diffs[j] == diff;
    OnlyTheNext(s, diffs, i, j);
  }

  lemma {:induction false} LostIsLost(s: State, diffs: seq<Diff>, i: nat, arrived: seq<Diff>)
    requires Chain(diffs) && i < |diffs| && s.last == Some(diffs[i].last) && Misses(diffs, i + 1, arrived)
    ensures ApplyAll(s, arrived) == s
  {
    hide Outcome, OtherThan;
    if arrived != [] {
      var n := |arrived| - 1;
      LostIsLost(s, diffs, i, arrived[..n]);
      OthersAreGaps(s, diffs, i, arrived[n]);
    }
  }

  lemma {:induction false} AppliesInTurn(s: State, diffs: seq<Diff>, i: nat, n: nat)
    requires Chain(diffs) && i < n <= |diffs| && s.last == Some(diffs[i].last)
    ensures ApplyAll(s, diffs[i + 1..n]).last == Some(diffs[n - 1].last)
  {
    var some := diffs[i + 1..n];
    if i + 1 < n {
      AppliesInTurn(s, diffs, i, n - 1);
      assert some[..|some| - 1] == diffs[i + 1..n - 1];
      OnlyTheNext(ApplyAll(s, diffs[i + 1..n - 1]), diffs, n - 2, n - 1);
    }
  }

  lemma {:induction false} AppliedThen(s: State, a: seq<Diff>, b: seq<Diff>)
    ensures ApplyAll(s, a + b) == ApplyAll(ApplyAll(s, a), b)
  {
    if b == [] {
      assert a + b == a;
    } else {
      assert (a + b)[..|a + b| - 1] == a + b[..|b| - 1];
      AppliedThen(s, a, b[..|b| - 1]);
    }
  }

  // A book that is following a stream, to where one diff goes missing: the first
  // to arrive after the hole is a gap, and so is every later one, whichever they are,
  // for as long as there is no reset; the book stays as it was at the hole.
  lemma AHoleIsAGap(s: State, diffs: seq<Diff>, i: nat, lost: nat, arrived: seq<Diff>, k: nat)
    requires Chain(diffs) && i < lost <= |diffs| && s.last == Some(diffs[i].last)
    requires Misses(diffs, lost, arrived) && k < |arrived|
    ensures var sofar := diffs[i + 1..lost] + arrived[..k];
            && Outcome(ApplyAll(s, sofar), arrived[k]) == Gap
            && ApplyAll(s, sofar) == ApplyAll(s, diffs[i + 1..lost])
            && SyncedAt(ApplyAll(s, sofar)) == Some(diffs[lost - 1].last)
  {
    hide Outcome, OtherThan, AfterDiff;
    var atHole := ApplyAll(s, diffs[i + 1..lost]);
    AppliesInTurn(s, diffs, i, lost);
    AppliedThen(s, diffs[i + 1..lost], arrived[..k]);
    LostIsLost(atHole, diffs, lost - 1, arrived[..k]);
    OthersAreGaps(atHole, diffs, lost - 1, arrived[k]);
  }
}
