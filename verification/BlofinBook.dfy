// BloFin's order book: full snapshots and updates chained by sequence id.
module BlofinBook {
  import opened Basics
  import opened Ladder

  datatype Applied = Changed | Gap

  // One push. Any action but a snapshot is an update; an id or time that isn't
  // there, or can't be read, is none.
  datatype Data = Data(
    seqId: Option<nat>, prevSeqId: Option<nat>, ts: Option<nat>,
    bids: seq<(real, real)>, asks: seq<(real, real)>)
  datatype Message = Message(action: Option<string>, data: Data)

  datatype State = State(bids: Levels, asks: Levels, seqId: Option<nat>, time: nat)

  const EMPTY := State(map[], map[], None, 0)

  predicate IsSnapshot(m: Message) { m.action == Some("snapshot") }

  predicate Follows(s: State, data: Data) { s.seqId.Some? && s.seqId == data.prevSeqId }

  function Outcome(s: State, m: Message): Applied {
    if IsSnapshot(m) || Follows(s, m.data) then Changed else Gap
  }

  function AfterPush(s: State, m: Message): State {
    if Outcome(s, m) == Gap then s
    else
      var bids, asks := if IsSnapshot(m) then map[] else s.bids, if IsSnapshot(m) then map[] else s.asks;
      State(PutAll(bids, m.data.bids), PutAll(asks, m.data.asks), m.data.seqId,
            if m.data.ts.Some? then m.data.ts.value else s.time)
  }

  class Book {
    var bids: Levels
    var asks: Levels
    var seqId: Option<nat>
    var time: nat

    function Contents(): State
      reads this
    {
      State(bids, asks, seqId, time)
    }

    constructor ()
      ensures Contents() == EMPTY
    {
      bids, asks, seqId, time := map[], map[], None, 0;
    }

    method Apply(m: Message) returns (r: Applied)
      modifies this
      ensures r == Outcome(old(Contents()), m)
      ensures Contents() == AfterPush(old(Contents()), m)
      ensures r == Changed <==>
        m.action == Some("snapshot") || (old(seqId).Some? && m.data.prevSeqId == old(seqId))
      ensures r == Gap ==> Contents() == old(Contents())
      ensures r == Changed ==> seqId == m.data.seqId
    {
      if m.action == Some("snapshot") {
        bids, asks := map[], map[];
      } else {
        var follows := match (seqId, m.data.prevSeqId)
          case (Some(l), Some(prev)) => l == prev
          case _ => false;
        if !follows {
          return Gap;
        }
      }
      bids := SetLevels(bids, m.data.bids);
      asks := SetLevels(asks, m.data.asks);
      seqId := m.data.seqId;
      if m.data.ts.Some? {
        time := m.data.ts.value;
      }
      r := Changed;
    }

    // What is shown of each side, contracts turned into base units.
    method Snapshot(depth: nat, contractValue: real)
      returns (bestBids: seq<(real, real)>, bestAsks: seq<(real, real)>)
      ensures BestLevels(InBase(bids, contractValue), depth, true, bestBids)
      ensures BestLevels(InBase(asks, contractValue), depth, false, bestAsks)
      ensures forall i, j :: 0 <= i < j < |bestBids| ==> bestBids[i].0 > bestBids[j].0
      ensures forall i, j :: 0 <= i < j < |bestAsks| ==> bestAsks[i].0 < bestAsks[j].0
      ensures forall i :: 0 <= i < |bestBids| ==>
        bestBids[i].0 in bids && bestBids[i].1 == bids[bestBids[i].0] * contractValue
      ensures forall i :: 0 <= i < |bestAsks| ==>
        bestAsks[i].0 in asks && bestAsks[i].1 == asks[bestAsks[i].0] * contractValue
    {
      bestBids := Top(bids, depth, true);
      BestInBase(bids, depth, true, bestBids, contractValue);
      bestBids := Scaled(bestBids, contractValue);
      bestAsks := Top(asks, depth, false);
      BestInBase(asks, depth, false, bestAsks, contractValue);
      bestAsks := Scaled(bestAsks, contractValue);
    }
  }

  // Some contracts of a market in base units.
  function Base(contracts: real, contractValue: real): real { contracts * contractValue }

  // A side with its sizes, the venue's contracts, as base units.
  function InBase(side: Levels, contractValue: real): Levels {
    map price | price in side :: Base(side[price], contractValue)
  }

  function Scaled(levels: seq<(real, real)>, contractValue: real): (r: seq<(real, real)>)
    ensures |r| == |levels|
    ensures forall i :: 0 <= i < |r| ==> r[i] == (levels[i].0, Base(levels[i].1, contractValue))
  {
    hide Base;
    seq(|levels|, i requires 0 <= i < |levels| => (levels[i].0, Base(levels[i].1, contractValue)))
  }

  lemma BestInBase(side: Levels, depth: nat, bid: bool, top: seq<(real, real)>, contractValue: real)
    requires BestLevels(side, depth, bid, top)
    ensures BestLevels(InBase(side, contractValue), depth, bid, Scaled(top, contractValue))
  {
    hide Base;
    var base, levels := InBase(side, contractValue), Scaled(top, contractValue);
    assert base.Keys == side.Keys;
    assert |base| == |base.Keys| && |side| == |side.Keys|;
    forall price, i | price in base && !Names(levels, price) && 0 <= i < |levels|
      ensures Better(bid, levels[i].0, price)
    {
      assert !Names(top, price) by {
        assert forall j :: 0 <= j < |top| ==> top[j].0 == levels[j].0;
      }
    }
  }

  // ---- The venue's pushes, and what the book is then ------------------

  function SideOf(s: State, bid: bool): Levels { if bid then s.bids else s.asks }

  function DataSide(data: Data, bid: bool): seq<(real, real)> { if bid then data.bids else data.asks }

  // An update right of a price on a side: everything since the id it names before
  // its own.
  ghost predicate UpdateAgrees(m: Message, history: seq<Update>, bid: bool, price: real) {
    !IsSnapshot(m) && m.data.seqId.Some? && m.data.prevSeqId.Some? ==>
      && m.data.prevSeqId.value <= m.data.seqId.value
      && CoversAt(DataSide(m.data, bid), history, m.data.prevSeqId.value, m.data.seqId.value, bid, price)
  }

  // A snapshot is cut at some depth, so it may be the venue's book at a price at
  // its id, or not.
  ghost predicate SnapAgrees(m: Message, history: seq<Update>, bid: bool, price: real) {
    IsSnapshot(m) && m.data.seqId.Some? ==>
      AgreeAt(PutAll(map[], DataSide(m.data, bid)), VenueSide(history, m.data.seqId.value, bid), price)
  }

  // A push of the whole book is right of every price.
  ghost predicate Genuine(m: Message, history: seq<Update>) {
    var d := m.data;
    if IsSnapshot(m) then
      d.seqId.Some? ==>
        && PutAll(map[], d.bids) == VenueSide(history, d.seqId.value, true)
        && PutAll(map[], d.asks) == VenueSide(history, d.seqId.value, false)
    else
      d.seqId.Some? && d.prevSeqId.Some? ==>
        && d.prevSeqId.value <= d.seqId.value
        && Covers(d.bids, history, d.prevSeqId.value, d.seqId.value, true)
        && Covers(d.asks, history, d.prevSeqId.value, d.seqId.value, false)
  }

  lemma GenuineAgrees(m: Message, history: seq<Update>, bid: bool, price: real)
    requires Genuine(m, history)
    ensures UpdateAgrees(m, history, bid, price) && SnapAgrees(m, history, bid, price)
  {
    hide CoversAt;
  }

  ghost predicate Refines(s: State, history: seq<Update>) {
    s.seqId.Some? ==> s.bids == VenueSide(history, s.seqId.value, true)
                      && s.asks == VenueSide(history, s.seqId.value, false)
  }

  function ReceiveAll(messages: seq<Message>): State {
    if messages == [] then EMPTY
    else AfterPush(ReceiveAll(messages[..|messages| - 1]), messages[|messages| - 1])
  }

  // ---- Price by price -------------------------------------------------

  ghost predicate RightAt(s: State, history: seq<Update>, bid: bool, price: real) {
    s.seqId.Some? ==> AgreeAt(SideOf(s, bid), VenueSide(history, s.seqId.value, bid), price)
  }

  lemma PushRightAt(s: State, m: Message, history: seq<Update>, bid: bool, price: real)
    requires UpdateAgrees(m, history, bid, price) && SnapAgrees(m, history, bid, price)
    requires RightAt(s, history, bid, price)
             || (Outcome(s, m) == Changed && (IsSnapshot(m) || Names(DataSide(m.data, bid), price)))
    ensures RightAt(AfterPush(s, m), history, bid, price)
  {
    var d := m.data;
    if !IsSnapshot(m) && Follows(s, d) && d.seqId.Some? {
      DiffAdvancesAt(SideOf(s, bid), DataSide(d, bid), history, s.seqId.value, s.seqId.value, d.seqId.value,
                     bid, price);
    }
  }

  // Where every push is right at a price, the book is whenever it has an id,
  // whichever of them arrive and in whatever order.
  lemma {:induction false} AlwaysRightAt(messages: seq<Message>, history: seq<Update>, bid: bool, price: real)
    requires forall i :: 0 <= i < |messages| ==> UpdateAgrees(messages[i], history, bid, price)
    requires forall i :: 0 <= i < |messages| ==> SnapAgrees(messages[i], history, bid, price)
    ensures RightAt(ReceiveAll(messages), history, bid, price)
  {
    if messages != [] {
      var n := |messages| - 1;
      AlwaysRightAt(messages[..n], history, bid, price);
      assert UpdateAgrees(messages[n], history, bid, price) && SnapAgrees(messages[n], history, bid, price);
      PushRightAt(ReceiveAll(messages[..n]), messages[n], history, bid, price);
    }
  }

  // A push the book learns a price from: a snapshot right there, or an update
  // that names it and was applied.
  ghost predicate Tells(messages: seq<Message>, k: nat, history: seq<Update>, bid: bool, price: real)
    requires k < |messages|
  {
    && SnapAgrees(messages[k], history, bid, price)
    && (IsSnapshot(messages[k])
        || (Outcome(ReceiveAll(messages[..k]), messages[k]) == Changed
            && Names(DataSide(messages[k].data, bid), price)))
  }

  // One told it, and neither it nor any since was wrong there.
  ghost predicate TellsLast(messages: seq<Message>, k: nat, history: seq<Update>, bid: bool, price: real)
    requires k < |messages|
  {
    && Tells(messages, k, history, bid, price)
    && (forall j :: k <= j < |messages| ==>
          SnapAgrees(messages[j], history, bid, price) && UpdateAgrees(messages[j], history, bid, price))
  }

  ghost predicate Told(messages: seq<Message>, history: seq<Update>, bid: bool, price: real) {
    exists k: nat :: k < |messages| && TellsLast(messages, k, history, bid, price)
  }

  lemma TellsBefore(messages: seq<Message>, n: nat, k: nat, history: seq<Update>, bid: bool, price: real)
    requires k < n <= |messages| && TellsLast(messages, k, history, bid, price)
    ensures TellsLast(messages[..n], k, history, bid, price)
  {
    assert messages[..n][k] == messages[k] && messages[..n][..k] == messages[..k];
    assert forall j :: k <= j < n ==> messages[..n][j] == messages[j];
  }

  // Of a price it was told, the book is right from then on.
  lemma {:induction false} ToldIsRight(messages: seq<Message>, history: seq<Update>, bid: bool, price: real)
    requires Told(messages, history, bid, price)
    ensures RightAt(ReceiveAll(messages), history, bid, price)
  {
    hide Outcome, UpdateAgrees, RightAt, SnapAgrees, AfterPush;
    var n := |messages| - 1;
    var k: nat :| k < |messages| && TellsLast(messages, k, history, bid, price);
    assert UpdateAgrees(messages[n], history, bid, price) && SnapAgrees(messages[n], history, bid, price);
    if k < n {
      TellsBefore(messages, n, k, history, bid, price);
      ToldIsRight(messages[..n], history, bid, price);
    } else if IsSnapshot(messages[n]) {
      SnapshotsApply(ReceiveAll(messages[..n]), messages[n]);
    }
    PushRightAt(ReceiveAll(messages[..n]), messages[n], history, bid, price);
  }

  lemma SnapshotsApply(s: State, m: Message)
    requires IsSnapshot(m)
    ensures Outcome(s, m) == Changed
  {
  }

  // ---- The whole book -------------------------------------------------

  // So of snapshots of the whole book: whatever pushes arrive, in any order,
  // whenever the book has an id it is the venue's book at that id, and it never
  // holds a level of no size.
  lemma AlwaysTheVenuesBook(messages: seq<Message>, history: seq<Update>)
    requires forall i :: 0 <= i < |messages| ==> Genuine(messages[i], history)
    ensures Refines(ReceiveAll(messages), history)
    ensures NoEmptyLevels(ReceiveAll(messages).bids) && NoEmptyLevels(ReceiveAll(messages).asks)
  {
    hide ReceiveAll;
    var s := ReceiveAll(messages);
    forall bid: bool, price: real ensures RightAt(s, history, bid, price) {
      forall i | 0 <= i < |messages|
        ensures UpdateAgrees(messages[i], history, bid, price) && SnapAgrees(messages[i], history, bid, price)
      {
        GenuineAgrees(messages[i], history, bid, price);
      }
      AlwaysRightAt(messages, history, bid, price);
    }
    if s.seqId.Some? {
      forall price: real ensures AgreeAt(s.bids, VenueSide(history, s.seqId.value, true), price)
                                 && AgreeAt(s.asks, VenueSide(history, s.seqId.value, false), price)
      {
        assert RightAt(s, history, true, price) && RightAt(s, history, false, price);
      }
      AgreeEverywhere(s.bids, VenueSide(history, s.seqId.value, true));
      AgreeEverywhere(s.asks, VenueSide(history, s.seqId.value, false));
    }
    NeverEmptyLevels(messages);
  }

  lemma {:induction false} NeverEmptyLevels(messages: seq<Message>)
    ensures NoEmptyLevels(ReceiveAll(messages).bids) && NoEmptyLevels(ReceiveAll(messages).asks)
  {
    if messages != [] {
      var n := |messages| - 1;
      NeverEmptyLevels(messages[..n]);
      var s, m := ReceiveAll(messages[..n]), messages[n];
      PutAllKeepsSizes(if IsSnapshot(m) then map[] else s.bids, m.data.bids);
      PutAllKeepsSizes(if IsSnapshot(m) then map[] else s.asks, m.data.asks);
    }
  }

  // ---- What is shown of it --------------------------------------------

  lemma SameInBase(a: real, b: real, contractValue: real)
    requires contractValue > 0.0
    ensures Base(a, contractValue) == Base(b, contractValue) <==> a == b
  {
    assert (a - b) * contractValue == Base(a, contractValue) - Base(b, contractValue);
  }

  lemma AgreeInBase(a: Levels, b: Levels, contractValue: real, price: real)
    requires contractValue > 0.0
    ensures AgreeAt(InBase(a, contractValue), InBase(b, contractValue), price) <==> AgreeAt(a, b, price)
  {
    hide Base;
    if price in a && price in b {
      SameInBase(a[price], b[price], contractValue);
    }
  }

  // The levels shown are the venue's best exactly if the book is right at every
  // price they reach.
  lemma ShownExactly(messages: seq<Message>, history: seq<Update>, contractValue: real, depth: nat, bid: bool,
                     top: seq<(real, real)>)
    requires contractValue > 0.0 && ReceiveAll(messages).seqId.Some?
    requires BestLevels(InBase(SideOf(ReceiveAll(messages), bid), contractValue), depth, bid, top)
    ensures BestLevels(InBase(VenueSide(history, ReceiveAll(messages).seqId.value, bid), contractValue),
                       depth, bid, top)
            <==> forall price :: Reaches(top, depth, bid, price) ==> RightAt(ReceiveAll(messages), history, bid, price)
  {
    hide ReceiveAll, InBase, BestLevels;
    var s := ReceiveAll(messages);
    var side, venue := SideOf(s, bid), VenueSide(history, s.seqId.value, bid);
    BestOfBothExactly(InBase(side, contractValue), InBase(venue, contractValue), depth, bid, top);
    forall price: real
      ensures AgreeAt(InBase(side, contractValue), InBase(venue, contractValue), price)
              <==> RightAt(s, history, bid, price)
    {
      AgreeInBase(side, venue, contractValue, price);
    }
  }

  // And they are, after a snapshot of the venue's best `limit` levels, while every
  // price shown, or passed over on the way, was inside that or named by an update
  // applied since - whatever came before it.
  lemma ShownIsTheVenuesBest(messages: seq<Message>, history: seq<Update>, k: nat, limit: nat,
                             contractValue: real, depth: nat, bid: bool, top: seq<(real, real)>)
    requires forall i, price :: k < i < |messages| && Reaches(top, depth, bid, price) ==>
      UpdateAgrees(messages[i], history, bid, price)
    requires k < |messages| && IsSnapshot(messages[k]) && messages[k].data.seqId.Some?
    requires forall j :: k < j < |messages| ==> !IsSnapshot(messages[j])
    requires BestLevels(VenueSide(history, messages[k].data.seqId.value, bid), limit, bid,
                        DataSide(messages[k].data, bid))
    requires contractValue > 0.0 && ReceiveAll(messages).seqId.Some?
    requires BestLevels(InBase(SideOf(ReceiveAll(messages), bid), contractValue), depth, bid, top)
    requires forall price :: Reaches(top, depth, bid, price) ==>
      Reaches(DataSide(messages[k].data, bid), limit, bid, price)
      || exists j: nat :: k < j < |messages| && Tells(messages, j, history, bid, price)
    ensures BestLevels(InBase(VenueSide(history, ReceiveAll(messages).seqId.value, bid), contractValue),
                       depth, bid, top)
  {
    hide ReceiveAll, Tells, BestLevels, RightAt, InBase;
    var d := messages[k].data;
    forall price | Reaches(top, depth, bid, price)
      ensures RightAt(ReceiveAll(messages), history, bid, price)
    {
      if Reaches(DataSide(d, bid), limit, bid, price) {
        VenueHasSizes(history, d.seqId.value, bid);
        CutAgrees(VenueSide(history, d.seqId.value, bid), limit, bid, DataSide(d, bid), price);
        SnapTells(messages, k, history, bid, price);
        assert TellsLast(messages, k, history, bid, price);
      } else {
        var j: nat :| k < j < |messages| && Tells(messages, j, history, bid, price);
        assert TellsLast(messages, j, history, bid, price);
      }
      ToldIsRight(messages, history, bid, price);
    }
    ShownExactly(messages, history, contractValue, depth, bid, top);
  }

  lemma SnapTells(messages: seq<Message>, k: nat, history: seq<Update>, bid: bool, price: real)
    requires k < |messages| && IsSnapshot(messages[k]) && SnapAgrees(messages[k], history, bid, price)
    ensures Tells(messages, k, history, bid, price)
  {
  }

  // A book that has lost its place takes nothing but a snapshot.
  lemma OnlyASnapshotRestarts(s: State, m: Message)
    requires s.seqId.None?
    ensures Outcome(s, m) == Changed <==> IsSnapshot(m)
    ensures !IsSnapshot(m) ==> AfterPush(s, m) == s
  {
  }

  // ---- Updates in turn, and one lost ----------------------------------

  // Updates as sent, each naming the one before it.
  predicate Chain(updates: seq<Message>) {
    && (forall i :: 0 <= i < |updates| ==> IsUpdate(updates[i]))
    && (forall i :: 0 < i < |updates| ==> updates[i].data.prevSeqId == updates[i - 1].data.seqId)
  }

  predicate IsUpdate(m: Message) {
    m.action != Some("snapshot") && m.data.seqId.Some? && m.data.prevSeqId.Some?
    && m.data.prevSeqId.value < m.data.seqId.value
  }

  lemma {:induction false} ChainRises(updates: seq<Message>, i: nat, j: nat)
    requires Chain(updates) && i < j < |updates|
    ensures updates[i].data.seqId.value < updates[j].data.seqId.value
  {
    assert IsUpdate(updates[i]) && IsUpdate(updates[j]) && IsUpdate(updates[j - 1]);
    if i < j - 1 {
      ChainRises(updates, i, j - 1);
    }
  }

  // After one of them the next is applied, and any other is a gap that leaves the
  // book as it was.
  lemma OnlyTheNext(s: State, updates: seq<Message>, i: nat, j: nat)
    requires Chain(updates) && i < |updates| && j < |updates| && s.seqId == updates[i].data.seqId
    ensures Outcome(s, updates[j]) == if j == i + 1 then Changed else Gap
    ensures j == i + 1 ==> AfterPush(s, updates[j]).seqId == updates[j].data.seqId
    ensures j == i + 1 ==>
      AfterPush(s, updates[j]).time == if updates[j].data.ts.Some? then updates[j].data.ts.value else s.time
    ensures j != i + 1 ==> AfterPush(s, updates[j]) == s
  {
    assert IsUpdate(updates[i]) && IsUpdate(updates[j]);
    if j > i + 1 {
      ChainRises(updates, i, j - 1);
    } else if 0 < j < i + 1 {
      assert IsUpdate(updates[j - 1]);
      if j - 1 < i { ChainRises(updates, j - 1, i); }
    } else if j == 0 && i > 0 {
      ChainRises(updates, 0, i);
    }
  }

  function PushAll(s: State, messages: seq<Message>): State {
    if messages == [] then s else AfterPush(PushAll(s, messages[..|messages| - 1]), messages[|messages| - 1])
  }

  // With none lost, each is applied in its turn, from whichever was applied last.
  lemma {:induction false} AppliesInTurn(s: State, updates: seq<Message>, i: nat, n: nat)
    requires Chain(updates) && i < n <= |updates| && s.seqId == updates[i].data.seqId
    ensures PushAll(s, updates[i + 1..n]).seqId == updates[n - 1].data.seqId
    ensures n < |updates| ==> Outcome(PushAll(s, updates[i + 1..n]), updates[n]) == Changed
  {
    hide Outcome, AfterPush, IsUpdate;
    var some := updates[i + 1..n];
    if i + 1 < n {
      AppliesInTurn(s, updates, i, n - 1);
      assert some[..|some| - 1] == updates[i + 1..n - 1];
      OnlyTheNext(PushAll(s, updates[i + 1..n - 1]), updates, n - 2, n - 1);
    }
    if n < |updates| {
      OnlyTheNext(PushAll(s, some), updates, n - 1, n);
    }
  }

  ghost predicate OtherThan(updates: seq<Message>, due: nat, m: Message) {
    exists j: nat :: j < |updates| && j != due && updates[j] == m
  }

  lemma OthersAreGaps(s: State, updates: seq<Message>, i: nat, m: Message)
    requires Chain(updates) && i < |updates| && s.seqId == updates[i].data.seqId && OtherThan(updates, i + 1, m)
    ensures Outcome(s, m) == Gap && AfterPush(s, m) == s
  {
    var j: nat :| j < |updates| && j != i + 1 && updates[j] == m;
    OnlyTheNext(s, updates, i, j);
  }

  // And where one is lost, whatever arrives of the others is a gap from then on,
  // until there is a snapshot.
  lemma {:induction false} AHoleIsAGap(s: State, updates: seq<Message>, i: nat, arrived: seq<Message>, k: nat)
    requires Chain(updates) && i < |updates| && s.seqId == updates[i].data.seqId
    requires k < |arrived| && forall j :: 0 <= j < |arrived| ==> OtherThan(updates, i + 1, arrived[j])
    ensures PushAll(s, arrived[..k]) == s && Outcome(s, arrived[k]) == Gap
  {
    hide Outcome, AfterPush, OtherThan;
    if k > 0 {
      AHoleIsAGap(s, updates, i, arrived, k - 1);
      assert arrived[..k][..k - 1] == arrived[..k - 1];
      OthersAreGaps(s, updates, i, arrived[k - 1]);
    }
    OthersAreGaps(s, updates, i, arrived[k]);
  }

  // A snapshot is taken whatever came before it, and updates go on from its id.
  lemma SnapshotRestarts(s: State, m: Message)
    requires IsSnapshot(m)
    ensures Outcome(s, m) == Changed && AfterPush(s, m).seqId == m.data.seqId
    ensures AfterPush(s, m).time == if m.data.ts.Some? then m.data.ts.value else s.time
    ensures forall bid: bool :: SideOf(AfterPush(s, m), bid) == PutAll(map[], DataSide(m.data, bid))
  {
  }
}
