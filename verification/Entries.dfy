// The rules' facts from what a venue says: its fills made one entry an order,
// whatever number of fills the order took.
module Entries {
  import opened Basics
  import opened Ordering
  import opened Rules

  datatype Effect =
    OpenLong | CloseLong | OpenShort | CloseShort | LongToShort | ShortToLong | OtherEffect

  datatype Fill = Fill(
    orderId: string, market: string, effect: Effect, price: real, size: real, time: nat)

  datatype Position = Position(
    market: string, side: PositionSide, size: real, markPrice: real, unrealizedPnl: real)

  type Listed = (string, Entry)

  predicate Opens(f: Fill) {
    f.effect.OpenLong? || f.effect.OpenShort? || f.effect.LongToShort? || f.effect.ShortToLong?
  }

  function Notional(f: Fill): real { f.price * Abs(f.size) }

  // Where an order is listed, or the end if it isn't yet.
  function PlaceOf(list: seq<Listed>, id: string): (i: nat)
    ensures i <= |list| && (i < |list| ==> list[i].0 == id)
    ensures forall j :: 0 <= j < i ==> list[j].0 != id
  {
    if list == [] || list[0].0 == id then 0 else 1 + PlaceOf(list[1..], id)
  }

  function Enter(list: seq<Listed>, f: Fill): seq<Listed> {
    var i := PlaceOf(list, f.orderId);
    if !Opens(f) then list
    else if i < |list| then
      var e := list[i].1;
      list[i := (f.orderId, e.(notional := e.notional + Notional(f),
                              at := if f.time < e.at then f.time else e.at))]
    else list + [(f.orderId, Entry(f.market, f.time, Notional(f)))]
  }

  function Entered(fills: seq<Fill>): seq<Listed> {
    if fills == [] then [] else Enter(Entered(fills[..|fills| - 1]), fills[|fills| - 1])
  }

  predicate Earlier(a: Entry, b: Entry) { a.at <= b.at }

  predicate ClosedEarlier(a: Closed, b: Closed) { a.at <= b.at }

  function EntriesOf(list: seq<Listed>): (r: seq<Entry>)
    ensures |r| == |list| && forall i :: 0 <= i < |r| ==> r[i] == list[i].1
  {
    seq(|list|, i requires 0 <= i < |list| => list[i].1)
  }

  function HeldOf(p: Position): HeldPosition {
    HeldPosition(p.market, p.side, Abs(p.size), Abs(p.size) * p.markPrice, p.unrealizedPnl)
  }

  function FactsOf(
    now: nat, equity: real, positions: seq<Position>, fills: seq<Fill>, closed: seq<Closed>): Facts
  {
    Facts(now, equity, seq(|positions|, i requires 0 <= i < |positions| => HeldOf(positions[i])),
          Sort(EntriesOf(Entered(fills)), Earlier), Sort(closed, ClosedEarlier), None)
  }

  method FromVenue(
    now: nat, equity: real, positions: seq<Position>, fills: seq<Fill>, closed: seq<Closed>)
    returns (facts: Facts)
    ensures facts == FactsOf(now, equity, positions, fills, closed)
  {
    var held := seq(|positions|, i requires 0 <= i < |positions| => HeldOf(positions[i]));
    var entries: seq<Listed> := [];
    var i := 0;
    while i < |fills|
      invariant 0 <= i <= |fills|
      invariant entries == Entered(fills[..i])
    {
      var fill := fills[i];
      assert fills[..i + 1][..i] == fills[..i];
      i := i + 1;
      if !Opens(fill) {
        continue;
      }
      var notional := Notional(fill);
      var k := 0;
      while k < |entries| && entries[k].0 != fill.orderId
        invariant 0 <= k <= |entries|
        invariant forall j :: 0 <= j < k ==> entries[j].0 != fill.orderId
      {
        k := k + 1;
      }
      if k < |entries| {
        var entry := entries[k].1;
        entries := entries[k := (fill.orderId,
          entry.(notional := entry.notional + notional,
                 at := if fill.time < entry.at then fill.time else entry.at))];
      } else {
        entries := entries + [(fill.orderId, Entry(fill.market, fill.time, notional))];
      }
    }
    assert fills[..i] == fills;
    facts := Facts(now, equity, held, Sort(EntriesOf(entries), Earlier), Sort(closed, ClosedEarlier), None);
  }

  // ---- What the entries are -------------------------------------------

  // Any fill of an order that isn't to close a position, nor of an unknown kind.
  predicate IsOf(f: Fill, id: string) {
    f.effect != CloseLong && f.effect != CloseShort && f.effect != OtherEffect && f.orderId == id
  }

  function WorthOf(f: Fill): real { if f.size < 0.0 then f.price * -f.size else f.price * f.size }

  // What an order's opening fills came to.
  function NotionalOf(fills: seq<Fill>, id: string): real {
    Sum(fills, (f: Fill) => if IsOf(f, id) then WorthOf(f) else 0.0)
  }

  // An order's entry: all its opening fills are worth, at the earliest of
  // them, on the market of the first listed.
  predicate Stands(e: Entry, fills: seq<Fill>, id: string) {
    && e.notional == NotionalOf(fills, id)
    && (forall f :: f in fills && IsOf(f, id) ==> e.at <= f.time)
    && (exists f :: f in fills && IsOf(f, id) && f.time == e.at)
    && (exists k :: 0 <= k < |fills| && IsOf(fills[k], id) && fills[k].market == e.market
                    && forall j :: 0 <= j < k ==> !IsOf(fills[j], id))
  }

  predicate OneAnOrder(list: seq<Listed>, fills: seq<Fill>) {
    && (forall i, j :: 0 <= i < j < |list| ==> list[i].0 != list[j].0)
    && (forall f :: f in fills && IsOf(f, f.orderId) ==> exists i :: 0 <= i < |list| && list[i].0 == f.orderId)
    && (forall i :: 0 <= i < |list| ==> Stands(list[i].1, fills, list[i].0))
  }

  lemma SumOfOne(fills: seq<Fill>, f: Fill, id: string)
    ensures NotionalOf(fills + [f], id)
            == NotionalOf(fills, id) + if IsOf(f, id) then WorthOf(f) else 0.0
  {
    var term := (f: Fill) => if IsOf(f, id) then WorthOf(f) else 0.0;
    assert (fills + [f])[..|fills|] == fills;
    assert NotionalOf(fills + [f], id) == Sum(fills + [f], term);
  }

  lemma {:induction false} NothingOf(fills: seq<Fill>, id: string)
    requires forall f :: f in fills ==> !IsOf(f, id)
    ensures NotionalOf(fills, id) == 0.0
  {
    if fills != [] {
      var n := |fills| - 1;
      NothingOf(fills[..n], id);
      assert fills == fills[..n] + [fills[n]];
      SumOfOne(fills[..n], fills[n], id);
    }
  }

  // A fill of another order leaves an entry be.
  lemma StandsStill(e: Entry, fills: seq<Fill>, f: Fill, id: string)
    requires Stands(e, fills, id) && !IsOf(f, id)
    ensures Stands(e, fills + [f], id)
  {
    SumOfOne(fills, f, id);
    var g :| g in fills && IsOf(g, id) && g.time == e.at;
    assert g in fills + [f];
    var k :| 0 <= k < |fills| && IsOf(fills[k], id) && fills[k].market == e.market
             && forall j :: 0 <= j < k ==> !IsOf(fills[j], id);
    assert (fills + [f])[k] == fills[k] && forall j :: 0 <= j < k ==> (fills + [f])[j] == fills[j];
  }

  lemma StandsOn(e: Entry, fills: seq<Fill>, f: Fill)
    requires Stands(e, fills, f.orderId) && Opens(f)
    ensures Stands(e.(notional := e.notional + Notional(f), at := if f.time < e.at then f.time else e.at),
                   fills + [f], f.orderId)
  {
    var id := f.orderId;
    SumOfOne(fills, f, id);
    var g :| g in fills && IsOf(g, id) && g.time == e.at;
    assert g in fills + [f] && f in fills + [f];
    var k :| 0 <= k < |fills| && IsOf(fills[k], id) && fills[k].market == e.market
             && forall j :: 0 <= j < k ==> !IsOf(fills[j], id);
    assert (fills + [f])[k] == fills[k] && forall j :: 0 <= j < k ==> (fills + [f])[j] == fills[j];
  }

  lemma StandsFirst(fills: seq<Fill>, f: Fill)
    requires Opens(f) && forall g :: g in fills ==> !IsOf(g, f.orderId)
    ensures Stands(Entry(f.market, f.time, Notional(f)), fills + [f], f.orderId)
  {
    NothingOf(fills, f.orderId);
    SumOfOne(fills, f, f.orderId);
    var all := fills + [f];
    assert f in all && all[|fills|] == f && forall j :: 0 <= j < |fills| ==> all[j] in fills;
  }

  lemma EnterKeepsOneAnOrder(list: seq<Listed>, fills: seq<Fill>, f: Fill)
    requires OneAnOrder(list, fills)
    ensures OneAnOrder(Enter(list, f), fills + [f])
  {
    hide Stands, Notional;
    var after := Enter(list, f);
    var i := PlaceOf(list, f.orderId);
    forall k | 0 <= k < |after| ensures Stands(after[k].1, fills + [f], after[k].0) {
      if k < |list| && !(k == i && Opens(f)) {
        StandsStill(list[k].1, fills, f, list[k].0);
      } else if k < |list| {
        StandsOn(list[k].1, fills, f);
      } else {
        StandsFirst(fills, f);
      }
    }
    forall g | g in fills + [f] && IsOf(g, g.orderId) ensures exists k :: 0 <= k < |after| && after[k].0 == g.orderId {
      if g in fills {
        var k :| 0 <= k < |list| && list[k].0 == g.orderId;
        assert after[k].0 == g.orderId;
      } else {
        assert after[i].0 == g.orderId;
      }
    }
  }

  // Every order that opened has one entry, and every entry is an order's.
  lemma {:induction false} EnteredIsOneAnOrder(fills: seq<Fill>)
    ensures OneAnOrder(Entered(fills), fills)
  {
    hide Enter, Stands;
    if fills != [] {
      var n := |fills| - 1;
      EnteredIsOneAnOrder(fills[..n]);
      EnterKeepsOneAnOrder(Entered(fills[..n]), fills[..n], fills[n]);
      assert fills == fills[..n] + [fills[n]];
    }
  }

  function Worth(e: Entry): real { e.notional }

  lemma WorthIsNotional(f: Fill)
    ensures Notional(f) == WorthOf(f)
  {
  }

  function OpeningWorth(f: Fill): real { if IsOf(f, f.orderId) then WorthOf(f) else 0.0 }

  lemma {:induction false} SumOfUpdate(s: seq<Entry>, i: nat, e: Entry)
    requires i < |s|
    ensures Sum(s[i := e], Worth) == Sum(s, Worth) - s[i].notional + e.notional
  {
    var n := |s| - 1;
    if i < n {
      assert s[i := e][..n] == s[..n][i := e];
      SumOfUpdate(s[..n], i, e);
    } else {
      assert s[i := e][..n] == s[..n];
    }
  }

  // Nothing opened is lost or counted twice, and the entries come oldest first.
  lemma EntriesAddUp(now: nat, equity: real, positions: seq<Position>, fills: seq<Fill>, closed: seq<Closed>)
    ensures var entries := FactsOf(now, equity, positions, fills, closed).entries;
            && Sum(entries, Worth) == Sum(fills, OpeningWorth)
            && (forall i, j :: 0 <= i < j < |entries| ==> entries[i].at <= entries[j].at)
            && multiset(entries) == multiset(EntriesOf(Entered(fills)))
  {
    SumOfSort(EntriesOf(Entered(fills)), Earlier, Worth);
    SortSorts(EntriesOf(Entered(fills)), Earlier);
    var sorted := Sort(EntriesOf(Entered(fills)), Earlier);
    forall i, j | 0 <= i < j < |sorted| ensures sorted[i].at <= sorted[j].at {
      assert Earlier(sorted[i], sorted[j]);
    }
    EnteredAddsUp(fills);
  }

  lemma {:induction false} EnteredAddsUp(fills: seq<Fill>)
    ensures Sum(EntriesOf(Entered(fills)), Worth) == Sum(fills, OpeningWorth)
  {
    hide Notional, WorthOf;
    if fills != [] {
      var n := |fills| - 1;
      var list, f := Entered(fills[..n]), fills[n];
      WorthIsNotional(f);
      EnteredAddsUp(fills[..n]);
      var i := PlaceOf(list, f.orderId);
      var after := Entered(fills);
      if Opens(f) && i < |list| {
        assert EntriesOf(after) == EntriesOf(list)[i := after[i].1];
        SumOfUpdate(EntriesOf(list), i, after[i].1);
      } else if Opens(f) {
        assert EntriesOf(after) == EntriesOf(list) + [after[|list|].1];
        SumOfAppend(EntriesOf(list), [after[|list|].1], Worth);
        assert [after[|list|].1][..0] == [];
      }
    }
  }

  // ---- The rest of the facts ------------------------------------------

  // The others come as the venue has them: each position at its mark, the closed
  // trades oldest first with those of one time in the order given, and no calendar.
  lemma FactsAreTheVenues(now: nat, equity: real, positions: seq<Position>, fills: seq<Fill>, closed: seq<Closed>,
                          at: nat)
    ensures var facts := FactsOf(now, equity, positions, fills, closed);
            && facts.now == now && facts.equity == equity && facts.news.None?
            && |facts.positions| == |positions|
            && (forall i :: 0 <= i < |positions| ==> IsHeld(facts.positions[i], positions[i]))
            && multiset(facts.closed) == multiset(closed)
            && (forall i, j :: 0 <= i < j < |facts.closed| ==> facts.closed[i].at <= facts.closed[j].at)
            && Only(facts.closed, (c: Closed) => c.at == at) == Only(closed, (c: Closed) => c.at == at)
  {
    SortSorts(closed, ClosedEarlier);
    SortIsStable(closed, ClosedEarlier, (c: Closed) => c.at == at);
    var sorted := Sort(closed, ClosedEarlier);
    forall i, j | 0 <= i < j < |sorted| ensures sorted[i].at <= sorted[j].at {
      assert ClosedEarlier(sorted[i], sorted[j]);
    }
  }

  // As large as the venue's size says, whatever its sign, and worth that at the mark.
  predicate IsHeld(h: HeldPosition, p: Position) {
    && h.market == p.market && h.side == p.side && h.unrealized == p.unrealizedPnl
    && h.size >= 0.0 && (h.size == p.size || h.size == -p.size)
    && h.notional == p.markPrice * h.size
  }
}
