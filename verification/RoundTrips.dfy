// Which side a closed position was on, and what a position opened and closed in
// two trades is reported as.
module RoundTrips {
  import opened Basics
  import opened Ordering
  import opened ClosedTrades
  import opened TradeLaws
  import opened OpeningTimes

  // ---- Sides ----------------------------------------------------------

  // A close that is of what its market then held: a sale of a long, or a purchase
  // against a short.
  predicate OfWhatIsHeld(size: real, t: WireTrade) {
    (size > 0.0 && t.side == "SELL") || (size < 0.0 && t.side == "BUY")
  }

  // Every row is for the side of the position that the close which started it was
  // of; and where that was of nothing the trades show, for the side such a trade
  // takes down. The market's size is the sum of its signed quantities.
  lemma RowSides(trades: seq<WireTrade>, i: nat)
    requires i < |RowsAfter(InTradeOrder(trades))|
    ensures var ts := InTradeOrder(trades);
            var c := RowsAfter(ts)[i];
            exists k: nat :: Started(ts, |ts|, c, k)
              && (c.openedAt.Some? <==> OfWhatIsHeld(Net(ts[..k], c.market), ts[k]))
              && (c.openedAt.Some? ==> (c.side == Long <==> Net(ts[..k], c.market) > 0.0))
              && (c.side == Long <==> ts[k].side == "SELL")
  {
    RowOpenedBetween(trades, i);
    var ts := InTradeOrder(trades);
    var c := RowsAfter(ts)[i];
    var k: nat :| Started(ts, |ts|, c, k)
      && (c.openedAt.Some? <==> Against(PositionAfter(ts[..k], c.market).size, Signed(ts[k])));
    PositionIsNet(ts[..k], c.market);
  }

  // A row's time is that of the last close of its order there.
  ghost predicate EndsWith(ts: seq<WireTrade>, n: nat, c: Closing, k: nat)
    requires n <= |ts|
  {
    && k < n && Closes(ts[k], c.orderId, c.market) && c.time == ts[k].time
    && forall j :: k < j < n ==> !Closes(ts[j], c.orderId, c.market)
  }

  lemma {:induction false} RowsEnd(ts: seq<WireTrade>, n: nat, i: nat)
    requires n <= |ts| && i < |RowsAfter(ts[..n])|
    ensures exists k: nat :: EndsWith(ts, n, RowsAfter(ts[..n])[i], k)
  {
    assert ts[..n][..n - 1] == ts[..n - 1] && ts[..n][n - 1] == ts[n - 1];
    var rows, t := RowsAfter(ts[..n - 1]), ts[n - 1];
    var after := RowsAfter(ts[..n]);
    if IsClose(t) && i == RowOf(rows, t) {
      assert EndsWith(ts, n, after[i], n - 1);
    } else {
      assert i < |rows| && after[i] == rows[i];
      RowsEnd(ts, n - 1, i);
      var k: nat :| EndsWith(ts, n - 1, rows[i], k);
      OtherRow(ts, n, i);
      assert EndsWith(ts, n, after[i], k);
    }
  }

  // A close joins the one row of its order there, so no other is of that order.
  lemma OtherRow(ts: seq<WireTrade>, n: nat, i: nat)
    requires 0 < n <= |ts| && i < |RowsAfter(ts[..n - 1])|
    requires !(IsClose(ts[n - 1]) && i == RowOf(RowsAfter(ts[..n - 1]), ts[n - 1]))
    ensures var c := RowsAfter(ts[..n - 1])[i]; !Closes(ts[n - 1], c.orderId, c.market)
  {
    var rows, t := RowsAfter(ts[..n - 1]), ts[n - 1];
    RowsSumTheirTrades(ts, n - 1, t.orderId, t.symbol);
    assert OneRowEach(rows);
    var at := RowOf(rows, t);
    if at < |rows| && at != i {
      assert IsRow(rows[at], t.orderId, t.symbol);
      assert at < i ==> !IsRow(rows[i], rows[at].orderId, rows[at].market);
      assert i < at ==> !IsRow(rows[at], rows[i].orderId, rows[i].market);
    }
  }

  // ---- The order of the list ------------------------------------------

  // Trades are followed in the order they were made, by id within a millisecond, and
  // every one of them is.
  lemma FollowedInOrder(trades: seq<WireTrade>)
    ensures multiset(InTradeOrder(trades)) == multiset(trades)
    ensures var ts := InTradeOrder(trades);
            forall i, j :: 0 <= i < j < |ts| ==>
              ts[i].time < ts[j].time || (ts[i].time == ts[j].time && ts[i].id <= ts[j].id)
  {
    var le := (a: WireTrade, b: WireTrade) => Earlier(a, b);
    SortSorts(trades, le);
    var ts := InTradeOrder(trades);
    forall i, j | 0 <= i < j < |ts|
      ensures ts[i].time < ts[j].time || (ts[i].time == ts[j].time && ts[i].id <= ts[j].id)
    {
      assert le(ts[i], ts[j]);
    }
  }

  // The newest close is reported first, and every row is reported once.
  lemma ReportedNewestFirst(trades: seq<WireTrade>)
    ensures forall c :: c in RowsAfter(InTradeOrder(trades)) ==> c.size > 0.0
    ensures multiset(ClosedTradesOf(trades)) == multiset(Reports(RowsAfter(InTradeOrder(trades))))
    ensures var out := ClosedTradesOf(trades);
            forall i, j :: 0 <= i < j < |out| ==> out[i].time >= out[j].time
  {
    var ts := InTradeOrder(trades);
    RowsHaveSize(ts);
    var le := (a: ClosedTrade, b: ClosedTrade) => Newer(a, b);
    SortSorts(Reports(RowsAfter(ts)), le);
    var out := ClosedTradesOf(trades);
    forall i, j | 0 <= i < j < |out| ensures out[i].time >= out[j].time {
      assert le(out[i], out[j]);
    }
  }

  // ---- In and out again -----------------------------------------------

  // A position opened by one trade and closed whole by the next, at a profit or loss
  // that the venue gives as the move in price, times the size, on its side.
  predicate InAndOut(entry: WireTrade, exit: WireTrade, side: PositionSide) {
    && entry.symbol == exit.symbol && entry.qty == exit.qty && entry.qty > 0.0
    && entry.side == (if side == Long then "BUY" else "SELL")
    && exit.side == (if side == Long then "SELL" else "BUY")
    && entry.realizedPnl == 0.0 && exit.realizedPnl != 0.0
    && exit.realizedPnl == (if side == Long then exit.price - entry.price else entry.price - exit.price)
                             * exit.qty
    && (entry.time < exit.time || (entry.time == exit.time && entry.id < exit.id))
  }

  lemma InOrderAlready(entry: WireTrade, exit: WireTrade, trades: seq<WireTrade>)
    requires Earlier(entry, exit) && !Earlier(exit, entry)
    requires trades == [entry, exit] || trades == [exit, entry]
    ensures InTradeOrder(trades) == [entry, exit]
  {
    var le := (a: WireTrade, b: WireTrade) => Earlier(a, b);
    var first, second := trades[0], trades[1];
    assert trades[..1] == [first] && [first][..0] == [];
    assert Sort([first], le) == [first];
    assert [entry][1..] == [] && [exit][1..] == [];
    assert InTradeOrder(trades) == Insert(second, [first], le);
  }

  lemma OpenedHolds(entry: WireTrade)
    requires Counted(entry) && entry.realizedPnl == 0.0
    ensures PositionAfter([entry], entry.symbol)
            == Position(if entry.side == "BUY" then entry.qty else -entry.qty, entry.time as real * entry.qty)
    ensures RowsAfter([entry]) == []
  {
    assert [entry][..0] == [];
    assert Signed(entry) * entry.qty == if entry.side == "BUY" then entry.qty else -entry.qty;
  }

  lemma Averages(a: real, b: real, q: real)
    requires q > 0.0
    ensures b * q / q == b && (b - a) * q / q == b - a && a * q / q == a
  {
  }

  // What the second of them closes of the first.
  lemma ClosesAll(p: Position, entry: WireTrade, exit: WireTrade, side: PositionSide)
    requires InAndOut(entry, exit, side)
    requires p == Position(if side == Long then entry.qty else -entry.qty, entry.time as real * entry.qty)
    ensures Against(p.size, Signed(exit)) && ClosingPart(p, exit) == exit.qty
    ensures Follow(p, exit).size == 0.0
    ensures FeeShare(p, exit) == Abs(exit.commission) && OpenedAtOf(p) == Some(entry.time)
  {
    Averages(entry.time as real, Abs(exit.commission), exit.qty);
    RoundStaysBetween(entry.time as real, entry.time, entry.time);
    assert Abs(p.size) == exit.qty && p.timed / Abs(p.size) == entry.time as real;
  }

  lemma OneRow(entry: WireTrade, exit: WireTrade, side: PositionSide)
    requires InAndOut(entry, exit, side)
    ensures RowsAfter([entry, exit])
            == [Closing(exit.orderId, exit.symbol, side, exit.qty, exit.price * exit.qty,
                        exit.realizedPnl, Abs(exit.commission), exit.time, Some(entry.time))]
    ensures PositionAfter([entry, exit], exit.symbol).size == 0.0
  {
    hide Follow, ClosingPart, FeeShare, OpenedAtOf, Against;
    var ts := [entry, exit];
    assert ts[..1] == [entry];
    OpenedHolds(entry);
    var p := PositionAfter([entry], exit.symbol);
    ClosesAll(p, entry, exit, side);
    assert RowsAfter(ts) == Entered([], p, exit);
    assert PositionAfter(ts, exit.symbol) == Follow(p, exit);
    assert Entered([], p, exit) == [NewRow(p, exit)];
    assert NewRow(p, exit) == Closing(exit.orderId, exit.symbol, side, exit.qty, exit.price * exit.qty,
                                      exit.realizedPnl, Abs(exit.commission), exit.time, Some(entry.time));
  }

  lemma ReportIs(c: Closing, a: real, b: real)
    requires c.size > 0.0 && c.exitValue == b * c.size
    requires c.gross == (if c.side == Long then b - a else a - b) * c.size
    ensures Report(c) == ClosedTrade(c.market, c.side, c.size, a, b, c.gross - c.fees, a * c.size, c.time, c.openedAt)
  {
    Averages(a, b, c.size);
    Averages(b, a, c.size);
  }

  // Bought and sold again, or sold and bought back, and listed in either order: one
  // closed position, of that side and size, in at the one price and out at the
  // other, with the profit less the closing fee.
  lemma RoundTripIsReported(entry: WireTrade, exit: WireTrade, side: PositionSide, trades: seq<WireTrade>)
    requires InAndOut(entry, exit, side)
    requires trades == [entry, exit] || trades == [exit, entry]
    ensures ClosedTradesOf(trades)
            == [ClosedTrade(entry.symbol, side, entry.qty, entry.price, exit.price,
                            exit.realizedPnl - Abs(exit.commission), entry.price * entry.qty,
                            exit.time, Some(entry.time))]
  {
    hide RowsAfter, Report, InTradeOrder, PositionAfter;
    InOrderAlready(entry, exit, trades);
    OneRow(entry, exit, side);
    RowsHaveSize([entry, exit]);
    var rows := RowsAfter([entry, exit]);
    ReportIs(rows[0], entry.price, exit.price);
    OneReport(rows);
    var report := ClosedTrade(entry.symbol, side, entry.qty, entry.price, exit.price,
                              exit.realizedPnl - Abs(exit.commission), entry.price * entry.qty, exit.time,
                              Some(entry.time));
    assert Report(rows[0]) == report;
    assert ClosedTradesOf(trades) == [report];
  }

  lemma OneReport(rows: seq<Closing>)
    requires |rows| == 1 && rows[0].size > 0.0
    ensures forall le: (ClosedTrade, ClosedTrade) -> bool :: Sort(Reports(rows), le) == [Report(rows[0])]
  {
    hide Report;
    var reports := Reports(rows);
    assert |reports| == 1 && reports[..0] == [];
  }

  // Adding to a position weighs the times it was opened at by how much was opened
  // then: the average of what was held, and of what is new.
  lemma AddingAverages(p: Position, t: WireTrade)
    requires Counted(t) && t.realizedPnl == 0.0 && OpensMore(p.size, t)
    ensures var q := Follow(p, t);
            && Abs(q.size) == Abs(p.size) + t.qty
            && q.timed / Abs(q.size) * Abs(q.size)
               == (if p.size == 0.0 then p.timed else p.timed / Abs(p.size) * Abs(p.size)) + t.time as real * t.qty
  {
    hide Added;
    var q := Follow(p, t);
    AddedIs(p, t);
    if p.size != 0.0 {
      Divided(p.timed, Abs(p.size));
    }
    Divided(q.timed, Abs(q.size));
  }

  // Nothing held, or the same side.
  predicate OpensMore(size: real, t: WireTrade) {
    if t.side == "BUY" then size >= 0.0 else size <= 0.0
  }

  lemma AddedIs(p: Position, t: WireTrade)
    requires Counted(t) && OpensMore(p.size, t)
    ensures var q := Added(p, Signed(t), t.qty, t.time);
            Abs(q.size) == Abs(p.size) + t.qty && q.timed == p.timed + t.time as real * t.qty
  {
    assert Signed(t) * t.qty == if t.side == "BUY" then t.qty else -t.qty;
  }

  lemma Divided(a: real, b: real)
    requires b > 0.0
    ensures a / b * b == a
  {
  }

  // A fee is shared out by quantity, and all of it is.
  lemma FeeIsShared(t: WireTrade, closing: real)
    requires t.qty > 0.0
    ensures FeeFor(t, closing) + FeeFor(t, t.qty - closing) == Abs(t.commission)
    ensures FeeFor(t, closing) * t.qty == Abs(t.commission) * closing
  {
    var fee := Abs(t.commission);
    assert fee * closing / t.qty * t.qty == fee * closing;
    assert fee * (t.qty - closing) == fee * t.qty - fee * closing;
    assert fee * t.qty / t.qty == fee;
  }
}
