// When a closed position was opened: always a real average of the opening
// trades it still stands for.
module OpeningTimes {
  import opened Basics
  import opened Ordering
  import opened ClosedTrades
  import opened TradeLaws

  predicate SameSide(a: real, b: real) { (a > 0.0 && b > 0.0) || (a < 0.0 && b < 0.0) }

  // The trade that opened what a market holds now: the last to bring it from
  // nothing, or over to this side.
  function OpenedSince(ts: seq<WireTrade>, symbol: string): Option<nat> {
    if ts == [] then None
    else
      var n := |ts| - 1;
      var before, after := PositionAfter(ts[..n], symbol), PositionAfter(ts, symbol);
      if after.size == 0.0 then None
      else if SameSide(before.size, after.size) then OpenedSince(ts[..n], symbol)
      else Some(ts[n].time)
  }

  ghost predicate TimeOrdered(ts: seq<WireTrade>) {
    forall i, j :: 0 <= i < j < |ts| ==> ts[i].time <= ts[j].time
  }

  // An average opening time between two others.
  predicate Between(p: Position, lo: nat, hi: nat) {
    lo as real * Abs(p.size) <= p.timed <= hi as real * Abs(p.size)
  }

  // Taking some off keeps the average.
  lemma ReduceKeepsAverage(p: Position, qty: real)
    requires 0.0 <= qty < Abs(p.size)
    ensures var q := Reduced(p, qty);
            q.size != 0.0 && q.timed / Abs(q.size) == p.timed / Abs(p.size)
  {
    var held, left := Abs(p.size), Abs(p.size) - qty;
    assert p.timed / held * left / left == p.timed / held;
  }

  lemma Cancel(a: real, b: real, h: real)
    requires h > 0.0 && a * h <= b * h
    ensures a <= b
  {
    assert (b - a) * h >= 0.0;
  }

  lemma Times(a: real, b: real, h: real)
    requires h >= 0.0 && a <= b
    ensures a * h <= b * h
  {
  }

  lemma Scale(timed: real, held: real, left: real, t: real)
    requires held > 0.0 && left >= 0.0
    ensures t * held <= timed ==> t * left <= timed / held * left
    ensures timed <= t * held ==> timed / held * left <= t * left
  {
    var average := timed / held;
    assert average * held == timed;
    if t * held <= timed {
      Cancel(t, average, held);
      Times(t, average, left);
    }
    if timed <= t * held {
      Cancel(average, t, held);
      Times(average, t, left);
    }
  }

  lemma ReduceStaysBetween(p: Position, qty: real, lo: nat, hi: nat)
    requires 0.0 <= qty <= Abs(p.size) && p.size != 0.0 && Between(p, lo, hi)
    ensures Between(Reduced(p, qty), lo, hi)
  {
    var held, left := Abs(p.size), Abs(p.size) - qty;
    Scale(p.timed, held, left, lo as real);
    Scale(p.timed, held, left, hi as real);
  }

  lemma AddBounds(l: real, t: real, h: real, held: real, qty: real, timed: real)
    requires l * held <= timed <= h * held && l <= t <= h && qty >= 0.0
    ensures l * (held + qty) <= timed + t * qty <= h * (held + qty)
  {
    Times(l, t, qty);
    Times(t, h, qty);
    assert l * (held + qty) == l * held + l * qty;
    assert h * (held + qty) == h * held + h * qty;
  }

  lemma AddStaysBetween(p: Position, signed: real, qty: real, time: nat, lo: nat, hi: nat)
    requires (signed == 1.0 && p.size >= 0.0) || (signed == -1.0 && p.size <= 0.0)
    requires qty > 0.0 && Between(p, lo, hi) && lo <= time <= hi
    ensures Between(Added(p, signed, qty, time), lo, hi)
  {
    var q := Added(p, signed, qty, time);
    assert signed * qty == (if signed == 1.0 then qty else -qty);
    assert Abs(q.size) == Abs(p.size) + qty;
    AddBounds(lo as real, time as real, hi as real, Abs(p.size), qty, p.timed);
  }

  lemma WiderAbove(p: Position, lo: nat, hi: nat, later: nat)
    requires Between(p, lo, hi) && hi <= later
    ensures Between(p, lo, later)
  {
    assert hi as real * Abs(p.size) <= later as real * Abs(p.size);
  }

  // One trade keeps the average between the trade that opened the position and
  // the trade itself.
  lemma FollowStaysBetween(p: Position, t: WireTrade, since: Option<nat>)
    requires Counted(t)
    requires p.size != 0.0 ==> since.Some? && since.value <= t.time && Between(p, since.value, t.time)
    requires p.size == 0.0 ==> p.timed == 0.0
    ensures var q := Follow(p, t);
            && (q.size == 0.0 ==> q.timed == 0.0)
            && (q.size != 0.0 ==>
                  var lo := if SameSide(p.size, q.size) then since.value else t.time;
                  Between(q, lo, t.time))
  {
    var signed := Signed(t);
    var lo := if p.size == 0.0 then t.time else since.value;
    TradeSplits(p, t);
    if Unmatched(p, t) {
    } else if Against(p.size, signed) {
      var closing := ClosingPart(p, t);
      var rest := Reduced(p, closing);
      ReduceStaysBetween(p, closing, lo, t.time);
      if OpeningPart(p, t) > 0.0 {
        assert rest.size == 0.0 && rest.timed == 0.0;
        AddStaysBetween(rest, signed, OpeningPart(p, t), t.time, t.time, t.time);
      }
    } else {
      AddStaysBetween(p, signed, t.qty, t.time, lo, t.time);
    }
  }

  lemma {:induction false} AverageIsReal(ts: seq<WireTrade>, symbol: string)
    requires TimeOrdered(ts) && ts != []
    ensures var p, since := PositionAfter(ts, symbol), OpenedSince(ts, symbol);
            && (p.size == 0.0 ==> p.timed == 0.0)
            && (p.size != 0.0 ==> since.Some? && since.value <= ts[|ts| - 1].time
                                  && Between(p, since.value, ts[|ts| - 1].time))
  {
    var n := |ts| - 1;
    var t := ts[n];
    var p, since := PositionAfter(ts[..n], symbol), OpenedSince(ts[..n], symbol);
    if n > 0 {
      AverageIsReal(ts[..n], symbol);
      assert ts[n - 1].time <= t.time;
      if p.size != 0.0 {
        WiderAbove(p, since.value, ts[n - 1].time, t.time);
      }
    }
    if Counted(t) && t.symbol == symbol {
      FollowStaysBetween(p, t, since);
    }
  }

  // With times after the epoch, nothing is timed exactly when nothing is held.
  lemma TimedIsHeld(ts: seq<WireTrade>, symbol: string)
    requires TimeOrdered(ts) && forall i :: 0 <= i < |ts| ==> ts[i].time > 0
    ensures PositionAfter(ts, symbol).timed == 0.0 <==> PositionAfter(ts, symbol).size == 0.0
  {
    hide TimeOrdered, PositionAfter, OpenedSince;
    if ts == [] {
      NothingYet(symbol);
    } else {
      AverageIsReal(ts, symbol);
      var p, since := PositionAfter(ts, symbol), OpenedSince(ts, symbol);
      if p.size != 0.0 {
        SinceIsATrade(ts, symbol);
        assert since.value as real * Abs(p.size) >= 1.0 * Abs(p.size);
      }
    }
  }

  lemma {:induction false} SinceIsATrade(ts: seq<WireTrade>, symbol: string)
    requires OpenedSince(ts, symbol).Some?
    ensures exists i :: 0 <= i < |ts| && ts[i].time == OpenedSince(ts, symbol).value
                        && Counted(ts[i]) && ts[i].symbol == symbol
  {
    var n := |ts| - 1;
    var before, after := PositionAfter(ts[..n], symbol), PositionAfter(ts, symbol);
    if SameSide(before.size, after.size) {
      SinceIsATrade(ts[..n], symbol);
      var i :| 0 <= i < n && ts[..n][i].time == OpenedSince(ts, symbol).value
               && Counted(ts[..n][i]) && ts[..n][i].symbol == symbol;
      assert ts[i] == ts[..n][i];
    } else {
      assert Counted(ts[n]) && ts[n].symbol == symbol;
    }
  }

  // The opening time reported for a closing trade, rounding and flips and all,
  // lies between the trade that opened the position and the close itself.
  lemma OpeningTimeIsBetween(ts: seq<WireTrade>, n: nat)
    requires TimeOrdered(ts) && n < |ts| && IsClose(ts[n])
    ensures var p := PositionAfter(ts[..n], ts[n].symbol);
            var row := NewRow(p, ts[n]);
            (row.openedAt.Some? <==> Against(p.size, Signed(ts[n]))) &&
            (row.openedAt.Some? ==>
               var since := OpenedSince(ts[..n], ts[n].symbol);
               since.Some? && since.value <= row.openedAt.value <= ts[n].time)
  {
    var p, t := PositionAfter(ts[..n], ts[n].symbol), ts[n];
    if Against(p.size, Signed(t)) {
      AverageIsReal(ts[..n], t.symbol);
      assert ts[n - 1].time <= t.time;
      var since := OpenedSince(ts[..n], t.symbol).value;
      WiderAbove(p, since, ts[n - 1].time, t.time);
      AverageBetween(p, since, t.time);
      RoundStaysBetween(p.timed / Abs(p.size), since, t.time);
    }
  }

  lemma AverageBetween(p: Position, lo: nat, hi: nat)
    requires p.size != 0.0 && Between(p, lo, hi)
    ensures lo as real <= p.timed / Abs(p.size) <= hi as real
  {
    var held := Abs(p.size);
    var average := p.timed / held;
    assert average * held == p.timed;
    Cancel(lo as real, average, held);
    Cancel(average, hi as real, held);
  }

  lemma TradesAreTimeOrdered(trades: seq<WireTrade>)
    ensures TimeOrdered(InTradeOrder(trades))
    ensures multiset(InTradeOrder(trades)) == multiset(trades)
  {
    var le := (a: WireTrade, b: WireTrade) => Earlier(a, b);
    SortSorts(trades, le);
    var ts := InTradeOrder(trades);
    forall i, j | 0 <= i < j < |ts| ensures ts[i].time <= ts[j].time {
      assert le(ts[i], ts[j]);
    }
  }

  // The close that started a row: the first of its order there.
  ghost predicate Started(ts: seq<WireTrade>, n: nat, c: Closing, k: nat)
    requires n <= |ts|
  {
    && k < n && Closes(ts[k], c.orderId, c.market)
    && !HasClose(ts, c.orderId, c.market, k)
    && c.openedAt == NewRow(PositionAfter(ts[..k], c.market), ts[k]).openedAt
    && (c.side == Long <==> ts[k].side == "SELL")
    && ts[k].time <= c.time <= ts[n - 1].time
  }

  lemma {:induction false} RowsStart(ts: seq<WireTrade>, n: nat, i: nat)
    requires TimeOrdered(ts) && n <= |ts| && i < |RowsAfter(ts[..n])|
    ensures exists k: nat :: Started(ts, n, RowsAfter(ts[..n])[i], k)
  {
    assert ts[..n][..n - 1] == ts[..n - 1] && ts[..n][n - 1] == ts[n - 1];
    var rows, t := RowsAfter(ts[..n - 1]), ts[n - 1];
    var after := RowsAfter(ts[..n]);
    if i < |rows| {
      RowsStart(ts, n - 1, i);
      var k: nat :| Started(ts, n - 1, rows[i], k);
      assert ts[n - 2].time <= ts[n - 1].time;
      assert Started(ts, n, after[i], k);
    } else {
      RowsSumTheirTrades(ts, n - 1, t.orderId, t.symbol);
      assert RowOf(rows, t) == |rows|;
      assert forall j :: 0 <= j < |rows| ==> !IsFor(rows[j], t) && !IsRow(rows[j], t.orderId, t.symbol);
      assert !HasRow(rows, t.orderId, t.symbol);
      assert Started(ts, n, after[i], n - 1);
    }
  }

  // Every row's opening time: there is one exactly where the close that started
  // the row was against a position the trades show, and it lies between the
  // trade that opened that position and that close.
  lemma RowOpenedBetween(trades: seq<WireTrade>, i: nat)
    requires i < |RowsAfter(InTradeOrder(trades))|
    ensures var ts := InTradeOrder(trades);
            var c := RowsAfter(ts)[i];
            exists k: nat :: Started(ts, |ts|, c, k)
              && (c.openedAt.Some? <==> Against(PositionAfter(ts[..k], c.market).size, Signed(ts[k])))
              && (c.openedAt.Some? ==>
                    var since := OpenedSince(ts[..k], c.market);
                    since.Some? && since.value <= c.openedAt.value <= ts[k].time)
  {
    var ts := InTradeOrder(trades);
    TradesAreTimeOrdered(trades);
    assert ts[..|ts|] == ts;
    RowsStart(ts, |ts|, i);
    var c := RowsAfter(ts)[i];
    var k: nat :| Started(ts, |ts|, c, k);
    OpeningTimeIsBetween(ts, k);
  }
}
