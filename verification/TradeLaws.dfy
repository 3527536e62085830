// What the rebuilt closed trades keep: sizes, money and opening times.
module TradeLaws {
  import opened Basics
  import opened Ordering
  import opened ClosedTrades

  // ---- Sizes ----------------------------------------------------------

  // A market's signed size, counted without splitting any trade: the sum of
  // its quantities since its last unmatched close.
  function Net(ts: seq<WireTrade>, symbol: string): real {
    if ts == [] then 0.0
    else
      var n := Net(ts[..|ts| - 1], symbol);
      var t := ts[|ts| - 1];
      if !Counted(t) || t.symbol != symbol then n
      else if t.realizedPnl != 0.0 && !Against(n, Signed(t)) then 0.0
      else n + Signed(t) * t.qty
  }

  // Each trade splits exactly into what it closes and what it opens, and the
  // two between them move the position by the whole of it.
  lemma TradeSplits(p: Position, t: WireTrade)
    requires Counted(t)
    ensures ClosingPart(p, t) + OpeningPart(p, t) == t.qty
    ensures 0.0 <= ClosingPart(p, t) <= t.qty
    ensures t.realizedPnl != 0.0 ==> ClosingPart(p, t) > 0.0
    ensures Against(p.size, Signed(t)) ==> ClosingPart(p, t) <= Abs(p.size)
    ensures Follow(p, t).size == if Unmatched(p, t) then 0.0 else p.size + Signed(t) * t.qty
    ensures !Unmatched(p, t) ==>
      Abs(Follow(p, t).size) == Abs(p.size) - ClosingPart(p, t) + OpeningPart(p, t)
  {
  }

  lemma {:induction false} PositionIsNet(ts: seq<WireTrade>, symbol: string)
    ensures PositionAfter(ts, symbol).size == Net(ts, symbol)
  {
    if ts != [] {
      var n := |ts| - 1;
      PositionIsNet(ts[..n], symbol);
      if Counted(ts[n]) && ts[n].symbol == symbol {
        TradeSplits(PositionAfter(ts[..n], symbol), ts[n]);
      }
    }
  }

  // ---- Sums of money --------------------------------------------------

  datatype Totals = Totals(size: real, exitValue: real, gross: real, fees: real)

  function Plus(a: Totals, b: Totals): Totals {
    Totals(a.size + b.size, a.exitValue + b.exitValue, a.gross + b.gross, a.fees + b.fees)
  }

  const NONE := Totals(0.0, 0.0, 0.0, 0.0)

  // What one trade adds to its order's row: its closing part, at its price, all
  // its realised P&L and that part's share of its fee - nothing if it realised
  // no P&L, though it may have closed at break-even.
  function Share(ts: seq<WireTrade>, i: nat): Totals
    requires i < |ts|
  {
    if !IsClose(ts[i]) then NONE
    else
      var p := PositionAfter(ts[..i], ts[i].symbol);
      var closing := ClosingPart(p, ts[i]);
      Totals(closing, ts[i].price * closing, ts[i].realizedPnl, FeeShare(p, ts[i]))
  }

  // The trades of one order on one market.
  function SharesOf(ts: seq<WireTrade>, orderId: nat, market: string, n: nat): Totals
    requires n <= |ts|
  {
    if n == 0 then NONE
    else
      var before := SharesOf(ts, orderId, market, n - 1);
      if ts[n - 1].orderId == orderId && ts[n - 1].symbol == market
      then Plus(before, Share(ts, n - 1)) else before
  }

  function AllShares(ts: seq<WireTrade>, n: nat): Totals
    requires n <= |ts|
  {
    if n == 0 then NONE else Plus(AllShares(ts, n - 1), Share(ts, n - 1))
  }

  function RowTotals(c: Closing): Totals { Totals(c.size, c.exitValue, c.gross, c.fees) }

  predicate Closes(t: WireTrade, orderId: nat, market: string) {
    IsClose(t) && t.orderId == orderId && t.symbol == market
  }

  // Whether the first `n` trades hold a close of that order there.
  predicate HasClose(ts: seq<WireTrade>, orderId: nat, market: string, n: nat)
    requires n <= |ts|
  {
    n > 0 && (Closes(ts[n - 1], orderId, market) || HasClose(ts, orderId, market, n - 1))
  }

  lemma {:induction false} NoSharesWithoutAClose(ts: seq<WireTrade>, orderId: nat, market: string, n: nat)
    requires n <= |ts| && !HasClose(ts, orderId, market, n)
    ensures SharesOf(ts, orderId, market, n) == NONE
  {
    if n > 0 {
      NoSharesWithoutAClose(ts, orderId, market, n - 1);
    }
  }

  predicate IsRow(c: Closing, orderId: nat, market: string) { c.orderId == orderId && c.market == market }

  predicate HasRow(rows: seq<Closing>, orderId: nat, market: string) {
    exists i :: 0 <= i < |rows| && IsRow(rows[i], orderId, market)
  }

  predicate OneRowEach(rows: seq<Closing>) {
    forall i, j :: 0 <= i < j < |rows| ==> !IsRow(rows[j], rows[i].orderId, rows[i].market)
  }

  predicate RowsSum(rows: seq<Closing>, ts: seq<WireTrade>, n: nat)
    requires n <= |ts|
  {
    forall i :: 0 <= i < |rows| ==>
      RowTotals(rows[i]) == SharesOf(ts, rows[i].orderId, rows[i].market, n)
  }

  lemma EnteredRows(rows: seq<Closing>, p: Position, t: WireTrade, orderId: nat, market: string)
    requires Counted(t)
    ensures HasRow(Entered(rows, p, t), orderId, market)
            <==> HasRow(rows, orderId, market) || (orderId == t.orderId && market == t.symbol)
    ensures OneRowEach(rows) ==> OneRowEach(Entered(rows, p, t))
  {
    var after, at := Entered(rows, p, t), RowOf(rows, t);
    assert IsRow(after[at], t.orderId, t.symbol);
    assert forall i :: 0 <= i < |rows| ==>
      after[i].orderId == rows[i].orderId && after[i].market == rows[i].market;
    if HasRow(rows, orderId, market) {
      var i :| 0 <= i < |rows| && IsRow(rows[i], orderId, market);
      assert IsRow(after[i], orderId, market);
    }
  }

  // Whatever it joins, a close adds its own share and no more.
  lemma CloseAddsItsShare(c: Closing, ts: seq<WireTrade>, n: nat)
    requires n < |ts| && IsClose(ts[n])
    ensures var p := PositionAfter(ts[..n], ts[n].symbol);
            && RowTotals(Joined(c, p, ts[n])) == Plus(RowTotals(c), Share(ts, n))
            && RowTotals(NewRow(p, ts[n])) == Share(ts, n)
  {
    hide PositionAfter, ClosingPart, FeeFor;
  }

  lemma EnteredSum(rows: seq<Closing>, ts: seq<WireTrade>, n: nat, i: nat)
    requires n < |ts| && IsClose(ts[n]) && OneRowEach(rows) && RowsSum(rows, ts, n)
    requires HasRow(rows, ts[n].orderId, ts[n].symbol) || !HasClose(ts, ts[n].orderId, ts[n].symbol, n)
    requires i < |Entered(rows, PositionAfter(ts[..n], ts[n].symbol), ts[n])|
    ensures var after := Entered(rows, PositionAfter(ts[..n], ts[n].symbol), ts[n]);
            RowTotals(after[i]) == SharesOf(ts, after[i].orderId, after[i].market, n + 1)
  {
    hide PositionAfter, RowOf, NewRow, Joined, Share, RowTotals, HasClose;
    var t, at := ts[n], RowOf(rows, ts[n]);
    var p := PositionAfter(ts[..n], t.symbol);
    if i == at {
      if at < |rows| {
        CloseAddsItsShare(rows[at], ts, n);
        JoinedKeepsKey(rows[at], p, t);
      } else {
        assert forall j :: 0 <= j < |rows| ==> !IsFor(rows[j], t) && !IsRow(rows[j], t.orderId, t.symbol);
        NoSharesWithoutAClose(ts, t.orderId, t.symbol, n);
        CloseAddsItsShare(NewRow(p, t), ts, n);
        NewRowHasKey(p, t);
      }
    } else {
      assert i < |rows| && Entered(rows, p, t)[i] == rows[i];
      assert !IsRow(rows[i], t.orderId, t.symbol) by {
        assert at < |rows| ==> IsRow(rows[at], t.orderId, t.symbol);
        assert i < at ==> !IsFor(rows[i], t);
      }
    }
  }

  lemma JoinedKeepsKey(c: Closing, p: Position, t: WireTrade)
    requires Counted(t)
    ensures Joined(c, p, t).orderId == c.orderId && Joined(c, p, t).market == c.market
  {
  }

  lemma NewRowHasKey(p: Position, t: WireTrade)
    requires Counted(t)
    ensures NewRow(p, t).orderId == t.orderId && NewRow(p, t).market == t.symbol
  {
  }

  lemma EnteredSums(rows: seq<Closing>, ts: seq<WireTrade>, n: nat)
    requires n < |ts| && IsClose(ts[n]) && OneRowEach(rows) && RowsSum(rows, ts, n)
    requires HasRow(rows, ts[n].orderId, ts[n].symbol) || !HasClose(ts, ts[n].orderId, ts[n].symbol, n)
    ensures RowsSum(Entered(rows, PositionAfter(ts[..n], ts[n].symbol), ts[n]), ts, n + 1)
  {
    hide Entered, PositionAfter, RowTotals, HasClose, HasRow, OneRowEach;
    var after := Entered(rows, PositionAfter(ts[..n], ts[n].symbol), ts[n]);
    forall i | 0 <= i < |after|
      ensures RowTotals(after[i]) == SharesOf(ts, after[i].orderId, after[i].market, n + 1)
    {
      EnteredSum(rows, ts, n, i);
    }
  }

  lemma PassedOver(rows: seq<Closing>, ts: seq<WireTrade>, n: nat)
    requires n < |ts| && !IsClose(ts[n]) && RowsSum(rows, ts, n)
    ensures RowsSum(rows, ts, n + 1)
  {
    forall i | 0 <= i < |rows|
      ensures RowTotals(rows[i]) == SharesOf(ts, rows[i].orderId, rows[i].market, n + 1)
    {
    }
  }

  // Each order's row is the sum of what its trades with a P&L closed; every
  // order with such a trade has exactly one, and no other order has any.
  lemma {:induction false} RowsSumTheirTrades(ts: seq<WireTrade>, n: nat, orderId: nat, market: string)
    requires n <= |ts|
    ensures OneRowEach(RowsAfter(ts[..n]))
    ensures RowsSum(RowsAfter(ts[..n]), ts, n)
    ensures HasRow(RowsAfter(ts[..n]), orderId, market) <==> HasClose(ts, orderId, market, n)
  {
    if n > 0 {
      assert ts[..n][..n - 1] == ts[..n - 1] && ts[..n][n - 1] == ts[n - 1];
      var rows, t := RowsAfter(ts[..n - 1]), ts[n - 1];
      RowsSumTheirTrades(ts, n - 1, orderId, market);
      if IsClose(t) {
        RowsSumTheirTrades(ts, n - 1, t.orderId, t.symbol);
        EnteredRows(rows, PositionAfter(ts[..n - 1], t.symbol), t, orderId, market);
        EnteredSums(rows, ts, n - 1);
      } else {
        PassedOver(rows, ts, n - 1);
      }
    }
  }

  // ---- Money over the whole account -----------------------------------

  lemma SumOfChange(rows: seq<Closing>, i: nat, c: Closing, f: Closing -> real)
    requires i < |rows|
    ensures Sum(rows[i := c], f) == Sum(rows, f) - f(rows[i]) + f(c)
  {
    var left, right := rows[..i], rows[i + 1..];
    assert rows == left + [rows[i]] + right && rows[i := c] == left + [c] + right;
    SumOfAppend(left + [rows[i]], right, f);
    SumOfAppend(left + [c], right, f);
    SumOfAppend(left, [rows[i]], f);
    SumOfAppend(left, [c], f);
  }

  lemma EnteredTotal(rows: seq<Closing>, p: Position, t: WireTrade, f: Closing -> real)
    requires Counted(t)
    ensures var i := RowOf(rows, t);
            Sum(Entered(rows, p, t), f) == Sum(rows, f)
              + if i < |rows| then f(Joined(rows[i], p, t)) - f(rows[i]) else f(NewRow(p, t))
  {
    var i := RowOf(rows, t);
    if i < |rows| {
      SumOfChange(rows, i, Joined(rows[i], p, t), f);
    } else {
      SumOfAppend(rows, [NewRow(p, t)], f);
    }
  }

  // Nothing closed at a P&L is lost or counted twice: the rows' sizes add up to
  // its closing parts, and their money to the P&L less its fees.
  lemma {:induction false} RowsConserve(ts: seq<WireTrade>, n: nat)
    requires n <= |ts|
    ensures Sum(RowsAfter(ts[..n]), (c: Closing) => c.size) == AllShares(ts, n).size
    ensures Sum(RowsAfter(ts[..n]), (c: Closing) => c.gross - c.fees)
            == AllShares(ts, n).gross - AllShares(ts, n).fees
  {
    if n > 0 {
      RowsConserve(ts, n - 1);
      assert ts[..n][..n - 1] == ts[..n - 1] && ts[..n][n - 1] == ts[n - 1];
      var rows, t := RowsAfter(ts[..n - 1]), ts[n - 1];
      if IsClose(t) {
        var p := PositionAfter(ts[..n - 1], t.symbol);
        EnteredTotal(rows, p, t, (c: Closing) => c.size);
        EnteredTotal(rows, p, t, (c: Closing) => c.gross - c.fees);
      }
    }
  }

  // The price arithmetic of one row: its P&L before fees is what the move from
  // entry to exit made on its size, on its own side.
  lemma ReportBalances(c: Closing)
    requires c.size > 0.0
    ensures var r := Report(c);
            && (r.exitPrice - r.entryPrice) * r.size == (if c.side == Long then c.gross else -c.gross)
            && r.exitPrice * r.size == c.exitValue
            && r.entryValue == r.entryPrice * r.size
  {
    assert c.exitValue / c.size * c.size == c.exitValue;
    assert c.gross / c.size * c.size == c.gross;
  }

  function SizeOf(r: ClosedTrade): real { r.size }

  function PnlOf(r: ClosedTrade): real { r.closedPnl }

  lemma {:induction false} ReportsSum(rows: seq<Closing>)
    requires forall c :: c in rows ==> c.size > 0.0
    ensures Sum(Reports(rows), SizeOf) == Sum(rows, (c: Closing) => c.size)
    ensures Sum(Reports(rows), PnlOf)
            == Sum(rows, (c: Closing) => c.gross - c.fees)
  {
    if rows != [] {
      var n := |rows| - 1;
      assert rows[..n] + [rows[n]] == rows;
      ReportsSum(rows[..n]);
      assert Reports(rows)[..n] == Reports(rows[..n]);
    }
  }

  // For every list of trades: what the closed trades report, in size and in
  // money, is exactly what the trades with a P&L closed.
  lemma ClosedTradesConserve(trades: seq<WireTrade>)
    ensures var ts, out := InTradeOrder(trades), ClosedTradesOf(trades);
            && Sum(out, SizeOf) == AllShares(ts, |ts|).size
            && Sum(out, PnlOf)
               == AllShares(ts, |ts|).gross - AllShares(ts, |ts|).fees
  {
    var ts := InTradeOrder(trades);
    assert ts[..|ts|] == ts;
    RowsHaveSize(ts);
    RowsConserve(ts, |ts|);
    ReportsSum(RowsAfter(ts));
    var newer := (a: ClosedTrade, b: ClosedTrade) => Newer(a, b);
    SumOfSort(Reports(RowsAfter(ts)), newer, SizeOf);
    SumOfSort(Reports(RowsAfter(ts)), newer, PnlOf);
  }

  // ---- Closes at break-even -------------------------------------------

  // What one trade took off its market's position, whether at a P&L or not.
  function Closed(ts: seq<WireTrade>, i: nat): Totals
    requires i < |ts|
  {
    if !Counted(ts[i]) then NONE
    else
      var p := PositionAfter(ts[..i], ts[i].symbol);
      var closing := ClosingPart(p, ts[i]);
      Totals(closing, ts[i].price * closing, ts[i].realizedPnl, FeeShare(p, ts[i]))
  }

  function AllClosed(ts: seq<WireTrade>, n: nat): Totals
    requires n <= |ts|
  {
    if n == 0 then NONE else Plus(AllClosed(ts, n - 1), Closed(ts, n - 1))
  }

  // A trade against its position that realised nothing.
  predicate BreaksEven(ts: seq<WireTrade>, i: nat)
    requires i < |ts|
  {
    && Counted(ts[i]) && ts[i].realizedPnl == 0.0
    && Against(PositionAfter(ts[..i], ts[i].symbol).size, Signed(ts[i]))
  }

  lemma FeeIsOwed(t: WireTrade, closing: real)
    requires Counted(t) && closing > 0.0
    ensures FeeFor(t, closing) >= 0.0 && (FeeFor(t, closing) == 0.0 <==> t.commission == 0.0)
  {
    var fee := Abs(t.commission) * closing;
    assert fee >= 0.0 && (fee == 0.0 <==> t.commission == 0.0);
  }

  // One trade is left out of the rows exactly if it broke even.
  lemma LeftOutExactly(ts: seq<WireTrade>, i: nat)
    requires i < |ts|
    ensures Closed(ts, i).gross == Share(ts, i).gross
    ensures if BreaksEven(ts, i)
            then Share(ts, i) == NONE && Closed(ts, i).size > 0.0 && Closed(ts, i).fees >= 0.0
                 && (Closed(ts, i).fees == 0.0 <==> ts[i].commission == 0.0)
            else Closed(ts, i).size == Share(ts, i).size && Closed(ts, i).fees == Share(ts, i).fees
  {
    hide PositionAfter, FeeFor;
    var t := ts[i];
    var p := PositionAfter(ts[..i], t.symbol);
    if Counted(t) {
      TradeSplits(p, t);
      if BreaksEven(ts, i) {
        FeeIsOwed(t, ClosingPart(p, t));
      } else if !IsClose(t) {
        NoFee(t);
      }
    }
  }

  lemma NoFee(t: WireTrade)
    requires Counted(t)
    ensures FeeFor(t, 0.0) == 0.0
  {
  }

  // Over all the trades the rows hold every P&L, no more size than was closed
  // and no more fees than it cost: all of the size exactly if nothing broke
  // even, all of the fees exactly if nothing that broke even was charged one.
  lemma {:induction false} RowsLeaveOutBreakEven(ts: seq<WireTrade>, n: nat)
    requires n <= |ts|
    ensures AllShares(ts, n).gross == AllClosed(ts, n).gross
    ensures AllShares(ts, n).size <= AllClosed(ts, n).size
    ensures AllShares(ts, n).fees <= AllClosed(ts, n).fees
    ensures AllShares(ts, n).size == AllClosed(ts, n).size <==>
            forall i :: 0 <= i < n ==> !BreaksEven(ts, i)
    ensures AllShares(ts, n).fees == AllClosed(ts, n).fees <==>
            forall i :: 0 <= i < n && BreaksEven(ts, i) ==> ts[i].commission == 0.0
  {
    hide BreaksEven, Share, Closed;
    if n > 0 {
      RowsLeaveOutBreakEven(ts, n - 1);
      LeftOutExactly(ts, n - 1);
    }
  }

  // So of what is reported: its sizes fall short of what was closed exactly if
  // a trade broke even, and its money is over by the fees of those that did.
  lemma ReportedExactly(trades: seq<WireTrade>)
    ensures var ts, out := InTradeOrder(trades), ClosedTradesOf(trades);
            var size, pnl := Sum(out, SizeOf), Sum(out, PnlOf);
            var all := AllClosed(ts, |ts|);
            && size <= all.size && pnl >= all.gross - all.fees
            && (size == all.size <==> forall i :: 0 <= i < |ts| ==> !BreaksEven(ts, i))
            && (pnl == all.gross - all.fees <==>
                forall i :: 0 <= i < |ts| && BreaksEven(ts, i) ==> ts[i].commission == 0.0)
  {
    hide BreaksEven, AllClosed, AllShares, ClosedTradesOf;
    ClosedTradesConserve(trades);
    var ts := InTradeOrder(trades);
    RowsLeaveOutBreakEven(ts, |ts|);
  }

  lemma FirstBuyIsHeld(bought: WireTrade)
    requires bought.side == "BUY" && bought.qty == 1.0 && bought.realizedPnl == 0.0
    ensures PositionAfter([bought], bought.symbol).size == 1.0 && RowsAfter([bought]) == []
  {
    hide Round;
    assert [bought][..0] == [];
    assert PositionAfter([], bought.symbol) == NOTHING;
  }

  // Bought at a price and sold at it: a whole position closed, and no row.
  lemma BreakEvenWitness(bought: WireTrade, sold: WireTrade)
    requires bought.side == "BUY" && sold.side == "SELL" && bought.symbol == sold.symbol
    requires bought.qty == sold.qty == 1.0 && bought.price == sold.price == 100.0
    requires bought.realizedPnl == sold.realizedPnl == 0.0
    ensures var ts := [bought, sold];
            && RowsAfter(ts) == [] && AllShares(ts, 2).size == 0.0
            && BreaksEven(ts, 1) && AllClosed(ts, 2).size == 1.0
  {
    hide PositionAfter, FeeFor;
    var ts := [bought, sold];
    FirstBuyIsHeld(bought);
    assert ts[..1] == [bought];
    assert PositionAfter([], bought.symbol) == NOTHING by { NothingYet(bought.symbol); }
    assert ts[..0] == [];
    assert AllClosed(ts, 1) == Plus(AllClosed(ts, 0), Closed(ts, 0));
    assert AllShares(ts, 1) == Plus(AllShares(ts, 0), Share(ts, 0));
  }

  lemma NothingYet(symbol: string)
    ensures PositionAfter([], symbol) == NOTHING
  {
  }
}
