// Closed positions rebuilt from an account's trades (Binance and Aster).
module ClosedTrades {
  import opened Basics
  import opened Ordering

  // A trade as the venue lists it. It doesn't say whether it opened or closed.
  datatype WireTrade = WireTrade(
    symbol: string, id: nat, orderId: nat, side: string, price: real, qty: real,
    realizedPnl: real, commission: real, time: nat)

  // To the nearest whole number, halves to the even one.
  function Round(r: real): (n: int)
    ensures -0.5 <= n as real - r <= 0.5
    ensures n as real - r == 0.5 || r - n as real == 0.5 ==> n % 2 == 0
  {
    var down := r.Floor;
    var part := r - down as real;
    if part < 0.5 then down
    else if part > 0.5 then down + 1
    else if down % 2 == 0 then down else down + 1
  }

  // A rounded value stays between the whole numbers around it.
  lemma RoundStaysBetween(r: real, a: int, b: int)
    requires a as real <= r <= b as real
    ensures a <= Round(r) <= b
  {
  }

  // ---- What the trades have left open ---------------------------------

  // How much is held, below zero for a short, and the times it was opened at
  // weighted by how much of it was opened then.
  datatype Position = Position(size: real, timed: real)

  const NOTHING := Position(0.0, 0.0)

  function OpenedAtOf(p: Position): Option<nat> {
    if p.size == 0.0 then None
    else
      var t := Round(p.timed / Abs(p.size));
      if t < 0 then None else Some(t)
  }

  function Reduced(p: Position, qty: real): Position {
    var held := Abs(p.size);
    var left := held - Min(qty, held);
    Position(if p.size < 0.0 then -left else left,
             if held == 0.0 then 0.0 else p.timed / held * left)
  }

  function Added(p: Position, signed: real, qty: real, time: nat): Position {
    Position(p.size + signed * qty, p.timed + time as real * qty)
  }

  class Held {
    var size: real
    var timed: real

    function Value(): Position
      reads this
    {
      Position(size, timed)
    }

    constructor ()
      ensures Value() == NOTHING
    {
      size, timed := 0.0, 0.0;
    }

    // The average opening time, to the nearest whole one.
    function OpenedAt(): (r: Option<nat>)
      reads this
      ensures r.Some? ==> size != 0.0 && -0.5 <= r.value as real - timed / Abs(size) <= 0.5
      ensures size != 0.0 && timed >= 0.0 ==> r.Some?
    {
      OpenedAtOf(Value())
    }

    // Some or all of it closed: the rest is as old as before.
    method Reduce(qty: real)
      modifies this
      ensures Value() == Reduced(old(Value()), qty)
    {
      var held := Abs(size);
      var left := held - Min(qty, held);
      timed := if held == 0.0 then 0.0 else timed / held * left;
      size := if size < 0.0 then -left else left;
    }

    // An opening, long or short.
    method Add(signed: real, qty: real, time: nat)
      modifies this
      ensures Value() == Added(old(Value()), signed, qty, time)
    {
      size := size + signed * qty;
      timed := timed + time as real * qty;
    }

    method Clear()
      modifies this
      ensures Value() == NOTHING
    {
      size, timed := 0.0, 0.0;
    }
  }

  // ---- One trade ------------------------------------------------------

  function Signed(t: WireTrade): real { if t.side == "BUY" then 1.0 else -1.0 }

  // A trade with no quantity, or on no side, is passed over.
  predicate Counted(t: WireTrade) { t.qty > 0.0 && (t.side == "BUY" || t.side == "SELL") }

  predicate IsClose(t: WireTrade) { Counted(t) && t.realizedPnl != 0.0 }

  predicate Against(size: real, signed: real) { size != 0.0 && (size < 0.0) != (signed < 0.0) }

  // What the trade takes off the position, and what it opens past it.
  function ClosingPart(p: Position, t: WireTrade): real {
    if Against(p.size, Signed(t)) then Min(t.qty, Abs(p.size))
    else if t.realizedPnl == 0.0 then 0.0 else t.qty
  }

  function OpeningPart(p: Position, t: WireTrade): real { t.qty - ClosingPart(p, t) }

  // A close of nothing the trades so far show.
  predicate Unmatched(p: Position, t: WireTrade) {
    t.realizedPnl != 0.0 && !Against(p.size, Signed(t))
  }

  function Follow(p: Position, t: WireTrade): Position {
    if Unmatched(p, t) then NOTHING
    else if Against(p.size, Signed(t)) then
      var rest := Reduced(p, ClosingPart(p, t));
      if OpeningPart(p, t) > 0.0 then Added(rest, Signed(t), OpeningPart(p, t), t.time) else rest
    else Added(p, Signed(t), t.qty, t.time)
  }

  // A market's position after the trades so far.
  function PositionAfter(ts: seq<WireTrade>, symbol: string): Position {
    if ts == [] then NOTHING
    else
      var p := PositionAfter(ts[..|ts| - 1], symbol);
      var t := ts[|ts| - 1];
      if Counted(t) && t.symbol == symbol then Follow(p, t) else p
  }

  // ---- One row for each order -----------------------------------------

  datatype Closing = Closing(
    orderId: nat, market: string, side: PositionSide, size: real, exitValue: real,
    gross: real, fees: real, time: nat, openedAt: Option<nat>)

  // A fee is split as the quantity is, between closing and opening.
  function FeeFor(t: WireTrade, closing: real): real
    requires t.qty != 0.0
  {
    Abs(t.commission) * closing / t.qty
  }

  function FeeShare(p: Position, t: WireTrade): real
    requires t.qty != 0.0
  {
    FeeFor(t, ClosingPart(p, t))
  }

  predicate IsFor(c: Closing, t: WireTrade) { c.orderId == t.orderId && c.market == t.symbol }

  // The row is for the side the trade was against.
  function NewRow(p: Position, t: WireTrade): Closing
    requires Counted(t)
  {
    var closing := ClosingPart(p, t);
    Closing(t.orderId, t.symbol, if Signed(t) < 0.0 then Long else Short, closing,
            t.price * closing, t.realizedPnl, FeeShare(p, t), t.time,
            if Unmatched(p, t) then None else OpenedAtOf(p))
  }

  function Joined(c: Closing, p: Position, t: WireTrade): Closing
    requires Counted(t)
  {
    var closing := ClosingPart(p, t);
    c.(size := c.size + closing, exitValue := c.exitValue + t.price * closing,
       gross := c.gross + t.realizedPnl, fees := c.fees + FeeShare(p, t), time := t.time)
  }

  // The row of the trade's order, or the end.
  function RowOf(rows: seq<Closing>, t: WireTrade): (i: nat)
    ensures i <= |rows|
    ensures i < |rows| ==> IsFor(rows[i], t)
    ensures forall j :: 0 <= j < i ==> !IsFor(rows[j], t)
  {
    if rows == [] || IsFor(rows[0], t) then 0 else 1 + RowOf(rows[1..], t)
  }

  function Entered(rows: seq<Closing>, p: Position, t: WireTrade): seq<Closing>
    requires Counted(t)
  {
    var i := RowOf(rows, t);
    if i < |rows| then rows[i := Joined(rows[i], p, t)] else rows + [NewRow(p, t)]
  }

  // The rows after the trades so far.
  function RowsAfter(ts: seq<WireTrade>): seq<Closing> {
    if ts == [] then []
    else
      var n := |ts| - 1;
      var rows := RowsAfter(ts[..n]);
      if IsClose(ts[n]) then Entered(rows, PositionAfter(ts[..n], ts[n].symbol), ts[n]) else rows
  }

  // ---- The closed trades ----------------------------------------------

  // As reported, before figures are rounded to eight places.
  datatype ClosedTrade = ClosedTrade(
    market: string, side: PositionSide, size: real, entryPrice: real, exitPrice: real,
    closedPnl: real, entryValue: real, time: nat, openedAt: Option<nat>)

  function Report(c: Closing): ClosedTrade
    requires c.size != 0.0
  {
    var exit := c.exitValue / c.size;
    var entry := if c.side == Long then exit - c.gross / c.size else exit + c.gross / c.size;
    ClosedTrade(c.market, c.side, c.size, entry, exit, c.gross - c.fees, entry * c.size,
                c.time, c.openedAt)
  }

  predicate Earlier(a: WireTrade, b: WireTrade) {
    a.time < b.time || (a.time == b.time && a.id <= b.id)
  }

  predicate Newer(a: ClosedTrade, b: ClosedTrade) { a.time >= b.time }

  function InTradeOrder(trades: seq<WireTrade>): seq<WireTrade> {
    Sort(trades, (a, b) => Earlier(a, b))
  }

  // No row is ever without size, so no average divides by zero.
  lemma {:induction false} RowsHaveSize(ts: seq<WireTrade>)
    ensures forall c :: c in RowsAfter(ts) ==> c.size > 0.0
  {
    if ts != [] {
      RowsHaveSize(ts[..|ts| - 1]);
    }
  }

  function Reports(rows: seq<Closing>): seq<ClosedTrade>
    requires forall c :: c in rows ==> c.size > 0.0
  {
    seq(|rows|, i requires 0 <= i < |rows| => assert rows[i] in rows; Report(rows[i]))
  }

  function ClosedTradesOf(trades: seq<WireTrade>): seq<ClosedTrade> {
    var ts := InTradeOrder(trades);
    RowsHaveSize(ts);
    Sort(Reports(RowsAfter(ts)), (a, b) => Newer(a, b))
  }

  // The positions a loop has built are those the trades so far leave.
  ghost predicate Tracks(held: map<string, Held>, ts: seq<WireTrade>)
    reads held.Values
  {
    && (forall s :: s in held ==> held[s].Value() == PositionAfter(ts, s))
    && (forall s :: s !in held ==> PositionAfter(ts, s) == NOTHING)
  }

  ghost predicate Separate(held: map<string, Held>) {
    forall a, b :: a in held && b in held && a != b ==> held[a] != held[b]
  }

  // Takes one trade into its market's position, and says what it closed.
  method Take(position: Held, t: WireTrade) returns (openedAt: Option<nat>, closing: real)
    requires Counted(t)
    modifies position
    ensures position.Value() == Follow(old(position.Value()), t)
    ensures closing == ClosingPart(old(position.Value()), t)
    ensures t.realizedPnl != 0.0 ==>
      openedAt == if Unmatched(old(position.Value()), t) then None else OpenedAtOf(old(position.Value()))
  {
    var signed := Signed(t);
    var against := position.size != 0.0 && (position.size < 0.0) != (signed < 0.0);
    openedAt, closing := None, 0.0;
    if t.realizedPnl == 0.0 {
      if against {
        closing := Min(t.qty, Abs(position.size));
        position.Reduce(closing);
        if t.qty > closing {
          position.Add(signed, t.qty - closing, t.time);
        }
      } else {
        position.Add(signed, t.qty, t.time);
      }
    } else if against {
      openedAt := position.OpenedAt();
      closing := Min(t.qty, Abs(position.size));
      position.Reduce(closing);
      if t.qty > closing {
        position.Add(signed, t.qty - closing, t.time);
      }
    } else {
      position.Clear();
      closing := t.qty;
    }
  }

  // Adds what a closing trade closed to its order's row, or starts one.
  method Enter(rows: seq<Closing>, ghost p: Position, t: WireTrade, openedAt: Option<nat>, closing: real)
    returns (after: seq<Closing>)
    requires Counted(t) && closing == ClosingPart(p, t)
    requires openedAt == if Unmatched(p, t) then None else OpenedAtOf(p)
    ensures after == Entered(rows, p, t)
    ensures |after| > |rows| ==> after[|rows|].side == if t.side == "SELL" then Long else Short
  {
    var side := if Signed(t) < 0.0 then Long else Short;
    var fee := FeeFor(t, closing);
    var i := RowOf(rows, t);
    if i < |rows| {
      var c := rows[i];
      c := c.(size := c.size + closing);
      c := c.(exitValue := c.exitValue + t.price * closing);
      c := c.(gross := c.gross + t.realizedPnl);
      c := c.(fees := c.fees + fee);
      c := c.(time := t.time);
      assert c == Joined(rows[i], p, t);
      after := rows[i := c];
    } else {
      after := rows + [Closing(t.orderId, t.symbol, side, closing, t.price * closing,
                               t.realizedPnl, fee, t.time, openedAt)];
      assert after[i] == NewRow(p, t);
    }
  }

  // The account's closed positions, newest first.
  method FromTrades(trades: seq<WireTrade>) returns (out: seq<ClosedTrade>)
    ensures out == ClosedTradesOf(trades)
  {
    hide Entered, Follow, ClosingPart, OpenedAtOf, Report, InTradeOrder;
    var ts := InTradeOrder(trades);
    var byOrder: seq<Closing> := [];
    var held: map<string, Held> := map[];
    for i := 0 to |ts|
      invariant Separate(held)
      invariant forall s :: s in held ==> fresh(held[s])
      invariant Tracks(held, ts[..i])
      invariant byOrder == RowsAfter(ts[..i])
    {
      var t := ts[i];
      assert ts[..i + 1][..i] == ts[..i] && ts[..i + 1][i] == t;
      if Counted(t) {
        if t.symbol !in held {
          var none := new Held();
          held := held[t.symbol := none];
        }
        var position := held[t.symbol];
        ghost var p := position.Value();
        assert p == PositionAfter(ts[..i], t.symbol);
        var openedAt, closing := Take(position, t);
        if t.realizedPnl != 0.0 {
          byOrder := Enter(byOrder, p, t, openedAt, closing);
        }
      }
    }
    assert ts[..|ts|] == ts;
    RowsHaveSize(ts);
    out := Sort(Reports(byOrder), (a, b) => Newer(a, b));
  }
}
