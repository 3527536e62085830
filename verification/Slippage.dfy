// The limit price a market order is sent with: slipped, on the tick grid, and
// inside the venue's band (Binance; Aster has no band).
module Slippage {
  import opened Basics

  // The band is how far below and above the mark a price may be, as factors.
  datatype Band = Band(down: real, up: real)
  datatype Grid = Grid(tick: real, band: Option<Band>)

  const MAX_SLIPPAGE_BPS := 1000

  function Ceil(r: real): int { if r == r.Floor as real then r.Floor else r.Floor + 1 }

  // To the grid, towards the taker's good.
  function Snap(raw: real, side: Side, tick: real): real
    requires tick > 0.0
  {
    var steps := raw / tick;
    (if side == Buy then steps.Floor else Ceil(steps)) as real * tick
  }

  // The price moved against the taker, before it is put on the grid.
  function Slipped(price: real, bps: nat, side: Side): real {
    var factor := bps as real / 10000.0;
    if side == Buy then price * (1.0 + factor) else price * (1.0 - factor)
  }

  // Aster's bound: slipped and snapped.
  function AsterBound(price: real, bps: nat, side: Side, tick: real): real
    requires tick > 0.0
  {
    Snap(Slipped(price, bps, side), side, tick)
  }

  // The edge of the band on the taker's side.
  function EdgeAt(side: Side, band: Band, mark: real): real {
    if side == Buy then mark * band.up else mark * band.down
  }

  // That edge, where there is one to keep to.
  function Edge(side: Side, grid: Grid, mark: Option<real>): Option<real> {
    if grid.band.Some? && mark.Some? && mark.value > 0.0 then
      Some(EdgeAt(side, grid.band.value, mark.value))
    else None
  }

  // Binance's bound: slipped and snapped, then pulled inside the band.
  method Bound(price: real, bps: nat, side: Side, grid: Grid, mark: Option<real>) returns (bound: real)
    requires grid.tick > 0.0
    ensures TightestLegal(bound, Slipped(price, bps, side), Edge(side, grid, mark), side, grid.tick)
    ensures IsBound(bound, price, bps, side, grid, mark)
  {
    hide OnGrid, Snap, TightestLegal, IsBound;
    var factor := bps as real / 10000.0;
    var slipped := if side == Buy then price * (1.0 + factor) else price * (1.0 - factor);
    assert slipped == Slipped(price, bps, side);
    bound := Snap(slipped, side, grid.tick);
    SnapIsInside(slipped, side, grid.tick);
    if grid.band.Some? && mark.Some? && mark.value > 0.0 {
      var raw := EdgeAt(side, grid.band.value, mark.value);
      var edge := Snap(raw, side, grid.tick);
      SnapIsInside(raw, side, grid.tick);
      InsideBoth(bound, edge, slipped, raw, side, grid.tick);
      bound := if side == Buy then Min(bound, edge) else Max(bound, edge);
      assert Edge(side, grid, mark) == Some(raw);
    } else {
      assert Edge(side, grid, mark) == None;
    }
    TightestInNumbers(bound, price, bps, side, grid, mark);
  }

  // ---- What a bound is ------------------------------------------------

  predicate OnGrid(price: real, tick: real)
    requires tick > 0.0
  {
    (price / tick).Floor as real * tick == price
  }

  // No worse for the taker than `limit`.
  predicate NoWorse(price: real, limit: real, side: Side) {
    if side == Buy then price <= limit else price >= limit
  }

  // On the grid, within every limit, and closer to the market than no other
  // price that is both: the greatest such for a buy, the least for a sell.
  ghost predicate TightestLegal(bound: real, slipped: real, edge: Option<real>, side: Side, tick: real)
    requires tick > 0.0
  {
    && OnGrid(bound, tick)
    && NoWorse(bound, slipped, side) && (edge.Some? ==> NoWorse(bound, edge.value, side))
    && (forall other |
          OnGrid(other, tick) && NoWorse(other, slipped, side)
          && (edge.Some? ==> NoWorse(other, edge.value, side)) :: NoWorse(other, bound, side))
  }

  lemma Multiple(k: int, tick: real)
    requires tick > 0.0
    ensures OnGrid(k as real * tick, tick)
  {
    assert k as real * tick / tick == k as real;
  }

  lemma Scaled(a: real, b: real, tick: real)
    requires tick > 0.0
    ensures a <= b <==> a * tick <= b * tick
  {
    assert (b - a) * tick == b * tick - a * tick;
  }

  lemma Steps(raw: real, tick: real, k: int)
    requires tick > 0.0
    ensures k as real * tick <= raw <==> k as real <= raw / tick
    ensures k as real * tick >= raw <==> k as real >= raw / tick
  {
    assert raw / tick * tick == raw;
    Scaled(k as real, raw / tick, tick);
    Scaled(raw / tick, k as real, tick);
  }

  lemma GridOrder(j: int, k: int, tick: real)
    requires tick > 0.0
    ensures j <= k ==> j as real * tick <= k as real * tick
  {
    Scaled(j as real, k as real, tick);
  }

  // The inside of one limit: rounding down, or up, is the closest.
  lemma SnapIsInside(raw: real, side: Side, tick: real)
    requires tick > 0.0
    ensures TightestLegal(Snap(raw, side, tick), raw, None, side, tick)
  {
    var k := if side == Buy then (raw / tick).Floor else Ceil(raw / tick);
    assert Snap(raw, side, tick) == k as real * tick;
    Multiple(k, tick);
    Steps(raw, tick, k);
    forall other | OnGrid(other, tick) && NoWorse(other, raw, side)
      ensures NoWorse(other, k as real * tick, side)
    {
      var j := (other / tick).Floor;
      Steps(raw, tick, j);
      GridOrder(j, k, tick);
      GridOrder(k, j, tick);
    }
  }

  // The inside of two limits is the worse of their insides.
  lemma InsideBoth(a: real, b: real, slipped: real, edge: real, side: Side, tick: real)
    requires tick > 0.0
    requires TightestLegal(a, slipped, None, side, tick) && TightestLegal(b, edge, None, side, tick)
    ensures TightestLegal(if side == Buy then Min(a, b) else Max(a, b), slipped, Some(edge), side, tick)
  {
    hide OnGrid;
  }

  // Without a band, Aster's bound and Binance's are the same tightest price.
  lemma AsterBoundIsTightest(price: real, bps: nat, side: Side, tick: real)
    requires tick > 0.0
    ensures TightestLegal(AsterBound(price, bps, side, tick), Slipped(price, bps, side), None, side, tick)
    ensures IsBound(AsterBound(price, bps, side, tick), price, bps, side, Grid(tick, None), None)
  {
    hide OnGrid, Slipped, IsBound, Snap;
    SnapIsInside(Slipped(price, bps, side), side, tick);
    TightestInNumbers(AsterBound(price, bps, side, tick), price, bps, side, Grid(tick, None), None);
  }

  // There is only one such price, so the contract says exactly which it is.
  lemma TightestIsUnique(a: real, b: real, slipped: real, edge: Option<real>, side: Side, tick: real)
    requires tick > 0.0
    requires TightestLegal(a, slipped, edge, side, tick) && TightestLegal(b, slipped, edge, side, tick)
    ensures a == b
  {
    assert NoWorse(a, b, side) && NoWorse(b, a, side);
  }

  // ---- The bound in numbers -------------------------------------------

  function Ticks(k: int, tick: real): real { k as real * tick }

  // So many hundredths of a percent over the price for a buy, and under it for a
  // sell.
  predicate WithinSlip(bound: real, price: real, bps: nat, side: Side) {
    if side == Buy then bound * 10000.0 <= price * (10000 + bps) as real
    else bound * 10000.0 >= price * (10000 - bps) as real
  }

  // Where there is a band and a mark, no higher than the one above it for a buy, and
  // no lower than the one below it for a sell.
  predicate WithinBand(bound: real, side: Side, grid: Grid, mark: Option<real>) {
    grid.band.Some? && mark.Some? && mark.value > 0.0 ==>
      if side == Buy then bound <= mark.value * grid.band.value.up else bound >= mark.value * grid.band.value.down
  }

  predicate WithinBoth(bound: real, price: real, bps: nat, side: Side, grid: Grid, mark: Option<real>) {
    WithinSlip(bound, price, bps, side) && WithinBand(bound, side, grid, mark)
  }

  // A whole number of ticks that is within both, and one tick on no longer is.
  ghost predicate IsBound(bound: real, price: real, bps: nat, side: Side, grid: Grid, mark: Option<real>) {
    && (exists k: int :: bound == Ticks(k, grid.tick))
    && WithinBoth(bound, price, bps, side, grid, mark)
    && !WithinBoth(if side == Buy then bound + grid.tick else bound - grid.tick, price, bps, side, grid, mark)
  }

  lemma SlippedIsWithin(bound: real, price: real, bps: nat, side: Side)
    ensures NoWorse(bound, Slipped(price, bps, side), side) <==> WithinSlip(bound, price, bps, side)
  {
    var factor := bps as real / 10000.0;
    assert factor * 10000.0 == bps as real;
    if side == Buy {
      SlipScaled(price, 1.0 + factor, (10000 + bps) as real);
    } else {
      SlipScaled(price, 1.0 - factor, (10000 - bps) as real);
    }
  }

  lemma SlipScaled(price: real, factor: real, scaled: real)
    requires scaled == factor * 10000.0
    ensures price * scaled == price * factor * 10000.0
  {
  }

  lemma TickOn(k: int, tick: real)
    ensures Ticks(k, tick) + tick == Ticks(k + 1, tick) && Ticks(k, tick) - tick == Ticks(k - 1, tick)
  {
  }

  lemma LegalIsWithin(bound: real, price: real, bps: nat, side: Side, grid: Grid, mark: Option<real>)
    ensures var edge := Edge(side, grid, mark);
            NoWorse(bound, Slipped(price, bps, side), side) && (edge.Some? ==> NoWorse(bound, edge.value, side))
            <==> WithinBoth(bound, price, bps, side, grid, mark)
  {
    hide Slipped, WithinSlip;
    SlippedIsWithin(bound, price, bps, side);
  }

  // The tightest legal price is the one the numbers name.
  lemma TightestInNumbers(bound: real, price: real, bps: nat, side: Side, grid: Grid, mark: Option<real>)
    requires grid.tick > 0.0
    requires TightestLegal(bound, Slipped(price, bps, side), Edge(side, grid, mark), side, grid.tick)
    ensures IsBound(bound, price, bps, side, grid, mark)
  {
    hide OnGrid, Slipped, WithinBoth, Edge, Ticks;
    var k := TicksOf(bound, grid.tick);
    var next := if side == Buy then bound + grid.tick else bound - grid.tick;
    LegalIsWithin(bound, price, bps, side, grid, mark);
    LegalIsWithin(next, price, bps, side, grid, mark);
    TickOn(k, grid.tick);
    TickIsOnGrid(if side == Buy then k + 1 else k - 1, grid.tick);
    assert !NoWorse(next, bound, side);
  }

  lemma TickIsOnGrid(k: int, tick: real)
    requires tick > 0.0
    ensures OnGrid(Ticks(k, tick), tick)
  {
    Multiple(k, tick);
  }

  lemma TicksOf(price: real, tick: real) returns (k: int)
    requires tick > 0.0 && OnGrid(price, tick)
    ensures price == Ticks(k, tick)
  {
    k := (price / tick).Floor;
  }

  // ---- A market order's price -----------------------------------------

  datatype Quote = Quote(bid: real, ask: real, mark: Option<real>)

  datatype Refusal = BadSlippage | NoPrice | NoValidPrice

  function PriceOf(bound: real): Result<real, Refusal> {
    if bound > 0.0 then Ok(bound) else Err(NoValidPrice)
  }

  // The price a market order goes out with, or why it doesn't.
  method MarketPrice(bps: nat, side: Side, grid: Grid, quote: Quote) returns (r: Result<real, Refusal>)
    requires grid.tick > 0.0
    ensures bps == 0 || bps > 1000 ==> r == Err(BadSlippage)
    ensures 0 < bps <= 1000 && !(0.0 < quote.bid <= quote.ask) ==> r == Err(NoPrice)
    ensures 0 < bps <= 1000 && 0.0 < quote.bid <= quote.ask && side == Buy ==>
      exists bound ::
        IsBound(bound, quote.ask, bps, Buy, grid, quote.mark) && r == PriceOf(bound)
    ensures 0 < bps <= 1000 && 0.0 < quote.bid <= quote.ask && side == Sell ==>
      exists bound ::
        IsBound(bound, quote.bid, bps, Sell, grid, quote.mark) && r == PriceOf(bound)
    ensures r.Ok? ==> r.value > 0.0
  {
    hide TightestLegal, IsBound;
    if bps == 0 || bps > MAX_SLIPPAGE_BPS {
      return Err(BadSlippage);
    }
    if quote.bid <= 0.0 || quote.ask <= 0.0 || quote.bid > quote.ask {
      return Err(NoPrice);
    }
    var from := if side == Buy then quote.ask else quote.bid;
    var bound := Bound(from, bps, side, grid, quote.mark);
    assert IsBound(bound, from, bps, side, grid, quote.mark);
    if bound <= 0.0 {
      return Err(NoValidPrice);
    }
    r := Ok(bound);
  }
}
