// One side of an order book: what a venue's history of updates makes of it,
// and its levels in order of price.
module Ladder {
  import opened Basics
  import opened Ordering

  // Price to size.
  type Levels = map<real, real>

  // A size of zero takes the level off.
  function Put(side: Levels, price: real, size: real): Levels {
    if size == 0.0 then side - {price} else side[price := size]
  }

  function PutAll(side: Levels, levels: seq<(real, real)>): Levels {
    if levels == [] then side
    else Put(PutAll(side, levels[..|levels| - 1]),
             levels[|levels| - 1].0, levels[|levels| - 1].1)
  }

  // Sets each level in turn, in place.
  method SetLevels(side: Levels, levels: seq<(real, real)>) returns (after: Levels)
    ensures after == PutAll(side, levels)
  {
    after := side;
    for i := 0 to |levels|
      invariant after == PutAll(side, levels[..i])
    {
      var (price, size) := levels[i];
      assert levels[..i + 1][..i] == levels[..i];
      if size == 0.0 {
        after := after - {price};
      } else {
        after := after[price := size];
      }
    }
    assert levels[..|levels|] == levels;
  }

  // Of several levels at one price the last is what counts: its size, or none at all
  // where that is zero.
  lemma {:induction false} LastNamed(side: Levels, levels: seq<(real, real)>, i: nat)
    requires i < |levels| && forall j :: i < j < |levels| ==> levels[j].0 != levels[i].0
    ensures var after, price := PutAll(side, levels), levels[i].0;
            && (price in after <==> levels[i].1 != 0.0)
            && (price in after ==> after[price] == levels[i].1)
  {
    var n := |levels| - 1;
    if i < n {
      LastNamed(side, levels[..n], i);
    }
  }

  // And a price none of them names is as it was.
  lemma {:induction false} NotNamed(side: Levels, levels: seq<(real, real)>, price: real)
    requires forall i :: 0 <= i < |levels| ==> levels[i].0 != price
    ensures AgreeAt(PutAll(side, levels), side, price)
  {
    if levels != [] {
      NotNamed(side, levels[..|levels| - 1], price);
    }
  }

  // ---- The venue's own book -------------------------------------------

  // One change the venue made: which update it was part of, and the size then
  // resting at the price.
  datatype Update = Update(id: nat, bid: bool, price: real, size: real)

  // One side of the venue's book once every update up to `id` has been made.
  function VenueSide(history: seq<Update>, id: nat, bid: bool): Levels {
    if history == [] then map[]
    else
      var before := VenueSide(history[..|history| - 1], id, bid);
      var u := history[|history| - 1];
      if u.id <= id && u.bid == bid then Put(before, u.price, u.size) else before
  }

  // Whether a price on that side changed after update `from`, up to `to`.
  predicate Touched(history: seq<Update>, from: nat, to: nat, bid: bool, price: real) {
    exists i :: 0 <= i < |history| && from < history[i].id <= to
                && history[i].bid == bid && history[i].price == price
  }

  // Two sides agree at a price: the same size there, or no level in either.
  predicate AgreeAt(a: Levels, b: Levels, price: real) {
    (price in a <==> price in b) && (price in a ==> a[price] == b[price])
  }

  lemma {:induction false} UntouchedAgrees(history: seq<Update>, from: nat, to: nat, bid: bool, price: real)
    requires from <= to
    requires !Touched(history, from, to, bid, price)
    ensures AgreeAt(VenueSide(history, from, bid), VenueSide(history, to, bid), price)
  {
    if history != [] {
      var earlier := history[..|history| - 1];
      assert forall i :: 0 <= i < |earlier| ==> earlier[i] == history[i];
      UntouchedAgrees(earlier, from, to, bid, price);
    }
  }

  // The venue's size at a price is that of its last change there so far, if that is
  // any.
  lemma {:induction false} VenueHasTheLast(history: seq<Update>, id: nat, bid: bool, i: nat)
    requires i < |history| && history[i].id <= id && history[i].bid == bid
    requires forall j :: i < j < |history| && history[j].id <= id && history[j].bid == bid ==>
      history[j].price != history[i].price
    ensures var side, price := VenueSide(history, id, bid), history[i].price;
            && (price in side <==> history[i].size != 0.0)
            && (price in side ==> side[price] == history[i].size)
  {
    var n := |history| - 1;
    if i < n {
      VenueHasTheLast(history[..n], id, bid, i);
    }
  }

  predicate Names(levels: seq<(real, real)>, price: real) {
    exists i :: 0 <= i < |levels| && levels[i].0 == price
  }

  // A side of a diff is right of a price when it names it if it was touched in the
  // diff's span, and leaves it, if it names it, as the venue's book has it at the
  // end.
  ghost predicate CoversAt(levels: seq<(real, real)>, history: seq<Update>, from: nat, to: nat, bid: bool,
                           price: real)
  {
    && (Touched(history, from, to, bid, price) ==> Names(levels, price))
    && (Names(levels, price) ==> AgreeAt(PutAll(map[], levels), VenueSide(history, to, bid), price))
  }

  // And genuine when it is right of every price.
  ghost predicate Covers(levels: seq<(real, real)>, history: seq<Update>, from: nat, to: nat, bid: bool) {
    forall price :: CoversAt(levels, history, from, to, bid, price)
  }

  // What a run of levels says of a price doesn't depend on what was there.
  lemma {:induction false} PutAllAt(side: Levels, levels: seq<(real, real)>, price: real)
    ensures if Names(levels, price) then AgreeAt(PutAll(side, levels), PutAll(map[], levels), price)
            else AgreeAt(PutAll(side, levels), side, price) && price !in PutAll(map[], levels)
  {
    if levels != [] {
      var n := |levels| - 1;
      var earlier := levels[..n];
      PutAllAt(side, earlier, price);
      if Names(levels, price) && levels[n].0 != price {
        var i :| 0 <= i < |levels| && levels[i].0 == price;
        assert earlier[i].0 == price;
      }
      if Names(earlier, price) {
        var i :| 0 <= i < |earlier| && earlier[i].0 == price;
        assert levels[i].0 == price;
      }
      if levels[n].0 == price {
        assert Names(levels, price);
      }
    }
  }

  // The heart of the replication, price by price: a diff right of a price sets it
  // right if it names it, and keeps it right if it was so somewhere inside the
  // diff's span, or at its very start.
  lemma DiffAdvancesAt(side: Levels, levels: seq<(real, real)>, history: seq<Update>,
                       from: nat, at: nat, to: nat, bid: bool, price: real)
    requires CoversAt(levels, history, from, to, bid, price)
    requires from <= at <= to
    requires Names(levels, price) || AgreeAt(side, VenueSide(history, at, bid), price)
    ensures AgreeAt(PutAll(side, levels), VenueSide(history, to, bid), price)
  {
    PutAllAt(side, levels, price);
    if !Names(levels, price) {
      assert !Touched(history, at, to, bid, price);
      UntouchedAgrees(history, at, to, bid, price);
    }
  }

  // So it brings any book from there to the venue's book at its end.
  lemma DiffAdvances(levels: seq<(real, real)>, history: seq<Update>, from: nat, at: nat, to: nat, bid: bool)
    requires Covers(levels, history, from, to, bid)
    requires from <= at <= to
    ensures PutAll(VenueSide(history, at, bid), levels) == VenueSide(history, to, bid)
  {
    var before, after := VenueSide(history, at, bid), VenueSide(history, to, bid);
    forall price: real ensures AgreeAt(PutAll(before, levels), after, price) {
      assert CoversAt(levels, history, from, to, bid, price);
      DiffAdvancesAt(before, levels, history, from, at, to, bid, price);
    }
    AgreeEverywhere(PutAll(before, levels), after);
  }

  lemma AgreeEverywhere(a: Levels, b: Levels)
    requires forall price :: AgreeAt(a, b, price)
    ensures a == b
  {
    forall price: real ensures (price in a <==> price in b) && (price in a ==> a[price] == b[price]) {
      assert AgreeAt(a, b, price);
    }
  }

  // No book ever holds a level of no size.
  predicate NoEmptyLevels(side: Levels) { forall price :: price in side ==> side[price] != 0.0 }

  lemma {:induction false} PutAllKeepsSizes(side: Levels, levels: seq<(real, real)>)
    requires NoEmptyLevels(side)
    ensures NoEmptyLevels(PutAll(side, levels))
  {
    if levels != [] {
      PutAllKeepsSizes(side, levels[..|levels| - 1]);
    }
  }

  lemma {:induction false} VenueHasSizes(history: seq<Update>, id: nat, bid: bool)
    ensures NoEmptyLevels(VenueSide(history, id, bid))
  {
    if history != [] {
      VenueHasSizes(history[..|history| - 1], id, bid);
    }
  }

  // ---- Levels in order ------------------------------------------------

  predicate Better(bid: bool, a: real, b: real) { if bid then a > b else a < b }

  lemma BetterIsTotal(bid: bool)
    ensures StrictTotal((a: real, b: real) => Better(bid, a, b))
  {
  }

  // The prices of a side, read from its best end: the bids from the highest
  // down, the asks from the lowest up.
  function Prices(side: Levels, bid: bool): seq<real> {
    BetterIsTotal(bid);
    InOrder(side.Keys, (a: real, b: real) => Better(bid, a, b))
  }

  lemma PricesInOrder(side: Levels, bid: bool)
    ensures |Prices(side, bid)| == |side|
    ensures forall price :: price in Prices(side, bid) <==> price in side
    ensures forall i, j :: 0 <= i < j < |side| ==> Better(bid, Prices(side, bid)[i], Prices(side, bid)[j])
  {
    BetterIsTotal(bid);
    var lt := (a: real, b: real) => Better(bid, a, b);
    InOrderHasAll(side.Keys, lt);
    forall i, j | 0 <= i < j < |side| ensures Better(bid, Prices(side, bid)[i], Prices(side, bid)[j]) {
      InOrderIsSorted(side.Keys, lt, i, j);
    }
  }

  // The best `depth` levels: real ones, strictly best first, as many as asked
  // for or as there are, and every one left out worse than every one kept.
  ghost predicate BestLevels(side: Levels, depth: nat, bid: bool, top: seq<(real, real)>) {
    && |top| == (if depth < |side| then depth else |side|)
    && (forall i :: 0 <= i < |top| ==> top[i].0 in side && side[top[i].0] == top[i].1)
    && (forall i, j :: 0 <= i < j < |top| ==> Better(bid, top[i].0, top[j].0))
    && (forall price, i :: price in side && !Names(top, price) && 0 <= i < |top| ==>
          Better(bid, top[i].0, price))
  }

  // Takes levels in order until there are `depth` of them.
  method Top(side: Levels, depth: nat, bid: bool) returns (top: seq<(real, real)>)
    ensures BestLevels(side, depth, bid, top)
  {
    var prices := Prices(side, bid);
    PricesInOrder(side, bid);
    top := [];
    while |top| < |prices| && |top| < depth
      invariant |top| <= |prices| && |top| <= depth
      invariant forall i :: 0 <= i < |top| ==> prices[i] in side
      invariant forall i :: 0 <= i < |top| ==> top[i].0 == prices[i] && top[i].1 == side[prices[i]]
    {
      var price := prices[|top|];
      assert price in prices;
      top := top + [(price, side[price])];
    }
    forall i | 0 <= i < |top| ensures Names(top, prices[i]) {
      assert top[i].0 == prices[i];
    }
    forall price, i | price in side && !Names(top, price) && 0 <= i < |top|
      ensures Better(bid, top[i].0, price)
    {
      assert price in prices;
    }
  }

  // ---- Levels cut at a depth ------------------------------------------

  // A price no worse than the last level of such a list, or any price where the
  // list is shorter than its depth.
  predicate Reaches(top: seq<(real, real)>, depth: nat, bid: bool, price: real) {
    |top| < depth || (top != [] && !Better(bid, top[|top| - 1].0, price))
  }

  function PricesOf(top: seq<(real, real)>): set<real> { set i | 0 <= i < |top| :: top[i].0 }

  lemma {:induction false} AsManyPrices(top: seq<(real, real)>, bid: bool)
    requires forall k, l :: 0 <= k < l < |top| ==> Better(bid, top[k].0, top[l].0)
    ensures |PricesOf(top)| == |top|
  {
    if top != [] {
      var n := |top| - 1;
      AsManyPrices(top[..n], bid);
      assert forall k :: 0 <= k < n ==> Better(bid, top[k].0, top[n].0);
      assert PricesOf(top) == PricesOf(top[..n]) + {top[n].0};
      assert top[n].0 !in PricesOf(top[..n]);
    }
  }

  // What a list of the best levels reaches is in it, or isn't there.
  lemma ReachedIsNamed(side: Levels, depth: nat, bid: bool, top: seq<(real, real)>, price: real)
    requires BestLevels(side, depth, bid, top) && Reaches(top, depth, bid, price)
    ensures price in side <==> Names(top, price)
    ensures forall i :: 0 <= i < |top| && top[i].0 == price ==> price in side && side[price] == top[i].1
  {
    if |top| < depth {
      AsManyPrices(top, bid);
      assert PricesOf(top) <= side.Keys;
      SameSize(PricesOf(top), side.Keys);
      assert price in side <==> price in PricesOf(top);
    }
  }

  lemma SameSize(a: set<real>, b: set<real>)
    requires a <= b && |a| == |b|
    ensures a == b
  {
    assert |b| == |a| + |b - a|;
  }

  lemma NoMore(a: set<real>, b: set<real>)
    requires a <= b
    ensures |a| <= |b|
  {
    assert |b| == |a| + |b - a|;
  }

  // The best levels of one side are those of another exactly if the two agree at
  // every price the list reaches.
  lemma BestOfBothExactly(a: Levels, b: Levels, depth: nat, bid: bool, top: seq<(real, real)>)
    requires BestLevels(a, depth, bid, top)
    ensures BestLevels(b, depth, bid, top)
            <==> forall price :: Reaches(top, depth, bid, price) ==> AgreeAt(a, b, price)
  {
    if BestLevels(b, depth, bid, top) {
      forall price | Reaches(top, depth, bid, price) ensures AgreeAt(a, b, price) {
        ReachedIsNamed(a, depth, bid, top, price);
        ReachedIsNamed(b, depth, bid, top, price);
      }
    }
    if forall price :: Reaches(top, depth, bid, price) ==> AgreeAt(a, b, price) {
      AgreedIsBest(a, b, depth, bid, top);
    }
  }

  lemma AgreedIsBest(a: Levels, b: Levels, depth: nat, bid: bool, top: seq<(real, real)>)
    requires BestLevels(a, depth, bid, top)
    requires forall price :: Reaches(top, depth, bid, price) ==> AgreeAt(a, b, price)
    ensures BestLevels(b, depth, bid, top)
  {
    if |top| < depth {
      forall price ensures AgreeAt(a, b, price) {
        assert Reaches(top, depth, bid, price);
      }
      AgreeEverywhere(a, b);
    } else {
      forall i | 0 <= i < |top| ensures top[i].0 in b && b[top[i].0] == top[i].1 {
        assert i == |top| - 1 || Better(bid, top[i].0, top[|top| - 1].0);
        assert Reaches(top, depth, bid, top[i].0);
      }
      AsManyPrices(top, bid);
      assert PricesOf(top) <= b.Keys;
      NoMore(PricesOf(top), b.Keys);
      forall price, i | price in b && !Names(top, price) && 0 <= i < |top|
        ensures Better(bid, top[i].0, price)
      {
        if Reaches(top, depth, bid, price) {
          assert AgreeAt(a, b, price);
        }
        assert i == |top| - 1 || Better(bid, top[i].0, top[|top| - 1].0);
      }
    }
  }

  // A venue's list of its best levels is right of every price it reaches.
  lemma CutAgrees(side: Levels, limit: nat, bid: bool, levels: seq<(real, real)>, price: real)
    requires BestLevels(side, limit, bid, levels) && NoEmptyLevels(side)
    requires Reaches(levels, limit, bid, price)
    ensures AgreeAt(PutAll(map[], levels), side, price)
  {
    ReachedIsNamed(side, limit, bid, levels, price);
    ListedOnce(levels, bid, price);
    if Names(levels, price) {
      var i :| 0 <= i < |levels| && levels[i].0 == price;
      assert side[price] == levels[i].1;
    }
  }

  // A list in order of price puts each level it names as it names it.
  lemma {:induction false} ListedOnce(levels: seq<(real, real)>, bid: bool, price: real)
    requires forall k, l :: 0 <= k < l < |levels| ==> Better(bid, levels[k].0, levels[l].0)
    ensures !Names(levels, price) ==> price !in PutAll(map[], levels)
    ensures forall i :: 0 <= i < |levels| && levels[i].0 == price && levels[i].1 != 0.0 ==>
              price in PutAll(map[], levels) && PutAll(map[], levels)[price] == levels[i].1
  {
    if levels != [] {
      var n := |levels| - 1;
      ListedOnce(levels[..n], bid, price);
      assert forall k :: 0 <= k < n ==> levels[..n][k] == levels[k] && Better(bid, levels[k].0, levels[n].0);
      if Names(levels[..n], price) {
        var i :| 0 <= i < n && levels[..n][i].0 == price;
        assert levels[i].0 == price;
      }
    }
  }
}
