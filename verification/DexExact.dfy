/**
 Exactly when each exchange call succeeds and what it moves, how purchases compose, and what a page holds.
 */
module DexExact {
  import opened Host
  import opened Arith
  import opened DexModel
  import opened DexProofs

  // ----- when a call succeeds ------------------------------------------------------------------

  /** A listing needs a price, an amount the seller has, one of five slots and an ID. */
  lemma ListExactly(d: Dex, seller: Address, asset: Symbol, amount: nat, price: int)
    ensures Apply(d, List(seller, asset, amount, price)).Ok? <==>
            && price >= 1 && 1 <= amount <= BalanceOf(d, seller, asset)
            && ListingsOf(d, seller) <= 4 && d.count < U64_MAX
  {}

  /** An automatic listing needs a price, a balance and an ID. */
  lemma AutoListExactly(d: Dex, seller: Address, asset: Symbol, price: int)
    ensures Apply(d, AutoList(seller, asset, price)).Ok? <==>
            price >= 1 && BalanceOf(d, seller, asset) >= 1 && d.count < U64_MAX
  {}

  /** A purchase, whole or partial, needs someone else's active offer, an acceptable price and room for the credit. */
  lemma BuyExactly(d: Dex, buyer: Address, id: nat, amount: nat, maxPrice: int)
    ensures Apply(d, Buy(buyer, id, amount, maxPrice)).Ok? <==>
            && id in d.offers && d.offers[id].active && d.offers[id].seller != buyer
            && 1 <= amount <= d.offers[id].amount && d.offers[id].price <= maxPrice
            && I128_MIN <= d.offers[id].price * amount <= I128_MAX
            && BalanceOf(d, buyer, d.offers[id].asset) + amount <= U32_MAX
  {}

  /** A sale needs someone else's buy order for the resource, an acceptable price, the units and room for the credit. */
  lemma SellExactly(d: Dex, seller: Address, id: nat, asset: Symbol, amount: nat, minPrice: int)
    ensures Apply(d, Sell(seller, id, asset, amount, minPrice)).Ok? <==>
            && id in d.orders && d.orders[id].buySide && d.orders[id].resource == asset && d.orders[id].trader != seller
            && 1 <= amount <= d.orders[id].quantity && d.orders[id].price >= minPrice
            && I128_MIN <= d.orders[id].price * amount <= I128_MAX
            && BalanceOf(d, seller, asset) >= amount && BalanceOf(d, d.orders[id].trader, asset) + amount <= U32_MAX
  {}

  /** A cancellation needs the owner's own active offer and room for the units to return. */
  lemma CancelExactly(d: Dex, owner: Address, id: nat)
    ensures Apply(d, Cancel(owner, id)).Ok? <==>
            && id in d.offers && d.offers[id].active && d.offers[id].seller == owner
            && BalanceOf(d, owner, d.offers[id].asset) + d.offers[id].amount <= U32_MAX
  {}

  // ----- what a call moves -----------------------------------------------------------------------

  /** What a listing of `amount` leaves: the offer under the next ID, the balance without it, one slot more. */
  ghost predicate ListedFrom(d: Dex, e: Dex, seller: Address, asset: Symbol, amount: nat, price: int) {
    && e.count == d.count + 1 && e.orders == d.orders
    && e.offers == d.offers[e.count := Offer(e.count, seller, asset, amount, price, true)]
    && (forall owner, held :: BalanceOf(e, owner, held) ==
          BalanceOf(d, owner, held) - if (owner, held) == (seller, asset) then amount else 0)
    && (forall owner :: ListingsOf(e, owner) ==
          if owner == seller then Min(ListingsOf(d, owner) + 1, U32_MAX) else ListingsOf(d, owner))
  }

  /** A listing escrows the amount given; an automatic one the seller's whole balance. */
  lemma ListMoves(d: Dex, call: Call)
    requires (call.List? || call.AutoList?) && Apply(d, call).Ok?
    ensures ListedFrom(d, Step(d, call), call.seller, call.asset,
                       if call.List? then call.amount else BalanceOf(d, call.seller, call.asset), call.price)
  {}

  /** A cancellation closes the offer, returns what is left of it and frees one slot. */
  lemma CancelMoves(d: Dex, call: Call, owner: Address, held: Symbol)
    requires call.Cancel? && Apply(d, call).Ok?
    ensures var e, o := Step(d, call), d.offers[call.id];
            && e.offers == d.offers[call.id := o.(active := false)] && e.count == d.count && e.orders == d.orders
            && BalanceOf(e, owner, held) ==
               BalanceOf(d, owner, held) + (if (owner, held) == (call.owner, o.asset) then o.amount else 0)
            && ListingsOf(e, owner) ==
               (if owner == call.owner && ListingsOf(d, owner) > 0 then ListingsOf(d, owner) - 1
                else ListingsOf(d, owner))
  {}

  /** A purchase keeps the slot of an offer that is not used up and frees that of one that is. */
  lemma BuySlots(d: Dex, call: Call, owner: Address)
    requires call.Buy? && Apply(d, call).Ok?
    ensures var e, o := Step(d, call), d.offers[call.id];
            && e.count == d.count && e.orders == d.orders
            && ListingsOf(e, owner) ==
               (if owner == o.seller && call.amount == o.amount && ListingsOf(d, owner) > 0
                then ListingsOf(d, owner) - 1
                else ListingsOf(d, owner))
  {}

  // ----- fills compose ---------------------------------------------------------------------------

  lemma PartFits(price: int, a: nat, b: nat)
    requires IsI128(price * (a + b))
    ensures IsI128(price * a) && IsI128(price * b)
  {
    assert price * (a + b) == price * a + price * b;
    if price >= 0 {
      MulMono(price, 0, a);
      MulMono(price, 0, b);
    } else {
      MulMono(a, price, 0);
      MulMono(b, price, 0);
    }
  }

  /** Buying in two parts does exactly what buying at once does. */
  lemma BuyComposes(d: Dex, buyer: Address, id: nat, a: nat, b: nat, maxPrice: int)
    requires a > 0 && b > 0 && Apply(d, Buy(buyer, id, a + b, maxPrice)).Ok?
    ensures Apply(d, Buy(buyer, id, a, maxPrice)).Ok?
    ensures Apply(Step(d, Buy(buyer, id, a, maxPrice)), Buy(buyer, id, b, maxPrice)).Ok?
    ensures Step(Step(d, Buy(buyer, id, a, maxPrice)), Buy(buyer, id, b, maxPrice)) ==
            Step(d, Buy(buyer, id, a + b, maxPrice))
  {
    hide Apply, Step;
    BuyExactly(d, buyer, id, a + b, maxPrice);
    PartFits(d.offers[id].price, a, b);
    BuyExactly(d, buyer, id, a, maxPrice);
    BuyResult(d, buyer, id, a, maxPrice);
    BuyResult(d, buyer, id, a + b, maxPrice);
    var part := Step(d, Buy(buyer, id, a, maxPrice));
    BuyExactly(part, buyer, id, b, maxPrice);
    BuyResult(part, buyer, id, b, maxPrice);
    var both, whole := Step(part, Buy(buyer, id, b, maxPrice)), Step(d, Buy(buyer, id, a + b, maxPrice));
    assert both.balances == whole.balances && both.offers == whole.offers && both.listings == whole.listings;
  }

  /** The whole exchange after a purchase. */
  lemma BuyResult(d: Dex, buyer: Address, id: nat, amount: nat, maxPrice: int)
    requires Apply(d, Buy(buyer, id, amount, maxPrice)).Ok?
    ensures id in d.offers && amount <= d.offers[id].amount
    ensures var o := d.offers[id];
            Step(d, Buy(buyer, id, amount, maxPrice)) == d.(
              balances := d.balances[Holding(buyer, o.asset) := BalanceOf(d, buyer, o.asset) + amount],
              offers := d.offers[id := o.(amount := o.amount - amount, active := amount < o.amount)],
              listings := if amount == o.amount then ReleaseSlot(d, o.seller).listings else d.listings)
  {
  }

  /** Selling into an order in two parts does exactly what selling at once does. */
  lemma SellComposes(d: Dex, seller: Address, id: nat, asset: Symbol, a: nat, b: nat, minPrice: int)
    requires a > 0 && b > 0 && Apply(d, Sell(seller, id, asset, a + b, minPrice)).Ok?
    ensures Apply(d, Sell(seller, id, asset, a, minPrice)).Ok?
    ensures Apply(Step(d, Sell(seller, id, asset, a, minPrice)), Sell(seller, id, asset, b, minPrice)) ==
            Apply(d, Sell(seller, id, asset, a + b, minPrice))
  {
    PartFits(d.orders[id].price, a, b);
    var part, whole := Step(d, Sell(seller, id, asset, a, minPrice)), Step(d, Sell(seller, id, asset, a + b, minPrice));
    assert part.orders[id].quantity == d.orders[id].quantity - a;
    var both := Step(part, Sell(seller, id, asset, b, minPrice));
    assert both.balances == whole.balances && both.orders == whole.orders;
  }

  /** Buying part of an offer leaves the rest cancellable, and the seller gets back exactly what was not sold. */
  lemma BuyThenCancel(d: Dex, buyer: Address, id: nat, amount: nat, maxPrice: int)
    requires Apply(d, Buy(buyer, id, amount, maxPrice)).Ok? && amount < d.offers[id].amount
    requires BalanceOf(d, d.offers[id].seller, d.offers[id].asset) + d.offers[id].amount <= U32_MAX
    ensures var o, e := d.offers[id], Step(d, Buy(buyer, id, amount, maxPrice));
            && Apply(e, Cancel(o.seller, id)).Ok?
            && BalanceOf(Step(e, Cancel(o.seller, id)), o.seller, o.asset) ==
               BalanceOf(d, o.seller, o.asset) + o.amount - amount
  {}

  // ----- browsing ----------------------------------------------------------------------------------

  /** Following the cursor returns exactly the active offers of the resource asked for, once each and in ID order. */
  lemma BrowseExactly(d: Dex, resource: Option<Symbol>, limit: nat)
    requires IdsDense(d) && limit > 0
    ensures Ascending(Browse(d, resource, 0, limit))
    ensures forall o :: o in Browse(d, resource, 0, limit) <==>
              && o.id in d.offers && d.offers[o.id] == o && o.active
              && (resource == None || resource == Some(o.asset))
  {
    hide OffersIn, Browse, Ascending;
    BrowseIsComplete(d, resource, 0, limit);
    OffersInExact(d, resource, 0, d.count);
  }

  /** A page holds the matches up to its end, which is that of the book, the 50th offer at most, or the 200th ID. */
  lemma PageExactly(d: Dex, resource: Option<Symbol>, start: nat, limit: nat)
    ensures var page := PageOf(d, resource, start, limit);
            var end := if page.next.Some? then page.next.value else d.count;
            && page.offers == OffersIn(d, resource, start, end)
            && |page.offers| <= Min(limit, 50)
            && (page.next.Some? ==> start <= end < d.count && end - start <= 200)
            && (page.next.Some? ==> |page.offers| == Min(limit, 50) || end - start == 200)
  {
    hide OffersIn, PageEnd;
    PageEndBounds(d, resource, start, Min(limit, 50), start);
    NoneYet(d, resource, start);
    var end := PageEnd(d, resource, start, Min(limit, 50), start);
    if end >= d.count {
      NothingBeyond(d, resource, start, end);
    }
  }

  lemma NoneYet(d: Dex, resource: Option<Symbol>, start: nat)
    ensures OffersIn(d, resource, start, start) == []
  {}
}
