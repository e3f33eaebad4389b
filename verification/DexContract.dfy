/**
 The exchange as the contract runs it. Each method is one guarded top-level call: where the source
 has already written when it fails, the host's rollback is written out as restoring the old values.
 */
module DexContract {
  import opened Host
  import opened DexModel

  class Exchange {
    var balances: map<Holding, nat>
    var offers: map<nat, Offer>
    var count: nat
    var listings: map<Address, nat>
    var orders: map<nat, Order>

    ghost function Model(): Dex
      reads this
    {
      Dex(balances, offers, count, listings, orders)
    }

    constructor (initial: map<Holding, nat>, buyOrders: map<nat, Order>)
      ensures Model() == Dex(initial, map[], 0, map[], buyOrders)
    {
      balances, offers, count, listings, orders := initial, map[], 0, map[], buyOrders;
    }

    function ResourceBalance(owner: Address, asset: Symbol): (v: nat)
      reads this
      ensures v == BalanceOf(Model(), owner, asset)
    {
      if Holding(owner, asset) in balances then balances[Holding(owner, asset)] else 0
    }

    function OpenListings(seller: Address): (n: nat)
      reads this
      ensures n == ListingsOf(Model(), seller)
    {
      if seller in listings then listings[seller] else 0
    }

    method ReleaseListingSlot(seller: Address)
      modifies this`listings
      ensures Model() == ReleaseSlot(old(Model()), seller)
    {
      listings := listings[seller := MinusOrZero(OpenListings(seller), 1)];
    }

    /** Credit with an overflow check; nothing changes when it fails. */
    method CreditResourceBalance(owner: Address, asset: Symbol, amount: nat) returns (ok: bool)
      modifies this`balances
      ensures ok <==> BalanceOf(old(Model()), owner, asset) + amount <= U32_MAX
      ensures Model() == if ok
                         then SetBalance(old(Model()), owner, asset, BalanceOf(old(Model()), owner, asset) + amount)
                         else old(Model())
    {
      var next := ResourceBalance(owner, asset) + amount;
      if next > U32_MAX {
        return false;
      }
      balances := balances[Holding(owner, asset) := next];
      ok := true;
    }

    method ListResource(seller: Address, asset: Symbol, amount: nat, price: int) returns (r: Result<Offer, DexError>)
      modifies this
      ensures match ListOf(old(Model()), seller, asset, amount, price)
              case Ok(d) => Model() == d && count in offers && r == Ok(offers[count])
              case Err(error) => r == Err(error) && Model() == old(Model())
    {
      hide EscrowOf;
      if price <= 0 {
        return Err(InvalidPrice);
      }
      if amount == 0 {
        return Err(InvalidAmount);
      }
      if OpenListings(seller) >= MAX_LISTINGS {
        return Err(DexFailure);
      }
      r := EscrowAndList(seller, asset, amount, price);
    }

    method AutoListOnDex(seller: Address, asset: Symbol, price: int) returns (r: Result<Offer, DexError>)
      modifies this
      ensures match AutoListOf(old(Model()), seller, asset, price)
              case Ok(d) => Model() == d && count in offers && r == Ok(offers[count])
              case Err(error) => r == Err(error) && Model() == old(Model())
    {
      hide EscrowOf;
      if price <= 0 {
        return Err(InvalidPrice);
      }
      var amount := ResourceBalance(seller, asset);
      if amount == 0 {
        return Err(InsufficientBalance);
      }
      r := EscrowAndList(seller, asset, amount, price);
    }

    method EscrowAndList(seller: Address, asset: Symbol, amount: nat, price: int) returns (r: Result<Offer, DexError>)
      modifies this
      ensures match EscrowOf(old(Model()), seller, asset, amount, price)
              case Ok(d) => Model() == d && count in offers && r == Ok(offers[count])
              case Err(error) => r == Err(error) && Model() == old(Model())
    {
      var balance := ResourceBalance(seller, asset);
      if balance < amount {
        return Err(InsufficientBalance);
      }
      var saved := balances;
      balances := balances[Holding(seller, asset) := balance - amount];
      if count + 1 > U64_MAX {
        balances := saved;
        return Err(PriceOverflow);
      }
      count := count + 1;
      var offer := Offer(count, seller, asset, amount, price, true);
      offers := offers[count := offer];
      listings := listings[seller := Min(OpenListings(seller) + 1, U32_MAX)];
      r := Ok(offer);
    }

    method BuyOffer(buyer: Address, id: nat, amount: nat, maxPrice: int) returns (r: Result<Fill, DexError>)
      modifies this
      ensures match BuyOf(old(Model()), buyer, id, amount, maxPrice)
              case Ok(d) =>
                var o := old(offers)[id];
                Model() == d && r == Ok(Fill(id, buyer, o.seller, o.asset, amount, o.price, o.price * amount,
                                             o.amount - amount))
              case Err(error) => r == Err(error) && Model() == old(Model())
    {
      if id !in offers || !offers[id].active {
        return Err(DexFailure);
      }
      var offer := offers[id];
      if offer.seller == buyer {
        return Err(SelfTrade);
      }
      if amount == 0 || amount > offer.amount {
        return Err(InvalidAmount);
      }
      if offer.price > maxPrice {
        return Err(SlippageExceeded);
      }
      var totalCost := offer.price * amount;
      if !IsI128(totalCost) {
        return Err(PriceOverflow);
      }
      var credited := CreditResourceBalance(buyer, offer.asset, amount);
      if !credited {
        return Err(PriceOverflow);
      }
      offer := offer.(amount := offer.amount - amount);
      if offer.amount == 0 {
        offer := offer.(active := false);
        ReleaseListingSlot(offer.seller);
      }
      offers := offers[id := offer];
      r := Ok(Fill(id, buyer, offer.seller, offer.asset, amount, offer.price, totalCost, offer.amount));
    }

    method SellToOrder(seller: Address, id: nat, asset: Symbol, amount: nat, minPrice: int)
      returns (r: Result<Fill, DexError>)
      modifies this
      ensures match SellOf(old(Model()), seller, id, asset, amount, minPrice)
              case Ok(d) =>
                var o := old(orders)[id];
                Model() == d && r == Ok(Fill(id, o.trader, seller, asset, amount, o.price, o.price * amount,
                                             o.quantity - amount))
              case Err(error) => r == Err(error) && Model() == old(Model())
    {
      if id !in orders || !orders[id].buySide || orders[id].resource != asset {
        return Err(OrderUnavailable);
      }
      var order := orders[id];
      if order.trader == seller {
        return Err(SelfTrade);
      }
      if amount == 0 || amount > order.quantity {
        return Err(InvalidAmount);
      }
      if order.price < minPrice {
        return Err(SlippageExceeded);
      }
      var totalCost := order.price * amount;
      if !IsI128(totalCost) {
        return Err(PriceOverflow);
      }
      var balance := ResourceBalance(seller, asset);
      if balance < amount {
        return Err(InsufficientBalance);
      }
      var saved := balances;
      balances := balances[Holding(seller, asset) := balance - amount];
      var credited := CreditResourceBalance(order.trader, asset, amount);
      if !credited {
        balances := saved;
        return Err(PriceOverflow);
      }
      FillLimitOrder(id, amount);
      r := Ok(Fill(id, order.trader, seller, asset, amount, order.price, totalCost, order.quantity - amount));
    }

    method FillLimitOrder(id: nat, quantity: nat)
      requires id in orders && 0 < quantity <= orders[id].quantity
      modifies this`orders
      ensures orders == if quantity == old(orders)[id].quantity then old(orders) - {id}
                        else old(orders)[id := old(orders)[id].(quantity := old(orders)[id].quantity - quantity)]
    {
      var remaining := orders[id].quantity - quantity;
      if remaining == 0 {
        orders := orders - {id};
      } else {
        orders := orders[id := orders[id].(quantity := remaining)];
      }
    }

    method CancelListing(owner: Address, id: nat) returns (r: Result<Offer, DexError>)
      modifies this
      ensures match CancelOf(old(Model()), owner, id)
              case Ok(d) => Model() == d && id in offers && r == Ok(offers[id])
              case Err(error) => r == Err(error) && Model() == old(Model())
    {
      if id !in offers || !offers[id].active || offers[id].seller != owner {
        return Err(DexFailure);
      }
      var savedOffers, savedListings := offers, listings;
      var offer := offers[id].(active := false);
      offers := offers[id := offer];
      ReleaseListingSlot(owner);
      var refunded := CreditResourceBalance(owner, offer.asset, offer.amount);
      if !refunded {
        offers, listings := savedOffers, savedListings;
        return Err(PriceOverflow);
      }
      r := Ok(offer);
    }

    method GetOpenOffers(resource: Option<Symbol>, startAfter: nat, limit: nat) returns (page: Page)
      ensures page == PageOf(Model(), resource, startAfter, limit)
    {
      hide PageEnd;
      var capped := Min(limit, MAX_OFFER_PAGE);
      var found := [];
      var id, scanned := startAfter, 0;
      while id < count && |found| < capped && scanned < MAX_OFFER_SCAN
        invariant id == startAfter + scanned && found == OffersIn(Model(), resource, startAfter, id)
        invariant PageEnd(Model(), resource, startAfter, capped, id) ==
                  PageEnd(Model(), resource, startAfter, capped, startAfter)
        decreases MAX_OFFER_SCAN - scanned
      {
        PageGoesOn(Model(), resource, startAfter, capped, id);
        id := id + 1;
        scanned := scanned + 1;
        if id in offers {
          if offers[id].active && (resource.None? || resource.value == offers[id].asset) {
            found := found + [offers[id]];
          }
        }
      }
      PageEndsHere(Model(), resource, startAfter, capped, id);
      page := Page(found, if id < count then Some(id) else None);
    }
  }

  lemma PageGoesOn(d: Dex, resource: Option<Symbol>, start: nat, limit: nat, id: nat)
    requires start <= id < d.count && |OffersIn(d, resource, start, id)| < limit && id - start < MAX_OFFER_SCAN
    ensures PageEnd(d, resource, start, limit, id) == PageEnd(d, resource, start, limit, id + 1)
  {}

  lemma PageEndsHere(d: Dex, resource: Option<Symbol>, start: nat, limit: nat, id: nat)
    requires start <= id && !(id < d.count && |OffersIn(d, resource, start, id)| < limit && id - start < MAX_OFFER_SCAN)
    ensures PageEnd(d, resource, start, limit, id) == id
  {}
}
