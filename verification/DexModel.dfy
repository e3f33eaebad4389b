/**
 The resource exchange as a value: balances, escrowed offers, listing slots and buy orders.
 */
module DexModel {
  import opened Host

  const MAX_LISTINGS: nat := 5
  const MAX_OFFER_PAGE: nat := 50
  const MAX_OFFER_SCAN: nat := 200

  datatype DexError =
    | InvalidPrice | InvalidAmount | PriceOverflow | DexFailure
    | InsufficientBalance | SelfTrade | SlippageExceeded | OrderUnavailable

  datatype Holding = Holding(owner: Address, asset: Symbol)

  datatype Offer = Offer(id: nat, seller: Address, asset: Symbol, amount: nat, price: int, active: bool)

  datatype Order = Order(trader: Address, buySide: bool, resource: Symbol, price: int, quantity: int)

  datatype Fill = Fill(id: nat, buyer: Address, seller: Address, asset: Symbol, amount: nat, price: int,
                       totalCost: int, remaining: int)

  datatype Dex = Dex(
    balances: map<Holding, nat>,
    offers: map<nat, Offer>,
    count: nat,
    listings: map<Address, nat>,
    orders: map<nat, Order>)

  function BalanceOf(d: Dex, owner: Address, asset: Symbol): nat {
    if Holding(owner, asset) in d.balances then d.balances[Holding(owner, asset)] else 0
  }

  function ListingsOf(d: Dex, seller: Address): nat {
    if seller in d.listings then d.listings[seller] else 0
  }

  function SetBalance(d: Dex, owner: Address, asset: Symbol, v: nat): Dex {
    d.(balances := d.balances[Holding(owner, asset) := v])
  }

  function OpenSlot(d: Dex, seller: Address): Dex {
    d.(listings := d.listings[seller := Min(ListingsOf(d, seller) + 1, U32_MAX)])
  }

  function ReleaseSlot(d: Dex, seller: Address): Dex {
    d.(listings := d.listings[seller := MinusOrZero(ListingsOf(d, seller), 1)])
  }

  /** Move `amount` from the seller's balance into a new offer. */
  function EscrowOf(d: Dex, seller: Address, asset: Symbol, amount: nat, price: int): Result<Dex, DexError> {
    if BalanceOf(d, seller, asset) < amount then Err(InsufficientBalance)
    else if d.count + 1 > U64_MAX then Err(PriceOverflow)
    else
      var id := d.count + 1;
      var paid := SetBalance(d, seller, asset, BalanceOf(d, seller, asset) - amount);
      Ok(OpenSlot(paid.(offers := d.offers[id := Offer(id, seller, asset, amount, price, true)], count := id), seller))
  }

  function ListOf(d: Dex, seller: Address, asset: Symbol, amount: nat, price: int): Result<Dex, DexError> {
    if price <= 0 then Err(InvalidPrice)
    else if amount == 0 then Err(InvalidAmount)
    else if ListingsOf(d, seller) >= MAX_LISTINGS then Err(DexFailure)
    else EscrowOf(d, seller, asset, amount, price)
  }

  /** List the whole balance; counted in the listing slots but not capped by them. */
  function AutoListOf(d: Dex, seller: Address, asset: Symbol, price: int): Result<Dex, DexError> {
    if price <= 0 then Err(InvalidPrice)
    else if BalanceOf(d, seller, asset) == 0 then Err(InsufficientBalance)
    else EscrowOf(d, seller, asset, BalanceOf(d, seller, asset), price)
  }

  /** The offer after `amount` units of it were sold. */
  function Filled(o: Offer, amount: nat): Offer
    requires amount <= o.amount
  {
    o.(amount := o.amount - amount, active := o.active && amount < o.amount)
  }

  function BuyOf(d: Dex, buyer: Address, id: nat, amount: nat, maxPrice: int): Result<Dex, DexError> {
    if id !in d.offers || !d.offers[id].active then Err(DexFailure)
    else
      var o := d.offers[id];
      if o.seller == buyer then Err(SelfTrade)
      else if amount == 0 || amount > o.amount then Err(InvalidAmount)
      else if o.price > maxPrice then Err(SlippageExceeded)
      else if !IsI128(o.price * amount) then Err(PriceOverflow)
      else if BalanceOf(d, buyer, o.asset) + amount > U32_MAX then Err(PriceOverflow)
      else
        var credited := SetBalance(d, buyer, o.asset, BalanceOf(d, buyer, o.asset) + amount);
        var next := credited.(offers := d.offers[id := Filled(o, amount)]);
        Ok(if amount == o.amount then ReleaseSlot(next, o.seller) else next)
  }

  function SellOf(d: Dex, seller: Address, id: nat, asset: Symbol, amount: nat, minPrice: int): Result<Dex, DexError> {
    if id !in d.orders || !d.orders[id].buySide || d.orders[id].resource != asset then Err(OrderUnavailable)
    else
      var o := d.orders[id];
      if o.trader == seller then Err(SelfTrade)
      else if amount == 0 || amount > o.quantity then Err(InvalidAmount)
      else if o.price < minPrice then Err(SlippageExceeded)
      else if !IsI128(o.price * amount) then Err(PriceOverflow)
      else if BalanceOf(d, seller, asset) < amount then Err(InsufficientBalance)
      else if BalanceOf(d, o.trader, asset) + amount > U32_MAX then Err(PriceOverflow)
      else
        var debited := SetBalance(d, seller, asset, BalanceOf(d, seller, asset) - amount);
        var credited := SetBalance(debited, o.trader, asset, BalanceOf(d, o.trader, asset) + amount);
        Ok(credited.(orders := if amount == o.quantity then d.orders - {id}
                               else d.orders[id := o.(quantity := o.quantity - amount)]))
  }

  function CancelOf(d: Dex, owner: Address, id: nat): Result<Dex, DexError> {
    if id !in d.offers || !d.offers[id].active || d.offers[id].seller != owner then Err(DexFailure)
    else
      var o := d.offers[id];
      if BalanceOf(d, owner, o.asset) + o.amount > U32_MAX then Err(PriceOverflow)
      else
        var closed := ReleaseSlot(d.(offers := d.offers[id := o.(active := false)]), owner);
        Ok(SetBalance(closed, owner, o.asset, BalanceOf(d, owner, o.asset) + o.amount))
  }

  // ----- runs -------------------------------------------------------------------------------

  datatype Call =
    | List(seller: Address, asset: Symbol, amount: nat, price: int)
    | AutoList(seller: Address, asset: Symbol, price: int)
    | Buy(buyer: Address, id: nat, amount: nat, maxPrice: int)
    | Sell(seller: Address, id: nat, asset: Symbol, amount: nat, minPrice: int)
    | Cancel(owner: Address, id: nat)

  function Apply(d: Dex, call: Call): Result<Dex, DexError> {
    match call
    case List(seller, asset, amount, price) => ListOf(d, seller, asset, amount, price)
    case AutoList(seller, asset, price) => AutoListOf(d, seller, asset, price)
    case Buy(buyer, id, amount, maxPrice) => BuyOf(d, buyer, id, amount, maxPrice)
    case Sell(seller, id, asset, amount, minPrice) => SellOf(d, seller, id, asset, amount, minPrice)
    case Cancel(owner, id) => CancelOf(d, owner, id)
  }

  /** A failed call is rolled back. */
  function Step(d: Dex, call: Call): Dex {
    match Apply(d, call)
    case Ok(next) => next
    case Err(_) => d
  }

  function Run(d: Dex, calls: seq<Call>): Dex {
    if calls == [] then d else Step(Run(d, calls[..|calls| - 1]), calls[|calls| - 1])
  }

  // ----- browsing -----------------------------------------------------------------------------

  predicate Matches(d: Dex, resource: Option<Symbol>, id: nat) {
    id in d.offers && d.offers[id].active && (resource.Some? ==> resource.value == d.offers[id].asset)
  }

  /** The active matching offers with lo < id <= hi, in ID order. */
  function OffersIn(d: Dex, resource: Option<Symbol>, lo: nat, hi: nat): (offers: seq<Offer>)
    ensures |offers| <= MinusOrZero(hi, lo)
  {
    if hi <= lo then []
    else OffersIn(d, resource, lo, hi - 1) + if Matches(d, resource, hi) then [d.offers[hi]] else []
  }

  /** The last ID a page examines: the book ends, the page is full, or the scan is long enough. */
  function PageEnd(d: Dex, resource: Option<Symbol>, start: nat, limit: nat, id: nat): (end: nat)
    requires start <= id
    ensures id <= end
    decreases MinusOrZero(d.count, id)
  {
    if id < d.count && |OffersIn(d, resource, start, id)| < limit && id - start < MAX_OFFER_SCAN
    then PageEnd(d, resource, start, limit, id + 1)
    else id
  }

  datatype Page = Page(offers: seq<Offer>, next: Option<nat>)

  function PageOf(d: Dex, resource: Option<Symbol>, start: nat, limit: nat): Page {
    var end := PageEnd(d, resource, start, Min(limit, MAX_OFFER_PAGE), start);
    Page(OffersIn(d, resource, start, end), if end < d.count then Some(end) else None)
  }
}
