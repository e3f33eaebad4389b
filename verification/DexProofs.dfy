/**
 Conservation of every resource, exact listing slots and complete browsing.
 */
module DexProofs {
  import opened Host
  import opened Sums
  import opened DexModel

  // ----- conservation --------------------------------------------------------------------------

  ghost function BalanceShares(d: Dex, asset: Symbol): map<Holding, int> {
    map h | h in d.balances :: if h.asset == asset then d.balances[h] else 0
  }

  function InEscrow(o: Offer, asset: Symbol): int {
    if o.active && o.asset == asset then o.amount else 0
  }

  ghost function OfferShares(d: Dex, asset: Symbol): map<nat, int> {
    map id | id in d.offers :: InEscrow(d.offers[id], asset)
  }

  /** All units of a resource: liquid balances plus what active offers hold. */
  ghost function Total(d: Dex, asset: Symbol): int {
    SumValues(BalanceShares(d, asset)) + SumValues(OfferShares(d, asset))
  }

  /** Offer IDs run from 1 to the counter, and each offer is stored under its own ID. */
  ghost predicate IdsDense(d: Dex) {
    forall id :: id in d.offers ==> 1 <= id <= d.count && d.offers[id].id == id
  }

  lemma BalanceChange(d: Dex, owner: Address, held: Symbol, v: nat, asset: Symbol)
    ensures var d' := SetBalance(d, owner, held, v);
            && SumValues(BalanceShares(d', asset)) ==
               SumValues(BalanceShares(d, asset)) + (if held == asset then v - BalanceOf(d, owner, held) else 0)
            && OfferShares(d', asset) == OfferShares(d, asset)
  {
    var h, d' := Holding(owner, held), SetBalance(d, owner, held, v);
    var share: int := if held == asset then v else 0;
    SumUpdate(BalanceShares(d, asset), h, share);
    assert BalanceShares(d', asset) == BalanceShares(d, asset)[h := share];
  }

  lemma OfferChange(d: Dex, id: nat, o: Offer, asset: Symbol)
    ensures var d' := d.(offers := d.offers[id := o]);
            && SumValues(OfferShares(d', asset)) ==
               SumValues(OfferShares(d, asset)) + InEscrow(o, asset) -
               (if id in d.offers then InEscrow(d.offers[id], asset) else 0)
            && BalanceShares(d', asset) == BalanceShares(d, asset)
  {
    var d' := d.(offers := d.offers[id := o]);
    SumUpdate(OfferShares(d, asset), id, InEscrow(o, asset));
    assert OfferShares(d', asset) == OfferShares(d, asset)[id := InEscrow(o, asset)];
  }

  /** Totals depend on balances and offers only. */
  lemma TotalOf(a: Dex, b: Dex, asset: Symbol)
    requires a.balances == b.balances && a.offers == b.offers
    ensures Total(a, asset) == Total(b, asset)
  {
    assert BalanceShares(a, asset) == BalanceShares(b, asset);
    assert OfferShares(a, asset) == OfferShares(b, asset);
  }

  lemma EscrowConserves(d: Dex, seller: Address, held: Symbol, amount: nat, price: int, asset: Symbol)
    requires IdsDense(d) && EscrowOf(d, seller, held, amount, price).Ok?
    ensures Total(EscrowOf(d, seller, held, amount, price).value, asset) == Total(d, asset)
  {
    hide SumValues, BalanceShares, OfferShares;
    var id := d.count + 1;
    var paid := SetBalance(d, seller, held, BalanceOf(d, seller, held) - amount);
    var o := Offer(id, seller, held, amount, price, true);
    BalanceChange(d, seller, held, BalanceOf(d, seller, held) - amount, asset);
    OfferChange(paid, id, o, asset);
    TotalOf(EscrowOf(d, seller, held, amount, price).value, paid.(offers := paid.offers[id := o]), asset);
  }

  lemma BuyConserves(d: Dex, buyer: Address, id: nat, amount: nat, maxPrice: int, asset: Symbol)
    requires BuyOf(d, buyer, id, amount, maxPrice).Ok?
    ensures Total(BuyOf(d, buyer, id, amount, maxPrice).value, asset) == Total(d, asset)
  {
    hide SumValues, BalanceShares, OfferShares;
    var o := d.offers[id];
    var credited := SetBalance(d, buyer, o.asset, BalanceOf(d, buyer, o.asset) + amount);
    BalanceChange(d, buyer, o.asset, BalanceOf(d, buyer, o.asset) + amount, asset);
    OfferChange(credited, id, Filled(o, amount), asset);
    var filled := credited.(offers := credited.offers[id := Filled(o, amount)]);
    TotalOf(BuyOf(d, buyer, id, amount, maxPrice).value, filled, asset);
  }

  lemma SellConserves(d: Dex, seller: Address, id: nat, held: Symbol, amount: nat, minPrice: int, asset: Symbol)
    requires SellOf(d, seller, id, held, amount, minPrice).Ok?
    ensures Total(SellOf(d, seller, id, held, amount, minPrice).value, asset) == Total(d, asset)
  {
    hide SumValues, BalanceShares, OfferShares;
    var o := d.orders[id];
    var debited := SetBalance(d, seller, held, BalanceOf(d, seller, held) - amount);
    BalanceChange(d, seller, held, BalanceOf(d, seller, held) - amount, asset);
    BalanceChange(debited, o.trader, held, BalanceOf(d, o.trader, held) + amount, asset);
    TotalOf(SellOf(d, seller, id, held, amount, minPrice).value,
            SetBalance(debited, o.trader, held, BalanceOf(d, o.trader, held) + amount), asset);
  }

  lemma CancelConserves(d: Dex, owner: Address, id: nat, asset: Symbol)
    requires CancelOf(d, owner, id).Ok?
    ensures Total(CancelOf(d, owner, id).value, asset) == Total(d, asset)
  {
    hide SumValues, BalanceShares, OfferShares;
    var o := d.offers[id];
    var closed := d.(offers := d.offers[id := o.(active := false)]);
    OfferChange(d, id, o.(active := false), asset);
    BalanceChange(closed, owner, o.asset, BalanceOf(d, owner, o.asset) + o.amount, asset);
    var returned := SetBalance(closed, owner, o.asset, BalanceOf(d, owner, o.asset) + o.amount);
    TotalOf(CancelOf(d, owner, id).value, returned, asset);
  }

  lemma StepKeepsIds(d: Dex, call: Call)
    requires IdsDense(d)
    ensures IdsDense(Step(d, call))
  {}

  lemma StepConserves(d: Dex, call: Call, asset: Symbol)
    requires IdsDense(d)
    ensures Total(Step(d, call), asset) == Total(d, asset)
  {
    hide Total, EscrowOf, BuyOf, SellOf, CancelOf, IdsDense;
    match call
    case List(seller, held, amount, price) =>
      if EscrowOf(d, seller, held, amount, price).Ok? { EscrowConserves(d, seller, held, amount, price, asset); }
    case AutoList(seller, held, price) =>
      var amount := BalanceOf(d, seller, held);
      if EscrowOf(d, seller, held, amount, price).Ok? { EscrowConserves(d, seller, held, amount, price, asset); }
    case Buy(buyer, id, amount, maxPrice) =>
      if BuyOf(d, buyer, id, amount, maxPrice).Ok? { BuyConserves(d, buyer, id, amount, maxPrice, asset); }
    case Sell(seller, id, held, amount, minPrice) =>
      if SellOf(d, seller, id, held, amount, minPrice).Ok? {
        SellConserves(d, seller, id, held, amount, minPrice, asset);
      }
    case Cancel(owner, id) =>
      if CancelOf(d, owner, id).Ok? { CancelConserves(d, owner, id, asset); }
  }

  /** For every resource, no run of listing, buying, selling and cancelling creates or destroys a unit. */
  lemma {:induction false} RunConserves(d: Dex, calls: seq<Call>, asset: Symbol)
    requires IdsDense(d)
    ensures IdsDense(Run(d, calls)) && Total(Run(d, calls), asset) == Total(d, asset)
  {
    hide Total, Step, IdsDense;
    if calls != [] {
      var before, call := calls[..|calls| - 1], calls[|calls| - 1];
      RunConserves(d, before, asset);
      StepKeepsIds(Run(d, before), call);
      StepConserves(Run(d, before), call, asset);
    }
  }

  /** A purchase moves exactly the bought units from the offer to the buyer and touches no other balance or offer. */
  lemma BuyMoves(d: Dex, buyer: Address, id: nat, amount: nat, maxPrice: int, owner: Address, asset: Symbol)
    requires BuyOf(d, buyer, id, amount, maxPrice).Ok?
    ensures var e, o := BuyOf(d, buyer, id, amount, maxPrice).value, d.offers[id];
            && BalanceOf(e, owner, asset) == BalanceOf(d, owner, asset) +
               (if owner == buyer && asset == o.asset then amount else 0)
            && o.active && o.price <= maxPrice && buyer != o.seller
            && e.offers[id].amount == o.amount - amount && (e.offers[id].active <==> e.offers[id].amount > 0)
            && (forall k :: k in d.offers && k != id ==> k in e.offers && e.offers[k] == d.offers[k])
  {}

  /** A sale into an order moves exactly the sold units from seller to trader and shrinks the order by as much. */
  lemma SellMoves(d: Dex, seller: Address, id: nat, held: Symbol, amount: nat, minPrice: int, owner: Address,
                  asset: Symbol)
    requires SellOf(d, seller, id, held, amount, minPrice).Ok?
    ensures var e, o := SellOf(d, seller, id, held, amount, minPrice).value, d.orders[id];
            && BalanceOf(e, owner, asset) == BalanceOf(d, owner, asset) +
                 (if asset != held then 0
                  else if owner == seller then 0 - amount
                  else if owner == o.trader then amount else 0)
            && o.resource == held && o.price >= minPrice && e.offers == d.offers
            && (if id in e.orders then e.orders[id].quantity == o.quantity - amount > 0 else o.quantity == amount)
            && (forall k :: k != id ==>
                  (k in e.orders <==> k in d.orders) && (k in d.orders ==> e.orders[k] == d.orders[k]))
  {}

  /** Listing and then cancelling gives the seller back exactly what was escrowed and leaves everyone as before. */
  lemma ListCancelRoundTrip(d: Dex, seller: Address, asset: Symbol, amount: nat, price: int, owner: Address,
                            held: Symbol)
    requires IdsDense(d) && ListOf(d, seller, asset, amount, price).Ok? && BalanceOf(d, seller, asset) <= U32_MAX
    ensures var listed := ListOf(d, seller, asset, amount, price).value;
            && BalanceOf(listed, seller, asset) == BalanceOf(d, seller, asset) - amount
            && CancelOf(listed, seller, listed.count).Ok?
            && var back := CancelOf(listed, seller, listed.count).value;
            && BalanceOf(back, owner, held) == BalanceOf(d, owner, held)
            && ListingsOf(back, owner) == ListingsOf(d, owner)
            && (forall id :: id in d.offers ==> id in back.offers && back.offers[id] == d.offers[id])
            && !back.offers[listed.count].active
  {}

  // ----- listing slots ----------------------------------------------------------------------------

  /** The seller's active offers. */
  function ActiveIds(d: Dex, seller: Address): set<nat> {
    set id | id in d.offers && d.offers[id].active && d.offers[id].seller == seller
  }

  ghost predicate SlotsExact(d: Dex, seller: Address) {
    ListingsOf(d, seller) == |ActiveIds(d, seller)|
  }

  /** A new active offer adds exactly itself to its seller's offers. */
  lemma OpenActive(d: Dex, e: Dex, id: nat, o: Offer, seller: Address)
    requires id !in d.offers && e.offers == d.offers[id := o] && o.active
    ensures |ActiveIds(e, seller)| == |ActiveIds(d, seller)| + (if o.seller == seller then 1 else 0)
  {
    if o.seller == seller {
      assert ActiveIds(e, seller) == ActiveIds(d, seller) + {id};
    } else {
      assert ActiveIds(e, seller) == ActiveIds(d, seller);
    }
  }

  lemma EscrowSlots(d: Dex, owner: Address, asset: Symbol, amount: nat, price: int, seller: Address)
    requires IdsDense(d) && EscrowOf(d, owner, asset, amount, price).Ok?
    ensures var e := EscrowOf(d, owner, asset, amount, price).value;
            && |ActiveIds(e, seller)| == |ActiveIds(d, seller)| + (if owner == seller then 1 else 0)
            && ListingsOf(e, seller) == (if owner == seller then Min(ListingsOf(d, seller) + 1, U32_MAX)
                                         else ListingsOf(d, seller))
  {
    hide ActiveIds;
    var id := d.count + 1;
    assert id !in d.offers;
    OpenActive(d, EscrowOf(d, owner, asset, amount, price).value, id,
               Offer(id, owner, asset, amount, price, true), seller);
  }

  /** What closing an active offer does to its seller's slots; the decrement never meets zero. */
  lemma CloseSlots(d: Dex, e: Dex, id: nat, seller: Address)
    requires id in d.offers && d.offers[id].active && id in e.offers && !e.offers[id].active
    requires e.offers == d.offers[id := e.offers[id]] && e.offers[id].seller == d.offers[id].seller
    requires e.listings == ReleaseSlot(d, d.offers[id].seller).listings
    requires SlotsExact(d, seller)
    ensures SlotsExact(e, seller)
    ensures d.offers[id].seller == seller ==> ListingsOf(d, seller) > 0
  {
    if d.offers[id].seller == seller {
      assert id in ActiveIds(d, seller);
      assert ActiveIds(e, seller) == ActiveIds(d, seller) - {id};
    } else {
      assert ActiveIds(e, seller) == ActiveIds(d, seller);
    }
  }

  lemma SameActive(d: Dex, e: Dex, seller: Address)
    requires e.listings == d.listings && e.offers.Keys == d.offers.Keys
    requires forall id :: id in d.offers ==>
               e.offers[id].active == d.offers[id].active && e.offers[id].seller == d.offers[id].seller
    ensures SlotsExact(d, seller) <==> SlotsExact(e, seller)
    ensures ActiveIds(e, seller) == ActiveIds(d, seller)
  {
    assert ActiveIds(e, seller) == ActiveIds(d, seller);
  }

  lemma TradeSlots(d: Dex, call: Call, seller: Address)
    requires SlotsExact(d, seller) && (call.Buy? || call.Sell? || call.Cancel?)
    ensures SlotsExact(Step(d, call), seller)
  {
    hide SlotsExact;
    var e := Step(d, call);
    if e != d {
      match call
      case Buy(buyer, id, amount, maxPrice) =>
        if amount == d.offers[id].amount { CloseSlots(d, e, id, seller); } else { SameActive(d, e, seller); }
      case Sell(_, _, _, _, _) => SameActive(d, e, seller);
      case Cancel(owner, id) => CloseSlots(d, e, id, seller);
    }
  }

  /** A call keeps the slot count exact unless it lists the seller's offer number 2^32. */
  lemma StepSlots(d: Dex, call: Call, seller: Address)
    requires IdsDense(d) && SlotsExact(d, seller) && ListingsOf(d, seller) <= U32_MAX
    ensures ListingsOf(Step(d, call), seller) <= U32_MAX
    ensures SlotsExact(Step(d, call), seller) <==> |ActiveIds(Step(d, call), seller)| <= U32_MAX
  {
    hide EscrowOf, BuyOf, SellOf, CancelOf, ActiveIds;
    if call.Buy? || call.Sell? || call.Cancel? {
      TradeSlots(d, call, seller);
      TradeListings(d, call, seller);
    } else {
      var asset := call.asset;
      var amount := if call.List? then call.amount else BalanceOf(d, call.seller, asset);
      if EscrowOf(d, call.seller, asset, amount, call.price).Ok? {
        EscrowSlots(d, call.seller, asset, amount, call.price, seller);
      }
    }
  }

  lemma TradeListings(d: Dex, call: Call, seller: Address)
    requires call.Buy? || call.Sell? || call.Cancel?
    ensures ListingsOf(Step(d, call), seller) <= ListingsOf(d, seller)
  {}

  /** An exchange whose slot counts are right to begin with, such as a new one. */
  ghost predicate SlotsReady(d: Dex, seller: Address) {
    IdsDense(d) && SlotsExact(d, seller) && ListingsOf(d, seller) <= U32_MAX
  }

  ghost predicate ExactThroughout(d: Dex, calls: seq<Call>, seller: Address) {
    forall n :: 0 <= n <= |calls| ==> SlotsExact(Run(d, calls[..n]), seller)
  }

  ghost predicate CountableThroughout(d: Dex, calls: seq<Call>, seller: Address) {
    forall n :: 0 <= n <= |calls| ==> |ActiveIds(Run(d, calls[..n]), seller)| <= U32_MAX
  }

  lemma {:induction false} SlotsReadyThroughout(d: Dex, calls: seq<Call>, seller: Address)
    requires SlotsReady(d, seller) && CountableThroughout(d, calls, seller)
    ensures SlotsReady(Run(d, calls), seller)
  {
    hide Step, ActiveIds, IdsDense;
    if calls != [] {
      var before := calls[..|calls| - 1];
      forall n | 0 <= n <= |before| ensures |ActiveIds(Run(d, before[..n]), seller)| <= U32_MAX {
        assert before[..n] == calls[..n];
      }
      SlotsReadyThroughout(d, before, seller);
      assert calls[..|calls|] == calls;
      StepKeepsIds(Run(d, before), calls[|calls| - 1]);
      StepSlots(Run(d, before), calls[|calls| - 1], seller);
    }
  }

  lemma {:induction false} ListingsAreU32(d: Dex, calls: seq<Call>, seller: Address)
    requires ListingsOf(d, seller) <= U32_MAX
    ensures ListingsOf(Run(d, calls), seller) <= U32_MAX
  {
    hide Step;
    if calls != [] {
      var before := calls[..|calls| - 1];
      ListingsAreU32(d, before, seller);
      StepListings(Run(d, before), calls[|calls| - 1], seller);
    }
  }

  lemma StepListings(d: Dex, call: Call, seller: Address)
    requires ListingsOf(d, seller) <= U32_MAX
    ensures ListingsOf(Step(d, call), seller) <= U32_MAX
  {}

  /**
   A seller's counter equals the number of active offers throughout a run exactly when that number
   stays within a u32 throughout, so no decrement ever saturates in such a run.
   */
  lemma SlotsExactExactly(d: Dex, calls: seq<Call>, seller: Address)
    requires SlotsReady(d, seller)
    ensures ExactThroughout(d, calls, seller) <==> CountableThroughout(d, calls, seller)
  {
    hide Run, ActiveIds, IdsDense;
    if CountableThroughout(d, calls, seller) {
      forall n | 0 <= n <= |calls| ensures SlotsExact(Run(d, calls[..n]), seller) {
        forall m | 0 <= m <= n ensures |ActiveIds(Run(d, calls[..n][..m]), seller)| <= U32_MAX {
          assert calls[..n][..m] == calls[..m];
        }
        SlotsReadyThroughout(d, calls[..n], seller);
      }
    }
    if ExactThroughout(d, calls, seller) {
      forall n | 0 <= n <= |calls| ensures |ActiveIds(Run(d, calls[..n]), seller)| <= U32_MAX {
        ListingsAreU32(d, calls[..n], seller);
      }
    }
  }

  function NthResource(i: nat): Symbol {
    Symbol(seq(i, _ => 'r'))
  }

  /** A new exchange with one unit of each of n resources in one hand. */
  function Hoard(seller: Address, n: nat): Dex {
    Dex(map i: nat | i < n :: Holding(seller, NthResource(i)) := 1, map[], 0, map[], map[])
  }

  function ListEach(seller: Address, n: nat): seq<Call> {
    seq(n, i requires 0 <= i => AutoList(seller, NthResource(i), 1))
  }

  /** After k of n resources were listed. */
  ghost predicate Listed(d: Dex, seller: Address, n: nat, k: nat) {
    && IdsDense(d) && d.count == k && |ActiveIds(d, seller)| == k && ListingsOf(d, seller) == Min(k, U32_MAX)
    && forall i: nat :: k <= i < n ==> BalanceOf(d, seller, NthResource(i)) == 1
  }

  lemma HoardUnlisted(seller: Address, n: nat)
    ensures Listed(Hoard(seller, n), seller, n, 0)
  {
    assert ActiveIds(Hoard(seller, n), seller) == {};
  }

  lemma ListOneMore(d: Dex, seller: Address, n: nat, k: nat)
    requires Listed(d, seller, n, k) && k < n <= U64_MAX
    ensures Listed(Step(d, AutoList(seller, NthResource(k), 1)), seller, n, k + 1)
  {
    hide ActiveIds, IdsDense, NthResource;
    var asset := NthResource(k);
    var e := Step(d, AutoList(seller, asset, 1));
    assert e == EscrowOf(d, seller, asset, 1, 1).value;
    EscrowSlots(d, seller, asset, 1, 1, seller);
    StepKeepsIds(d, AutoList(seller, asset, 1));
    forall i: nat | k + 1 <= i < n ensures BalanceOf(e, seller, NthResource(i)) == 1 {
      ResourcesDiffer(k, i);
    }
  }

  lemma ResourcesDiffer(i: nat, j: nat)
    requires i != j
    ensures NthResource(i) != NthResource(j)
  {
    assert |NthResource(i).text| == i && |NthResource(j).text| == j;
  }

  lemma {:induction false} ListEachLists(seller: Address, n: nat, k: nat)
    requires k <= n <= U64_MAX
    ensures Listed(Run(Hoard(seller, n), ListEach(seller, k)), seller, n, k)
    decreases k
  {
    hide Step, Listed, Hoard, NthResource;
    if k == 0 {
      HoardUnlisted(seller, n);
    } else {
      assert ListEach(seller, k)[..k - 1] == ListEach(seller, k - 1);
      ListEachLists(seller, n, k - 1);
      ListOneMore(Run(Hoard(seller, n), ListEach(seller, k - 1)), seller, n, k - 1);
    }
  }

  /** Listing 2^32 resources automatically on a new exchange leaves the counter one short of the active offers. */
  lemma SlotsPart(seller: Address) returns (d: Dex, calls: seq<Call>)
    ensures SlotsReady(d, seller) && d.offers == map[]
    ensures |ActiveIds(Run(d, calls), seller)| == U32_MAX + 1 && ListingsOf(Run(d, calls), seller) == U32_MAX
  {
    hide Run, ListEach, NthResource;
    d, calls := Hoard(seller, U32_MAX + 1), ListEach(seller, U32_MAX + 1);
    HoardUnlisted(seller, U32_MAX + 1);
    ListEachLists(seller, U32_MAX + 1, U32_MAX + 1);
  }

  /** A seller who only uses the capped path never has more than five active offers. */
  lemma {:induction false} CappedSellerHoldsFive(d: Dex, calls: seq<Call>, seller: Address)
    requires SlotsReady(d, seller) && |ActiveIds(d, seller)| <= MAX_LISTINGS
    requires forall i :: 0 <= i < |calls| ==> !(calls[i].AutoList? && calls[i].seller == seller)
    ensures SlotsReady(Run(d, calls), seller) && |ActiveIds(Run(d, calls), seller)| <= MAX_LISTINGS
  {
    hide Step, ActiveIds, IdsDense;
    if calls != [] {
      var before, call := calls[..|calls| - 1], calls[|calls| - 1];
      CappedSellerHoldsFive(d, before, seller);
      StepKeepsIds(Run(d, before), call);
      CappedStep(Run(d, before), call, seller);
      StepSlots(Run(d, before), call, seller);
    }
  }

  lemma CappedStep(d: Dex, call: Call, seller: Address)
    requires SlotsReady(d, seller) && |ActiveIds(d, seller)| <= MAX_LISTINGS
    requires !(call.AutoList? && call.seller == seller)
    ensures |ActiveIds(Step(d, call), seller)| <= MAX_LISTINGS
  {
    hide EscrowOf, BuyOf, SellOf, CancelOf, ActiveIds;
    if call.List? || call.AutoList? {
      var amount := if call.List? then call.amount else BalanceOf(d, call.seller, call.asset);
      if EscrowOf(d, call.seller, call.asset, amount, call.price).Ok? {
        EscrowSlots(d, call.seller, call.asset, amount, call.price, seller);
      }
    } else {
      TradeSlots(d, call, seller);
      TradeListings(d, call, seller);
    }
  }

  // ----- browsing -----------------------------------------------------------------------------------

  ghost predicate Ascending(offers: seq<Offer>) {
    forall i, j :: 0 <= i < j < |offers| ==> offers[i].id < offers[j].id
  }

  /** OffersIn holds exactly the active matching offers of its range, once each and in ID order. */
  lemma {:induction false} OffersInExact(d: Dex, resource: Option<Symbol>, lo: nat, hi: nat)
    requires IdsDense(d)
    ensures forall o :: o in OffersIn(d, resource, lo, hi) <==>
              lo < o.id <= hi && Matches(d, resource, o.id) && o == d.offers[o.id]
    ensures Ascending(OffersIn(d, resource, lo, hi))
    decreases hi
  {
    if lo < hi {
      OffersInExact(d, resource, lo, hi - 1);
      var front := OffersIn(d, resource, lo, hi - 1);
      assert forall i :: 0 <= i < |front| ==> front[i] in front && front[i].id < hi;
      if Matches(d, resource, hi) {
        assert OffersIn(d, resource, lo, hi) == front + [d.offers[hi]] && d.offers[hi].id == hi;
      } else {
        assert OffersIn(d, resource, lo, hi) == front;
      }
    }
  }

  lemma {:induction false} OffersInSplit(d: Dex, resource: Option<Symbol>, lo: nat, mid: nat, hi: nat)
    requires lo <= mid <= hi
    ensures OffersIn(d, resource, lo, hi) == OffersIn(d, resource, lo, mid) + OffersIn(d, resource, mid, hi)
    decreases hi
  {
    if mid < hi {
      OffersInSplit(d, resource, lo, mid, hi - 1);
    }
  }

  /** A page is cut at its limit and its scan, and moves on unless the limit is zero. */
  lemma {:induction false} PageEndBounds(d: Dex, resource: Option<Symbol>, start: nat, limit: nat, id: nat)
    requires start <= id && |OffersIn(d, resource, start, id)| <= limit
    ensures var end := PageEnd(d, resource, start, limit, id);
            && |OffersIn(d, resource, start, end)| <= limit
            && end <= Max(Max(id, d.count), start) && end <= Max(id, start + MAX_OFFER_SCAN)
            && (end < d.count ==> |OffersIn(d, resource, start, end)| == limit || end - start >= MAX_OFFER_SCAN)
    decreases MinusOrZero(d.count, id)
  {
    if id < d.count && |OffersIn(d, resource, start, id)| < limit && id - start < MAX_OFFER_SCAN {
      PageEndBounds(d, resource, start, limit, id + 1);
    }
  }

  /** The cursor moves exactly when the limit is at least one and there is something left to examine. */
  lemma PageMoves(d: Dex, resource: Option<Symbol>, start: nat, limit: nat)
    ensures PageOf(d, resource, start, limit).next == Some(start) <==> limit == 0 && start < d.count
    ensures PageOf(d, resource, start, limit).next.Some? ==>
              start <= PageOf(d, resource, start, limit).next.value < d.count
    ensures |PageOf(d, resource, start, limit).offers| <= Min(limit, MAX_OFFER_PAGE)
  {
    PageEndBounds(d, resource, start, Min(limit, MAX_OFFER_PAGE), start);
  }

  /** All offers met by following the cursor from `start`. */
  function Browse(d: Dex, resource: Option<Symbol>, start: nat, limit: nat): seq<Offer>
    requires limit > 0
    decreases MinusOrZero(d.count, start)
  {
    PageMoves(d, resource, start, limit);
    var page := PageOf(d, resource, start, limit);
    page.offers + if page.next.Some? then Browse(d, resource, page.next.value, limit) else []
  }

  /** Following the cursor ends and returns every active matching offer once, in ID order, whatever the page size. */
  lemma {:induction false} BrowseIsComplete(d: Dex, resource: Option<Symbol>, start: nat, limit: nat)
    requires limit > 0
    ensures Browse(d, resource, start, limit) == OffersIn(d, resource, start, d.count)
    decreases MinusOrZero(d.count, start)
  {
    hide OffersIn, PageEnd;
    PageMoves(d, resource, start, limit);
    PageEndBounds(d, resource, start, Min(limit, MAX_OFFER_PAGE), start);
    var page := PageOf(d, resource, start, limit);
    if page.next.Some? {
      BrowseIsComplete(d, resource, page.next.value, limit);
      OffersInSplit(d, resource, start, page.next.value, d.count);
    } else {
      var end := PageEnd(d, resource, start, Min(limit, MAX_OFFER_PAGE), start);
      NothingBeyond(d, resource, start, end);
    }
  }

  lemma NothingBeyond(d: Dex, resource: Option<Symbol>, start: nat, end: nat)
    requires d.count <= end <= Max(start, d.count) && start <= end
    ensures OffersIn(d, resource, start, end) == OffersIn(d, resource, start, d.count)
  {}
}
