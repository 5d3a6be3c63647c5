/**
  The order decisions of `FuturesTrader` in trader/__init__.py: client
  order ids, the entry order `place_order` submits for a signal, and the
  stop-loss and take-profit orders `_place_collection_orders` adds after a
  market entry. Exchange calls, locks, logging and the state dictionary
  are not modelled; the random uuid, the mark price, the balance and the
  exchange's rounding rules come in as parameters.
 */
module Orders {
  import opened Wrappers
  import opened Text
  import opened Signals

  // ---------------------------------------------------------------------
  // OrderID

  /** The four kinds of client order id, told apart by their prefix. */
  datatype Kind = StopLoss | Target | Wait | Market

  function Prefix(k: Kind): (p: string)
    ensures |p| == 5
  {
    match k
    case StopLoss => "stop-"
    case Target => "trgt-"
    case Wait => "wait-"
    case Market => "mrkt-"
  }

  /**
    `OrderID.random(prefix)`: the prefix followed by what is left of the
    uuid text once as many leading characters as the prefix has are cut.
   */
  function RandomId(prefix: string, uuid: string): (id: string)
    ensures StartsWith(id, prefix)
    ensures |prefix| <= |uuid| ==> |id| == |uuid| && id[|prefix|..] == uuid[|prefix|..]
    ensures |uuid| < |prefix| ==> id == prefix
  {
    prefix + (if |prefix| <= |uuid| then uuid[|prefix|..] else "")
  }

  /** `OrderID.stop_loss()`, `target()`, `wait()` and `market()`. */
  function NewId(k: Kind, uuid: string): string {
    RandomId(Prefix(k), uuid)
  }

  /** `OrderID.is_stop_loss(i)`, `is_target`, `is_wait` and `is_market`. */
  predicate HasKind(id: string, k: Kind) {
    StartsWith(id, Prefix(k))
  }

  /** The kind an id was made with, if any. */
  function KindOf(id: string): (r: Option<Kind>)
    ensures forall k :: r == Some(k) <==> HasKind(id, k)
  {
    if HasKind(id, StopLoss) then Some(StopLoss)
    else if HasKind(id, Target) then Some(Target)
    else if HasKind(id, Wait) then Some(Wait)
    else if HasKind(id, Market) then Some(Market)
    else None
  }

  /** The four prefixes are different strings of the same length. */
  lemma PrefixInjective(k1: Kind, k2: Kind)
    ensures Prefix(k1) == Prefix(k2) ==> k1 == k2
  {
  }

  /** An id is recognised as exactly the kind it was made with. */
  lemma NewIdClassified(k: Kind, k2: Kind, uuid: string)
    ensures HasKind(NewId(k, uuid), k2) <==> k2 == k
    ensures KindOf(NewId(k, uuid)) == Some(k)
  {
    var id := NewId(k, uuid);
    assert id[..5] == Prefix(k);
    PrefixInjective(k, k2);
  }

  // ---------------------------------------------------------------------
  // Orders

  datatype Side = Buy | Sell

  function Opposite(s: Side): (r: Side)
    ensures r != s
  {
    if s == Buy then Sell else Buy
  }

  /** `OrderType`: the five order types the trader submits. */
  datatype OrderType = Limit | MarketOrder | Stop | StopMarket | TakeProfitMarket

  /** The parameters of one `futures_create_order` call; absent keys are `None`. */
  datatype Order = Order(
    symbol: string,
    side: Side,
    orderType: OrderType,
    clientId: string,
    quantity: Option<real>,
    price: Option<real>,
    stopPrice: Option<real>,
    closePosition: bool,
    goodTillCancel: bool)

  /** `f"{coin}USDT"` */
  function Symbol(coin: string): string {
    coin + "USDT"
  }

  // ---------------------------------------------------------------------
  // place_order

  /** What `place_order` does with a signal. */
  datatype EntryOutcome =
    | PriceUnavailable
    | MovedTooFar(signal: Signal)
    | Submit(order: Order, signal: Signal)

  /** The market has already passed the highest acceptable entry. */
  predicate TooLate(s: Signal, price: real)
    requires |s.targets| > 0
  {
    (IsLong(s) && price > MaxEntry(s)) || (IsShort(s) && price < MaxEntry(s))
  }

  /**
    The decision part of `place_order`: given the mark price (if the
    stream delivered one), the balance, a uuid and the symbol's rounding
    rules, the order to submit together with the corrected signal.
   */
  function EntryOrder(s: Signal, price: Option<real>, balance: real, uuid: string,
                      roundPrice: real -> real, roundQty: real -> real): (r: Result<EntryOutcome>)
    ensures price.None? <==> r == Success(PriceUnavailable)
    ensures price.Some? ==>
      (r == Failure(ZeroDivisionError) <==> s.leverage == 0 || price.value == 0.0)
    ensures price.Some? && s.leverage != 0 && price.value != 0.0 ==>
      (r == Failure(IndexError) <==> |s.targets| == 0)
    ensures r.Failure? ==> r.error == ZeroDivisionError || r.error == IndexError
    ensures price.Some? && price.value != 0.0 && s.leverage != 0 && |s.targets| > 0 && s.waitEntry ==>
      r.Success? && r.value.Submit?
    ensures r.Success? && r.value.MovedTooFar? ==>
      && price.Some? && price.value != 0.0 && !s.waitEntry
      && r.value.signal == Autocorrect(s, price.value)
      && TooLate(r.value.signal, price.value)
    ensures r.Success? && r.value.Submit? ==>
      var o, c := r.value.order, r.value.signal;
      && price.Some? && price.value != 0.0 && s.leverage != 0
      && c == Autocorrect(s, price.value) && |c.targets| > 0
      && o.symbol == Symbol(s.coin)
      && (o.side == Buy <==> IsLong(c))
      && HasKind(o.clientId, if s.waitEntry then Wait else Market)
      && o.quantity == Some(roundQty(balance * s.fraction * (s.leverage as real) / price.value))
      && !o.closePosition
      && (s.waitEntry ==>
            && o.orderType == Stop
            && o.stopPrice == Some(roundPrice(c.entry))
            && o.price == Some(roundPrice(MaxEntry(c))))
      && (!s.waitEntry ==>
            && o.orderType == MarketOrder && o.price.None? && o.stopPrice.None?
            && !TooLate(c, price.value))
  {
    if price.None? then Success(PriceUnavailable)
    else
      var p := price.value;
      if s.leverage == 0 || p == 0.0 then Failure(ZeroDivisionError)
      else
        var id := NewId(if s.waitEntry then Wait else Market, uuid);
        var qty := balance * s.fraction / (p / s.leverage as real);
        assert qty == balance * s.fraction * (s.leverage as real) / p by {
          MarginQuantity(balance * s.fraction, p, s.leverage as real);
        }
        var c := Autocorrect(s, p);
        var side := if IsLong(c) then Buy else Sell;
        var base := Order(Symbol(s.coin), side, MarketOrder, id, Some(roundQty(qty)), None, None, false, false);
        assert HasKind(id, if s.waitEntry then Wait else Market) by {
          NewIdClassified(if s.waitEntry then Wait else Market, if s.waitEntry then Wait else Market, uuid);
        }
        if |c.targets| == 0 then Failure(IndexError)
        else if s.waitEntry then
          Success(Submit(base.(orderType := Stop, stopPrice := Some(roundPrice(c.entry)),
                               price := Some(roundPrice(MaxEntry(c)))), c))
        else if TooLate(c, p) then Success(MovedTooFar(c))
        else Success(Submit(base, c))
  }

  /** `margin / (price / leverage)` is `margin * leverage / price`. */
  lemma MarginQuantity(margin: real, price: real, leverage: real)
    requires price != 0.0 && leverage != 0.0
    ensures margin / (price / leverage) == margin * leverage / price
  {
    assert (price / leverage) * leverage == price;
  }

  /**
    A market entry is sent exactly when the price has not passed the 20%
    mark towards the first target: a long buys at or below it, a short
    sells at or above it, and the order's side follows the direction of
    the corrected signal.
   */
  lemma MarketEntryWithinBound(s: Signal, price: real, balance: real, uuid: string,
                               roundPrice: real -> real, roundQty: real -> real)
    requires !s.waitEntry && price != 0.0 && s.leverage != 0 && |s.targets| > 0
    ensures var r, c := EntryOrder(s, Some(price), balance, uuid, roundPrice, roundQty), Autocorrect(s, price);
      && r.Success? && (r.value.Submit? || r.value.MovedTooFar?)
      && (r.value.Submit? <==> !TooLate(c, price))
      && (r.value.Submit? && IsLong(c) ==> r.value.order.side == Buy && price <= MaxEntry(c))
      && (r.value.Submit? && !IsLong(c) ==> r.value.order.side == Sell && price >= MaxEntry(c))
  {
    var c := Autocorrect(s, price);
    assert |c.targets| > 0;
  }

  /**
    A wait entry is always sent, whatever the price: a STOP order that
    triggers at the corrected entry and whose limit is the rounded highest
    acceptable entry, which lies between that entry and the first target.
   */
  lemma WaitEntrySubmitted(s: Signal, price: real, balance: real, uuid: string,
                           roundPrice: real -> real, roundQty: real -> real)
    requires s.waitEntry && price != 0.0 && s.leverage != 0 && |s.targets| > 0
    ensures var r, c := EntryOrder(s, Some(price), balance, uuid, roundPrice, roundQty), Autocorrect(s, price);
      && r.Success? && r.value.Submit? && r.value.signal == c
      && r.value.order.orderType == Stop
      && HasKind(r.value.order.clientId, Wait)
      && r.value.order.stopPrice == Some(roundPrice(c.entry))
      && r.value.order.price == Some(roundPrice(MaxEntry(c)))
      && (c.entry <= c.targets[0] ==> c.entry <= MaxEntry(c) <= c.targets[0])
      && (c.targets[0] <= c.entry ==> c.targets[0] <= MaxEntry(c) <= c.entry)
  {
    var c := Autocorrect(s, price);
    assert |c.targets| > 0;
  }

  // ---------------------------------------------------------------------
  // _place_collection_orders

  /** `MAX_TARGETS` */
  const MaxTargets: nat := 5

  /** The state the trader keeps for a filled entry order. */
  datatype Parent = Parent(
    symbol: string,
    side: Side,
    quantity: real,
    sl: real,
    targets: seq<real>,
    stopOrder: Option<string>,
    targetOrders: seq<string>)

  /**
    The stop-loss step of `_place_collection_orders`: unless one was
    placed already, a stop-market order on the other side that closes the
    whole position at the rounded stop-loss.
   */
  function StopLossOrder(p: Parent, uuid: string, roundPrice: real -> real): (r: Option<Order>)
    ensures r.None? <==> p.stopOrder.Some?
    ensures r.Some? ==>
      && r.value.symbol == p.symbol
      && r.value.side == Opposite(p.side)
      && r.value.orderType == StopMarket
      && HasKind(r.value.clientId, StopLoss)
      && r.value.stopPrice == Some(roundPrice(p.sl))
      && r.value.closePosition
      && r.value.quantity.None? && r.value.price.None?
  {
    if p.stopOrder.Some? then None
    else
      var id := NewId(StopLoss, uuid);
      NewIdClassified(StopLoss, StopLoss, uuid);
      Some(Order(p.symbol, Opposite(p.side), StopMarket, id, None, None, Some(roundPrice(p.sl)), true, false))
  }

  /**
    The take-profit order for the `i`-th target: a good-till-cancel limit
    order for an equal share of the quantity, except for the parent's last
    target, which closes the position with a take-profit-market order.
   */
  function TargetOrder(p: Parent, i: nat, uuid: string,
                       roundPrice: real -> real, roundQty: real -> real): (o: Order)
    requires i < |p.targets|
    ensures o.symbol == p.symbol && o.side == Opposite(p.side) && HasKind(o.clientId, Target)
    ensures o.orderType == Limit <==> i < |p.targets| - 1
    ensures o.orderType == TakeProfitMarket <==> i == |p.targets| - 1
    ensures o.closePosition <==> o.orderType == TakeProfitMarket
    ensures o.goodTillCancel <==> o.orderType == Limit
    ensures o.orderType == Limit ==>
      && o.price == Some(roundPrice(p.targets[i]))
      && o.quantity == Some(roundQty(p.quantity / |p.targets| as real))
      && o.stopPrice.None?
    ensures o.orderType == TakeProfitMarket ==>
      o.stopPrice == Some(roundPrice(p.targets[i])) && o.quantity.None? && o.price.None?
  {
    var id := NewId(Target, uuid);
    NewIdClassified(Target, Target, uuid);
    if i < |p.targets| - 1 then
      Order(p.symbol, Opposite(p.side), Limit, id,
            Some(roundQty(p.quantity / |p.targets| as real)), Some(roundPrice(p.targets[i])), None, false, true)
    else
      Order(p.symbol, Opposite(p.side), TakeProfitMarket, id,
            None, None, Some(roundPrice(p.targets[i])), true, false)
  }

  /**
    The take-profit step of `_place_collection_orders`: nothing when
    take-profit orders exist already, otherwise one order for each of the
    first `MAX_TARGETS` targets, each with a fresh uuid. The last-target
    test compares against the parent's full target list, so a parent with
    more than `MAX_TARGETS` targets gets no closing order.
   */
  function TargetPlan(p: Parent, uuids: nat -> string, roundPrice: real -> real, roundQty: real -> real)
    : (orders: seq<Order>)
    ensures |p.targetOrders| > 0 ==> orders == []
    ensures |p.targetOrders| == 0 ==> |orders| == if |p.targets| < MaxTargets then |p.targets| else MaxTargets
    ensures forall k :: 0 <= k < |orders| ==>
      && k < |p.targets|
      && orders[k].symbol == p.symbol
      && orders[k].side == Opposite(p.side)
      && HasKind(orders[k].clientId, Target)
      && (orders[k].orderType == Limit <==> k < |p.targets| - 1)
      && (orders[k].orderType == TakeProfitMarket <==> k == |p.targets| - 1)
      && (orders[k].closePosition <==> k == |p.targets| - 1)
      && (orders[k].goodTillCancel <==> orders[k].orderType == Limit)
      && (orders[k].orderType == Limit ==>
            && orders[k].price == Some(roundPrice(p.targets[k]))
            && orders[k].quantity == Some(roundQty(p.quantity / |p.targets| as real))
            && orders[k].stopPrice.None?)
      && (orders[k].orderType == TakeProfitMarket ==>
            && orders[k].stopPrice == Some(roundPrice(p.targets[k]))
            && orders[k].quantity.None? && orders[k].price.None?)
    ensures (exists k :: 0 <= k < |orders| && orders[k].closePosition)
        <==> |p.targetOrders| == 0 && 1 <= |p.targets| <= MaxTargets
  {
    if |p.targetOrders| > 0 then []
    else
      var n := if |p.targets| < MaxTargets then |p.targets| else MaxTargets;
      var orders := seq(n, k requires 0 <= k < n => TargetOrder(p, k, uuids(k), roundPrice, roundQty));
      assert forall k :: 0 <= k < n ==> orders[k] == TargetOrder(p, k, uuids(k), roundPrice, roundQty);
      ClosingTarget(p, orders);
      orders
  }

  /** A plan shaped as `TargetPlan` promises closes the position exactly when it reaches the last target. */
  lemma ClosingTarget(p: Parent, orders: seq<Order>)
    requires |p.targetOrders| > 0 ==> orders == []
    requires |p.targetOrders| == 0 ==> |orders| == if |p.targets| < MaxTargets then |p.targets| else MaxTargets
    requires forall k :: 0 <= k < |orders| ==> k < |p.targets| && (orders[k].closePosition <==> k == |p.targets| - 1)
    ensures (exists k :: 0 <= k < |orders| && orders[k].closePosition)
        <==> |p.targetOrders| == 0 && 1 <= |p.targets| <= MaxTargets
  {
    if |p.targetOrders| == 0 && 1 <= |p.targets| <= MaxTargets {
      assert orders[|p.targets| - 1].closePosition;
    }
  }

  /** The record `place_order` stores for a submitted entry once the exchange reports the filled quantity. */
  function ParentOf(o: Order, c: Signal, filled: real): Parent {
    Parent(o.symbol, o.side, filled, c.sl, c.targets, None, [])
  }

  /**
    After a market entry the position is protected: the stop-loss order
    sells a long and buys back a short, at the corrected stop-loss, and
    closes the whole position.
   */
  lemma MarketEntryProtected(s: Signal, price: real, balance: real, uuid: string, slUuid: string,
                             filled: real, roundPrice: real -> real, roundQty: real -> real)
    requires !s.waitEntry && price != 0.0 && s.leverage != 0 && |s.targets| > 0
    ensures var r := EntryOrder(s, Some(price), balance, uuid, roundPrice, roundQty);
      r.Success? && r.value.Submit? ==>
      var stop := StopLossOrder(ParentOf(r.value.order, r.value.signal, filled), slUuid, roundPrice);
      && stop.Some?
      && (stop.value.side == Sell <==> IsLong(r.value.signal))
      && stop.value.stopPrice == Some(roundPrice(r.value.signal.sl))
      && stop.value.closePosition
  {
  }
}
