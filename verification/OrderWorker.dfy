/**
 The order-event worker: stock is taken when an order is paid and put back when
 a paid order is cancelled, one transaction per event, with failed events
 retried a few times.
 */
module OrderWorker {
  import opened Collections

  datatype Status = Pending | Paid | Fulfilled | Shipped | Delivered | Cancelled

  datatype Item = Item(variant: string, quantity: int)

  datatype Event = Event(order: nat, from: Status, to: Status, items: seq<Item>, processed: bool, retries: nat)

  datatype Order = Order(status: Status, items: seq<Item>)

  type Stock = map<string, int>

  /** The order service's transition table. */
  predicate Legal(from: Status, to: Status) {
    match from
    case Pending => to in {Paid, Cancelled}
    case Paid => to in {Fulfilled, Cancelled}
    case Fulfilled => to in {Shipped, Cancelled}
    case Shipped => to == Delivered
    case _ => false
  }

  // ----- One event -----

  /** A decrement needs enough stock; every adjustment needs an inventory record. */
  function AdjustStock(stock: Stock, variant: string, delta: int): Option<Stock> {
    if variant !in stock || (delta < 0 && stock[variant] < -delta) then None
    else Some(stock[variant := stock[variant] + delta])
  }

  function Quantity(items: seq<Item>, variant: string): int {
    if items == [] then 0
    else
      var last := items[|items| - 1];
      Quantity(items[..|items| - 1], variant) + if last.variant == variant then last.quantity else 0
  }

  /** Cancelling from these states puts stock back. */
  predicate Restocks(from: Status) {
    from == Paid || from == Fulfilled
  }

  /** What an event does to the stock: take (-1), put back (1) or nothing (0). */
  function Sign(e: Event): int {
    if e.to == Paid then -1 else if e.to == Cancelled && Restocks(e.from) then 1 else 0
  }

  function Net(e: Event, variant: string): int {
    Sign(e) * Quantity(e.items, variant)
  }

  /** The stock after all items were adjusted in turn; None when one of them cannot be. */
  function AdjustAll(stock: Stock, items: seq<Item>, sign: int): Option<Stock> {
    if items == [] then Some(stock)
    else
      match AdjustAll(stock, items[..|items| - 1], sign)
      case None => None
      case Some(before) => AdjustStock(before, items[|items| - 1].variant, sign * items[|items| - 1].quantity)
  }

  ghost predicate NonNegative(stock: Stock) {
    forall v :: v in stock ==> stock[v] >= 0
  }

  lemma Distribute(sign: int, a: int, b: int)
    ensures sign * (a + b) == sign * a + sign * b
  {
  }

  lemma AdjustStockMoves(stock: Stock, variant: string, delta: int)
    requires AdjustStock(stock, variant, delta).Some?
    ensures var after := AdjustStock(stock, variant, delta).value;
            && after.Keys == stock.Keys
            && (forall v :: v in stock ==> after[v] == stock[v] + if v == variant then delta else 0)
            && (NonNegative(stock) ==> NonNegative(after))
  {
  }

  /** A transaction moves every variant by its total quantity and never drives one below zero. */
  lemma {:induction false} AdjustAllMoves(stock: Stock, items: seq<Item>, sign: int)
    requires AdjustAll(stock, items, sign).Some?
    ensures var after := AdjustAll(stock, items, sign).value;
            && after.Keys == stock.Keys
            && (forall v :: v in stock ==> after[v] == stock[v] + sign * Quantity(items, v))
            && (NonNegative(stock) ==> NonNegative(after))
  {
    if items != [] {
      var n := |items| - 1;
      AdjustAllMoves(stock, items[..n], sign);
      var before := AdjustAll(stock, items[..n], sign).value;
      var last := items[n];
      assert AdjustAll(stock, items, sign) == AdjustStock(before, last.variant, sign * last.quantity);
      AdjustStockMoves(before, last.variant, sign * last.quantity);
      forall v | v in stock ensures AdjustAll(stock, items, sign).value[v] == stock[v] + sign * Quantity(items, v) {
        Distribute(sign, Quantity(items[..n], v), if v == last.variant then last.quantity else 0);
      }
    }
  }

  /** Once an adjustment fails, the whole transaction fails. */
  lemma {:induction false} AdjustAllFails(stock: Stock, items: seq<Item>, sign: int, k: nat)
    requires k <= |items| && AdjustAll(stock, items[..k], sign).None?
    ensures AdjustAll(stock, items, sign).None?
    decreases |items| - k
  {
    if k == |items| {
      assert items[..k] == items;
    } else {
      assert items[..k + 1][..k] == items[..k];
      AdjustAllFails(stock, items, sign, k + 1);
    }
  }

  predicate SoldItems(items: seq<Item>) {
    forall item :: item in items ==> item.quantity >= 0
  }

  /** Every variant has an inventory record. */
  predicate Known(stock: Stock, items: seq<Item>) {
    forall item :: item in items ==> item.variant in stock
  }

  /** Every variant has a record, and enough stock for all its items together. */
  predicate Covered(stock: Stock, items: seq<Item>) {
    Known(stock, items)
    && forall item :: item in items && item.quantity > 0 ==> Quantity(items, item.variant) <= stock[item.variant]
  }

  lemma {:induction false} QuantityGrows(items: seq<Item>, v: string)
    requires SoldItems(items)
    ensures Quantity(items, v) >= 0
    ensures forall item :: item in items && item.variant == v ==> Quantity(items, v) >= item.quantity
  {
    if items != [] {
      var n := |items| - 1;
      QuantityGrows(items[..n], v);
      assert items == items[..n] + [items[n]];
    }
  }

  /** One more item is covered exactly when the items before it are and what they leave is enough. */
  lemma CoveredOneMore(stock: Stock, items: seq<Item>, last: Item)
    requires SoldItems(items + [last])
    ensures Covered(stock, items + [last]) <==>
              && Covered(stock, items) && last.variant in stock
              && (last.quantity > 0 ==> Quantity(items, last.variant) + last.quantity <= stock[last.variant])
  {
    var all := items + [last];
    assert all[..|items|] == items;
    assert forall item :: item in all <==> item in items || item == last;
    assert SoldItems(items);
    forall v ensures Quantity(all, v) == Quantity(items, v) + (if v == last.variant then last.quantity else 0) {
    }
    if Covered(stock, items) && last.variant in stock && last.quantity == 0 {
      assert forall item :: item in items && item.quantity > 0 ==> Quantity(all, item.variant) <= stock[item.variant];
    }
  }

  /** Taking non-negative quantities succeeds exactly when the stock covers all items together. */
  lemma {:induction false} TakingSucceeds(stock: Stock, items: seq<Item>)
    requires SoldItems(items)
    ensures AdjustAll(stock, items, -1).Some? <==> Covered(stock, items)
  {
    if items != [] {
      var n := |items| - 1;
      var last := items[n];
      assert items == items[..n] + [last];
      TakingSucceeds(stock, items[..n]);
      CoveredOneMore(stock, items[..n], last);
      if AdjustAll(stock, items[..n], -1).Some? {
        AdjustAllMoves(stock, items[..n], -1);
      }
    }
  }

  /** Putting non-negative quantities back succeeds exactly when every variant has a record. */
  lemma {:induction false} PuttingBackSucceeds(stock: Stock, items: seq<Item>)
    requires SoldItems(items)
    ensures AdjustAll(stock, items, 1).Some? <==> Known(stock, items)
  {
    if items != [] {
      var n := |items| - 1;
      assert items == items[..n] + [items[n]];
      PuttingBackSucceeds(stock, items[..n]);
      if AdjustAll(stock, items[..n], 1).Some? {
        AdjustAllMoves(stock, items[..n], 1);
      }
    }
  }

  /** A sold order's event succeeds when nothing else goes wrong and the stock allows what it does. */
  predicate Allowed(stock: Stock, e: Event) {
    && (e.to == Paid ==> Covered(stock, e.items))
    && (e.to == Cancelled && e.from in {Paid, Fulfilled} ==> Known(stock, e.items))
  }

  /** The stock after an event, or None when it fails; `fault` is a failure outside the stock rules. */
  function Apply(stock: Stock, e: Event, fault: bool): Option<Stock> {
    if fault then None
    else if Sign(e) == 0 then Some(stock)
    else AdjustAll(stock, e.items, Sign(e))
  }

  /** An event of non-negative quantities fails exactly at a fault or when the stock does not allow it. */
  lemma ApplySucceeds(stock: Stock, e: Event, fault: bool)
    requires SoldItems(e.items)
    ensures Apply(stock, e, fault).Some? <==> !fault && Allowed(stock, e)
  {
    TakingSucceeds(stock, e.items);
    PuttingBackSucceeds(stock, e.items);
  }

  lemma ApplyMoves(stock: Stock, e: Event, fault: bool)
    requires Apply(stock, e, fault).Some?
    ensures var after := Apply(stock, e, fault).value;
            && after.Keys == stock.Keys
            && (forall v :: v in stock ==> after[v] == stock[v] + Net(e, v))
            && (NonNegative(stock) ==> NonNegative(after))
  {
    if Sign(e) != 0 {
      AdjustAllMoves(stock, e.items, Sign(e));
    }
  }

  // ----- A batch -----

  datatype Batch = Batch(stock: Stock, events: seq<Event>, failed: seq<Event>)

  /** Each event on its own: a failed one leaves the stock alone and is reported. */
  function Process(stock: Stock, events: seq<Event>, faults: seq<bool>): Batch
    requires |faults| == |events|
  {
    if events == [] then Batch(stock, [], [])
    else
      var n := |events| - 1;
      var before := Process(stock, events[..n], faults[..n]);
      match Apply(before.stock, events[n], faults[n])
      case None => Batch(before.stock, before.events + [events[n]], before.failed + [events[n]])
      case Some(after) => Batch(after, before.events + [events[n].(processed := true)], before.failed)
  }

  function Total(events: seq<Event>, variant: string): int {
    if events == [] then 0 else Total(events[..|events| - 1], variant) + Net(events[|events| - 1], variant)
  }

  lemma {:induction false} TotalAppend(a: seq<Event>, b: seq<Event>, variant: string)
    ensures Total(a + b, variant) == Total(a, variant) + Total(b, variant)
  {
    if b == [] {
      assert a + b == a;
    } else {
      assert (a + b)[..|a + b| - 1] == a + b[..|b| - 1];
      TotalAppend(a, b[..|b| - 1], variant);
    }
  }

  /**
   A batch moves the stock by exactly the events that did not fail, and keeps it
   non-negative.
   */
  lemma {:induction false} ProcessMoves(stock: Stock, events: seq<Event>, faults: seq<bool>)
    requires |faults| == |events|
    ensures var b := Process(stock, events, faults);
            && b.stock.Keys == stock.Keys
            && (forall v :: v in stock ==> b.stock[v] == stock[v] + Total(events, v) - Total(b.failed, v))
            && (NonNegative(stock) ==> NonNegative(b.stock))
  {
    if events != [] {
      var n := |events| - 1;
      ProcessMoves(stock, events[..n], faults[..n]);
      var before := Process(stock, events[..n], faults[..n]);
      if Apply(before.stock, events[n], faults[n]).Some? {
        ApplyMoves(before.stock, events[n], faults[n]);
      } else {
        assert (before.failed + [events[n]])[..|before.failed|] == before.failed;
      }
    }
  }

  /** The events of a batch that took effect. */
  function Succeeded(stock: Stock, events: seq<Event>, faults: seq<bool>): seq<Event>
    requires |faults| == |events|
  {
    if events == [] then []
    else
      var n := |events| - 1;
      var before := Succeeded(stock, events[..n], faults[..n]);
      if Apply(Process(stock, events[..n], faults[..n]).stock, events[n], faults[n]).Some?
          then before + [events[n]] else before
  }

  /** Every event of a batch either took effect or is reported failed. */
  lemma {:induction false} ProcessPartitions(stock: Stock, events: seq<Event>, faults: seq<bool>)
    requires |faults| == |events|
    ensures multiset(events)
              == multiset(Process(stock, events, faults).failed) + multiset(Succeeded(stock, events, faults))
  {
    if events != [] {
      var n := |events| - 1;
      ProcessPartitions(stock, events[..n], faults[..n]);
      assert events == events[..n] + [events[n]];
    }
  }

  /** The event as the worker leaves it. */
  function Marked(stock: Stock, e: Event, fault: bool): Event {
    if Apply(stock, e, fault).Some? then e.(processed := true) else e
  }

  lemma {:induction false} ProcessLength(stock: Stock, events: seq<Event>, faults: seq<bool>)
    requires |faults| == |events|
    ensures |Process(stock, events, faults).events| == |events|
  {
    if events != [] {
      ProcessLength(stock, events[..|events| - 1], faults[..|events| - 1]);
    }
  }

  /** The event at position `i` is marked processed exactly when it took effect in its turn. */
  lemma {:induction false} ProcessMarks(stock: Stock, events: seq<Event>, faults: seq<bool>, i: nat)
    requires |faults| == |events| && i < |events|
    ensures i < |Process(stock, events, faults).events|
    ensures Process(stock, events, faults).events[i]
              == Marked(Process(stock, events[..i], faults[..i]).stock, events[i], faults[i])
  {
    var n := |events| - 1;
    ProcessLength(stock, events, faults);
    ProcessLength(stock, events[..n], faults[..n]);
    if i < n {
      assert events[..n][..i] == events[..i] && faults[..n][..i] == faults[..i];
      ProcessMarks(stock, events[..n], faults[..n], i);
    }
  }

  lemma {:induction false} FailedInTurn(stock: Stock, events: seq<Event>, faults: seq<bool>, i: nat)
    requires |faults| == |events| && i < |events|
    ensures Apply(Process(stock, events[..i], faults[..i]).stock, events[i], faults[i]).None? ==>
              events[i] in Process(stock, events, faults).failed
  {
    var n := |events| - 1;
    if i < n {
      assert events[..n][..i] == events[..i] && faults[..n][..i] == faults[..i];
      FailedInTurn(stock, events[..n], faults[..n], i);
    }
  }

  /**
   The event at position `i`, in the stock its predecessors leave, is processed exactly
   when there is no fault and the stock allows it.
   */
  lemma ProcessedInTurn(stock: Stock, events: seq<Event>, faults: seq<bool>, i: nat)
    requires |faults| == |events| && i < |events| && SoldItems(events[i].items)
    ensures var batch := Process(stock, events, faults);
            && |batch.events| == |events|
            && if !faults[i] && Allowed(Process(stock, events[..i], faults[..i]).stock, events[i])
               then batch.events[i] == events[i].(processed := true)
               else batch.events[i] == events[i] && events[i] in batch.failed
  {
    ProcessLength(stock, events, faults);
    ProcessMarks(stock, events, faults, i);
    FailedInTurn(stock, events, faults, i);
    ApplySucceeds(Process(stock, events[..i], faults[..i]).stock, events[i], faults[i]);
  }

  const RETRIES := 3

  /** Failed events go back to the queue until they were retried too often. */
  function Requeued(failed: seq<Event>): seq<Event> {
    if failed == [] then []
    else
      var last := failed[|failed| - 1];
      var before := Requeued(failed[..|failed| - 1]);
      if last.retries <= RETRIES then before + [last.(retries := last.retries + 1)] else before
  }

  function Dropped(failed: seq<Event>): seq<Event> {
    if failed == [] then []
    else
      var last := failed[|failed| - 1];
      var before := Dropped(failed[..|failed| - 1]);
      if last.retries <= RETRIES then before else before + [last]
  }

  /** Exactly the failed events that were retried at most three times go back, with one more retry. */
  lemma {:induction false} RequeuedAre(failed: seq<Event>, e: Event)
    ensures multiset(Requeued(failed))[e]
            == if 0 < e.retries <= 4 then multiset(failed)[e.(retries := e.retries - 1)] else 0
  {
    if failed != [] {
      var n := |failed| - 1;
      RequeuedAre(failed[..n], e);
      assert failed == failed[..n] + [failed[n]];
    }
  }

  /** Exactly the failed events that were retried more than three times are lost. */
  lemma {:induction false} DroppedAre(failed: seq<Event>, e: Event)
    ensures multiset(Dropped(failed))[e] == if e.retries > 3 then multiset(failed)[e] else 0
  {
    if failed != [] {
      var n := |failed| - 1;
      DroppedAre(failed[..n], e);
      assert failed == failed[..n] + [failed[n]];
    }
  }

  lemma {:induction false} RequeuedOrDropped(failed: seq<Event>, variant: string)
    ensures Total(Requeued(failed), variant) + Total(Dropped(failed), variant) == Total(failed, variant)
  {
    if failed != [] {
      var n := |failed| - 1;
      var last := failed[n];
      RequeuedOrDropped(failed[..n], variant);
      TotalAppend(Requeued(failed[..n]), [last.(retries := last.retries + 1)], variant);
      TotalAppend(Dropped(failed[..n]), [last], variant);
      assert Net(last.(retries := last.retries + 1), variant) == Net(last, variant);
      assert [last][..0] == [] && [last.(retries := last.retries + 1)][..0] == [];
    }
  }

  // ----- The worker -----

  datatype Shop = Shop(stock: Stock, orders: seq<Order>, queue: seq<Event>, lost: seq<Event>)

  function ConsumeStep(s: Shop, n: nat, faults: seq<bool>): Shop
    requires n <= |s.queue| && |faults| == n
  {
    var batch := Process(s.stock, s.queue[..n], faults);
    s.(stock := batch.stock, queue := s.queue[n..] + Requeued(batch.failed), lost := s.lost + Dropped(batch.failed))
  }

  /** The worker with its database and its queue; `lost` collects the events nobody will retry. */
  class Worker {
    var stock: Stock
    var queue: seq<Event>
    ghost var lost: seq<Event>

    constructor (stock: Stock)
      ensures this.stock == stock && queue == [] && lost == []
    {
      this.stock, queue, lost := stock, [], [];
    }

    /** All items in one transaction: nothing is kept unless every adjustment succeeds. */
    method ApplyStockDeltas(items: seq<Item>, sign: int) returns (ok: bool)
      modifies this`stock
      ensures ok <==> AdjustAll(old(stock), items, sign).Some?
      ensures SoldItems(items) && sign == -1 ==> (ok <==> Covered(old(stock), items))
      ensures SoldItems(items) && sign == 1 ==> (ok <==> Known(old(stock), items))
      ensures stock == if ok then AdjustAll(old(stock), items, sign).value else old(stock)
    {
      if SoldItems(items) {
        TakingSucceeds(stock, items);
        PuttingBackSucceeds(stock, items);
      }
      var working := stock;
      for i := 0 to |items|
        invariant stock == old(stock) && AdjustAll(stock, items[..i], sign) == Some(working)
      {
        assert items[..i + 1][..i] == items[..i];
        var adjusted := AdjustStock(working, items[i].variant, sign * items[i].quantity);
        if adjusted.None? {
          AdjustAllFails(stock, items, sign, i + 1);
          return false;
        }
        working := adjusted.value;
      }
      assert items[..|items|] == items;
      stock := working;
      return true;
    }

    method ProcessOrderEvents(events: seq<Event>, faults: seq<bool>) returns (after: seq<Event>, failed: seq<Event>)
      requires |faults| == |events|
      modifies this`stock
      ensures Process(old(stock), events, faults) == Batch(stock, after, failed)
      ensures |after| == |events| && forall i :: 0 <= i < |events| && SoldItems(events[i].items) ==>
                var before := Process(old(stock), events[..i], faults[..i]).stock;
                if !faults[i] && Allowed(before, events[i]) then after[i] == events[i].(processed := true)
                else after[i] == events[i] && events[i] in failed
    {
      after, failed := [], [];
      for i := 0 to |events|
        invariant Process(old(stock), events[..i], faults[..i]) == Batch(stock, after, failed)
      {
        assert events[..i + 1][..i] == events[..i] && faults[..i + 1][..i] == faults[..i];
        var event := events[i];
        var ok := !faults[i];
        if ok {
          if event.to == Paid {
            ok := ApplyStockDeltas(event.items, -1);
          } else if event.to == Cancelled && (event.from == Paid || event.from == Fulfilled) {
            ok := ApplyStockDeltas(event.items, 1);
          }
        }
        if ok {
          event := event.(processed := true);
        } else {
          failed := failed + [event];
        }
        after := after + [event];
      }
      assert events[..|events|] == events && faults[..|faults|] == faults;
      forall i | 0 <= i < |events| && SoldItems(events[i].items)
        ensures |after| == |events|
        ensures var before := Process(old(stock), events[..i], faults[..i]).stock;
                if !faults[i] && Allowed(before, events[i]) then after[i] == events[i].(processed := true)
                else after[i] == events[i] && events[i] in failed
      {
        ProcessedInTurn(old(stock), events, faults, i);
      }
      ProcessLength(old(stock), events, faults);
    }

    /** One turn of the consumer: a page of events, then the failed ones back into the queue. */
    method Consume(page: nat, faults: nat -> bool)
      modifies this
      ensures var n := if page < |old(queue)| then page else |old(queue)|;
              Shop(stock, [], queue, lost) == ConsumeStep(Shop(old(stock), [], old(queue), old(lost)), n,
                                                          seq(n, i requires 0 <= i < n => faults(i)))
      ensures page < |old(queue)| ==>
                |queue| >= |old(queue)| - page && queue[..|old(queue)| - page] == old(queue)[page..]
    {
      var n := if page < |queue| then page else |queue|;
      var events := queue[..n];
      queue := queue[n..];
      var after, failed := ProcessOrderEvents(events, seq(n, i requires 0 <= i < n => faults(i)));
      queue := queue + Requeued(failed);
      lost := lost + Dropped(failed);
    }
  }

  // ----- The whole shop: orders, events and stock -----

  /** The order's stock was taken and not put back. */
  predicate Holds(status: Status) {
    status in {Paid, Fulfilled, Shipped, Delivered}
  }

  function Held(orders: seq<Order>, variant: string): int {
    if orders == [] then 0
    else
      var last := orders[|orders| - 1];
      Held(orders[..|orders| - 1], variant) + if Holds(last.status) then Quantity(last.items, variant) else 0
  }

  function EventOf(s: Shop, order: nat, to: Status, reported: Status): Event
    requires order < |s.orders|
  {
    Event(order, reported, to, s.orders[order].items, false, 0)
  }

  /** A transition commits the new status and emits one event, carrying the status read beforehand. */
  function Transition(s: Shop, order: nat, to: Status, reported: Status): Shop
    requires order < |s.orders|
  {
    s.(orders := s.orders[order := s.orders[order].(status := to)],
        queue := s.queue + [EventOf(s, order, to, reported)])
  }

  /** A transition changes one order and queues one fresh event with its items behind all others. */
  lemma TransitionQueues(s: Shop, order: nat, to: Status, reported: Status)
    requires order < |s.orders|
    ensures var after := Transition(s, order, to, reported);
            && |after.orders| == |s.orders| && after.orders[order] == Order(to, s.orders[order].items)
            && (forall k :: 0 <= k < |s.orders| && k != order ==> after.orders[k] == s.orders[k])
            && after.queue == s.queue + [Event(order, reported, to, s.orders[order].items, false, 0)]
            && after.stock == s.stock && after.lost == s.lost
  {
  }

  /** An event disappears: a crash between the commit and the queue, or with a page in hand. */
  function Lose(s: Shop, k: nat): Shop
    requires k < |s.queue|
  {
    s.(queue := s.queue[..k] + s.queue[k + 1..], lost := s.lost + [s.queue[k]])
  }

  /** One thing that happens to the shop. A change of status carries the status its event reports. */
  datatype Step = NewOrder(items: seq<Item>) | Change(order: nat, to: Status, reported: Status)
                | Consumed(n: nat, faults: seq<bool>) | Lost(k: nat)

  predicate Enabled(s: Shop, step: Step) {
    match step
    case NewOrder(_) => true
    case Change(order, to, _) => order < |s.orders| && Legal(s.orders[order].status, to)
    case Consumed(n, faults) => n <= |s.queue| && |faults| == n
    case Lost(k) => k < |s.queue|
  }

  /**
   Orders can be placed at any time, changed by any legal transition whatever is
   reported, and consumed in any pages.
   */
  lemma RunsAreFree(s: Shop, items: seq<Item>, order: nat, to: Status, reported: Status, page: nat, faults: nat -> bool)
    ensures Enabled(s, NewOrder(items))
    ensures order < |s.orders| && Legal(s.orders[order].status, to) ==> Enabled(s, Change(order, to, reported))
    ensures var n := if page < |s.queue| then page else |s.queue|;
            Enabled(s, Consumed(n, seq(n, i requires 0 <= i < n => faults(i))))
    ensures page < |s.queue| ==> Enabled(s, Lost(page))
  {
  }

  function Take(s: Shop, step: Step): Shop
    requires Enabled(s, step)
  {
    match step
    case NewOrder(items) => s.(orders := s.orders + [Order(Pending, items)])
    case Change(order, to, reported) => Transition(s, order, to, reported)
    case Consumed(n, faults) => ConsumeStep(s, n, faults)
    case Lost(k) => Lose(s, k)
  }

  ghost predicate SameVariants(initial: Stock, s: Shop) {
    s.stock.Keys == initial.Keys
  }

  /**
   How far the books are off: stock, plus what queued and lost events would still do,
   against the initial stock less what orders hold.
   */
  ghost function Drift(initial: Stock, s: Shop, v: string): int
    requires SameVariants(initial, s) && v in initial
  {
    s.stock[v] + Total(s.queue, v) + Total(s.lost, v) - (initial[v] - Held(s.orders, v))
  }

  ghost predicate Balanced(initial: Stock, s: Shop) {
    SameVariants(initial, s) && forall v :: v in initial ==> Drift(initial, s, v) == 0
  }

  /** The reported status and the replaced one agree on whether cancelling restocks. */
  predicate Accurate(s: Shop, step: Step) {
    step.Change? && step.order < |s.orders| && step.to == Cancelled ==>
      (Restocks(step.reported) <==> Restocks(s.orders[step.order].status))
  }

  /** What a step adds to the drift: the order's quantity, if it is cancelled with an inaccurate report. */
  function Shift(s: Shop, step: Step, v: string): int {
    if Accurate(s, step) then 0
    else
      var q := Quantity(s.orders[step.order].items, v);
      if Restocks(step.reported) then q else -q
  }

  lemma {:induction false} HeldUpdate(orders: seq<Order>, k: nat, order: Order, variant: string)
    requires k < |orders|
    ensures Held(orders[k := order], variant) - Held(orders, variant)
            == (if Holds(order.status) then Quantity(order.items, variant) else 0)
               - (if Holds(orders[k].status) then Quantity(orders[k].items, variant) else 0)
  {
    var n := |orders| - 1;
    if k < n {
      assert orders[k := order][..n] == orders[..n][k := order];
      HeldUpdate(orders[..n], k, order, variant);
    } else {
      assert orders[k := order][..n] == orders[..n];
    }
  }

  /** A transition shifts the books by the order's quantity when its report is inaccurate, and not at all otherwise. */
  lemma TransitionShift(initial: Stock, s: Shop, order: nat, to: Status, reported: Status, v: string)
    requires SameVariants(initial, s) && order < |s.orders| && Legal(s.orders[order].status, to) && v in initial
    ensures Drift(initial, Transition(s, order, to, reported), v)
            == Drift(initial, s, v) + Shift(s, Change(order, to, reported), v)
  {
    var e := EventOf(s, order, to, reported);
    HeldUpdate(s.orders, order, s.orders[order].(status := to), v);
    TotalAppend(s.queue, [e], v);
    assert [e][..0] == [];
  }

  /**
   A transition keeps the balance exactly when its report is accurate or the
   order is worth nothing.
   */
  lemma StaleReportBreaksBalance(initial: Stock, s: Shop, order: nat, to: Status, reported: Status)
    requires Balanced(initial, s) && order < |s.orders| && Legal(s.orders[order].status, to)
    ensures Balanced(initial, Transition(s, order, to, reported)) <==>
              Accurate(s, Change(order, to, reported))
              || forall v :: v in initial ==> Quantity(s.orders[order].items, v) == 0
  {
    forall v | v in initial
      ensures Drift(initial, Transition(s, order, to, reported), v) == 0
              <==> Accurate(s, Change(order, to, reported)) || Quantity(s.orders[order].items, v) == 0
    {
      TransitionShift(initial, s, order, to, reported, v);
    }
  }

  /** Two requests racing: one pays the order, the other cancels it but reports the status it read before. */
  lemma StaleReportExample() returns (s: Shop, initial: Stock)
    ensures Balanced(initial, s) && s.orders == [Order(Paid, [Item("shirt", 1)])]
    ensures !Balanced(initial, Transition(s, 0, Cancelled, Pending))
  {
    initial := map["shirt" := 5];
    var order := Order(Paid, [Item("shirt", 1)]);
    assert [order][..0] == [] && order.items[..0] == [];
    assert Quantity([], "shirt") == 0 && Quantity(order.items, "shirt") == 1;
    assert Held([], "shirt") == 0;
    s := Shop(map["shirt" := 4], [order], [], []);
    assert Drift(initial, s, "shirt") == 0;
    StaleReportBreaksBalance(initial, s, 0, Cancelled, Pending);
    assert "shirt" in initial && Quantity(s.orders[0].items, "shirt") != 0;
  }

  lemma ConsumeKeepsDrift(initial: Stock, s: Shop, n: nat, faults: seq<bool>)
    requires SameVariants(initial, s) && n <= |s.queue| && |faults| == n
    ensures SameVariants(initial, ConsumeStep(s, n, faults))
    ensures forall v :: v in initial ==> Drift(initial, ConsumeStep(s, n, faults), v) == Drift(initial, s, v)
    ensures NonNegative(s.stock) ==> NonNegative(ConsumeStep(s, n, faults).stock)
  {
    var events := s.queue[..n];
    ProcessMoves(s.stock, events, faults);
    var failed := Process(s.stock, events, faults).failed;
    assert s.queue == events + s.queue[n..];
    forall v | v in initial
      ensures Total(s.queue, v) == Total(events, v) + Total(s.queue[n..], v)
      ensures Total(s.queue[n..] + Requeued(failed), v) == Total(s.queue[n..], v) + Total(Requeued(failed), v)
      ensures Total(s.lost + Dropped(failed), v) == Total(s.lost, v) + Total(Dropped(failed), v)
      ensures Total(Requeued(failed), v) + Total(Dropped(failed), v) == Total(failed, v)
    {
      TotalAppend(events, s.queue[n..], v);
      TotalAppend(s.queue[n..], Requeued(failed), v);
      TotalAppend(s.lost, Dropped(failed), v);
      RequeuedOrDropped(failed, v);
    }
  }

  lemma LoseKeepsDrift(initial: Stock, s: Shop, k: nat)
    requires SameVariants(initial, s) && k < |s.queue|
    ensures forall v :: v in initial ==> Drift(initial, Lose(s, k), v) == Drift(initial, s, v)
  {
    var e := s.queue[k];
    assert s.queue == s.queue[..k] + ([e] + s.queue[k + 1..]);
    assert [e][..0] == [];
    forall v | v in initial
      ensures Total(s.queue, v) == Total(s.queue[..k] + s.queue[k + 1..], v) + Net(e, v)
      ensures Total(s.lost + [e], v) == Total(s.lost, v) + Net(e, v)
    {
      TotalAppend(s.queue[..k], [e] + s.queue[k + 1..], v);
      TotalAppend([e], s.queue[k + 1..], v);
      TotalAppend(s.queue[..k], s.queue[k + 1..], v);
      TotalAppend(s.lost, [e], v);
    }
  }

  /** Every step shifts the books by exactly its shift, and keeps the stock non-negative. */
  lemma StepShifts(initial: Stock, s: Shop, step: Step)
    requires SameVariants(initial, s) && Enabled(s, step)
    ensures SameVariants(initial, Take(s, step))
    ensures forall v :: v in initial ==> Drift(initial, Take(s, step), v) == Drift(initial, s, v) + Shift(s, step, v)
    ensures NonNegative(s.stock) ==> NonNegative(Take(s, step).stock)
  {
    match step {
      case NewOrder(items) => assert Take(s, step).orders[..|s.orders|] == s.orders;
      case Change(order, to, reported) =>
        forall v | v in initial
          ensures Drift(initial, Take(s, step), v) == Drift(initial, s, v) + Shift(s, step, v)
        {
          TransitionShift(initial, s, order, to, reported, v);
        }
      case Consumed(n, faults) => ConsumeKeepsDrift(initial, s, n, faults);
      case Lost(k) => LoseKeepsDrift(initial, s, k);
    }
  }

  // ----- Whole runs -----

  ghost predicate TookAt(t: seq<Shop>, steps: seq<Step>, i: int)
    requires |t| == |steps| + 1 && 0 <= i < |steps|
  {
    Enabled(t[i], steps[i]) && t[i + 1] == Take(t[i], steps[i])
  }

  /** A run from a shop without orders; transitions may report any status. */
  ghost predicate History(t: seq<Shop>, steps: seq<Step>) {
    && |t| == |steps| + 1 && t[0].orders == [] && t[0].queue == [] && t[0].lost == []
    && forall i :: 0 <= i < |steps| ==> TookAt(t, steps, i)
  }

  /** The shifts of the first `i` steps. */
  function Shifts(t: seq<Shop>, steps: seq<Step>, i: nat, v: string): int
    requires |t| == |steps| + 1 && i <= |steps|
  {
    if i == 0 then 0 else Shifts(t, steps, i - 1, v) + Shift(t[i - 1], steps[i - 1], v)
  }

  /** At every moment the books are off by exactly the shifts so far; stock that started non-negative stays so. */
  lemma {:induction false} DriftIsShifts(t: seq<Shop>, steps: seq<Step>, i: nat)
    requires History(t, steps) && i < |t|
    ensures SameVariants(t[0].stock, t[i])
    ensures forall v :: v in t[0].stock ==> Drift(t[0].stock, t[i], v) == Shifts(t, steps, i, v)
    ensures NonNegative(t[0].stock) ==> NonNegative(t[i].stock)
  {
    if i > 0 {
      DriftIsShifts(t, steps, i - 1);
      assert TookAt(t, steps, i - 1);
      StepShifts(t[0].stock, t[i - 1], steps[i - 1]);
    }
  }

  /** At every moment the books balance exactly when the shifts so far cancel out. */
  lemma BalancedIffShiftsCancel(t: seq<Shop>, steps: seq<Step>, i: nat)
    requires History(t, steps) && i < |t|
    ensures Balanced(t[0].stock, t[i]) <==> forall v :: v in t[0].stock ==> Shifts(t, steps, i, v) == 0
  {
    DriftIsShifts(t, steps, i);
  }

  lemma {:induction false} AccurateNeverShifts(t: seq<Shop>, steps: seq<Step>, i: nat, v: string)
    requires |t| == |steps| + 1 && i <= |steps| && forall k :: 0 <= k < i ==> Accurate(t[k], steps[k])
    ensures Shifts(t, steps, i, v) == 0
  {
    if i > 0 {
      AccurateNeverShifts(t, steps, i - 1, v);
    }
  }

  /** While every report is accurate, the books balance at every moment. */
  lemma AlwaysBalanced(t: seq<Shop>, steps: seq<Step>, i: nat)
    requires History(t, steps) && i < |t| && forall k :: 0 <= k < i ==> Accurate(t[k], steps[k])
    ensures Balanced(t[0].stock, t[i])
  {
    forall v | v in t[0].stock ensures Shifts(t, steps, i, v) == 0 {
      AccurateNeverShifts(t, steps, i, v);
    }
    BalancedIffShiftsCancel(t, steps, i);
  }

  function Progress(status: Status): nat {
    match status
    case Pending => 0
    case Paid => 1
    case Fulfilled => 2
    case Shipped => 3
    case Delivered => 4
    case Cancelled => 5
  }

  /** The controller reads the status before the change: it reports one the order has had. */
  predicate ReportsThePast(s: Shop, step: Step) {
    step.Change? && step.order < |s.orders| ==> Progress(step.reported) <= Progress(s.orders[step.order].status)
  }

  /** A transition leads to a later status; a report of the status just read is one of the past. */
  lemma ProgressGrows(s: Shop, order: nat, to: Status)
    requires order < |s.orders| && Legal(s.orders[order].status, to)
    ensures ReportsThePast(s, Change(order, to, s.orders[order].status))
    ensures !ReportsThePast(s, Change(order, to, to))
  {
  }

  /** No order has a negative quantity of the variant. */
  predicate SellOnly(orders: seq<Order>, v: string) {
    forall order :: order in orders ==> Quantity(order.items, v) >= 0
  }

  lemma LastShiftLoses(t: seq<Shop>, steps: seq<Step>, j: nat, v: string)
    requires History(t, steps) && 0 < j < |t| && ReportsThePast(t[j - 1], steps[j - 1])
    requires SellOnly(t[j - 1].orders, v)
    ensures Shift(t[j - 1], steps[j - 1], v) <= 0
  {
    assert TookAt(t, steps, j - 1);
  }

  /** Reports of past statuses can only lose stock: the books never run ahead, and never recover by themselves. */
  lemma {:induction false} PastReportsOnlyLose(t: seq<Shop>, steps: seq<Step>, i: nat, j: nat, v: string)
    requires History(t, steps) && i <= j < |t|
    requires forall k :: 0 <= k < |steps| ==> ReportsThePast(t[k], steps[k])
    requires forall k :: 0 <= k < |t| ==> SellOnly(t[k].orders, v)
    ensures Shifts(t, steps, j, v) <= Shifts(t, steps, i, v) && Shifts(t, steps, i, v) <= 0
    decreases j
  {
    if i < j {
      PastReportsOnlyLose(t, steps, i, j - 1, v);
      LastShiftLoses(t, steps, j, v);
    } else if i > 0 {
      PastReportsOnlyLose(t, steps, i - 1, i - 1, v);
      LastShiftLoses(t, steps, i, v);
    }
  }

  /**
   With an empty queue the stock of a variant is the initial stock less what the
   orders hold, exactly when the lost events make up for the shifts; in
   particular when no event was lost and every report was accurate.
   */
  lemma SettledStock(t: seq<Shop>, steps: seq<Step>, i: nat, v: string)
    requires History(t, steps) && i < |t| && t[i].queue == [] && v in t[0].stock
    ensures v in t[i].stock
    ensures t[i].stock[v] == t[0].stock[v] - Held(t[i].orders, v) <==> Total(t[i].lost, v) == Shifts(t, steps, i, v)
    ensures t[i].lost == [] && (forall k :: 0 <= k < i ==> Accurate(t[k], steps[k])) ==>
              t[i].stock[v] == t[0].stock[v] - Held(t[i].orders, v)
  {
    DriftIsShifts(t, steps, i);
    if forall k :: 0 <= k < i ==> Accurate(t[k], steps[k]) {
      AccurateNeverShifts(t, steps, i, v);
    }
  }
}
