/** The order routes, the payment routes, the event processor, the webhook handler and the
    jobs as code over the shared tables, each proved against Orders and Payments. */
module PaymentStore {
  import opened Prelude
  import opened Orders
  import opened Payments
  import PaymentRuns
  import opened PaymentMeanings

  class Store {
    var orders: seq<Order>
    var logs: seq<LogRow>
    var intents: seq<Intent>
    var payments: seq<Payment>
    var refunds: seq<RefundRow>
    var events: seq<EventRow>
    ghost var commits: seq<EventKey>

    constructor ()
      ensures State() == Database(Book([], []), [], [], [], [], [])
    {
      orders, logs, intents, payments, refunds, events, commits := [], [], [], [], [], [], [];
    }

    ghost function OrderBook(): Book
      reads this`orders, this`logs
    {
      Book(orders, logs)
    }

    ghost function State(): Database
      reads this
    {
      Database(OrderBook(), intents, payments, refunds, events, commits)
    }

    // ---- user routes ----

    method HandleCreate(actor: Actor, complete: bool, host: nat, experience: nat, startTime: int, now: int) returns (reply: Reply)
      modifies this`orders, this`logs
      ensures reply == Accepted <==> complete && actor.role == TravelerRole
      ensures reply == Accepted ==> HasBooking(OrderBook(), actor.profile, host, experience, startTime)
      ensures if reply == Accepted && !old(HasBooking(OrderBook(), actor.profile, host, experience, startTime))
              then Opened(old(OrderBook()), OrderBook(), actor.profile, host, experience, startTime, now) else OrderBook() == old(OrderBook())
      ensures Orders.Inv(old(OrderBook())) ==> Orders.Inv(OrderBook())
      ensures Result(OrderBook(), reply) == Create(old(OrderBook()), actor, complete, host, experience, startTime, now)
    {
      hide History, Orders.Inv, Opened;
      CreateMeans(OrderBook(), actor, complete, host, experience, startTime, now);
      if Orders.Inv(OrderBook()) {
        CreateKeepsInv(OrderBook(), actor, complete, host, experience, startTime, now);
      }
      if !complete {
        return InvalidInput;
      }
      if actor.role != TravelerRole {
        return Forbidden;
      }
      if exists o :: o in orders && SameBooking(o, actor.profile, host, experience, startTime) {
        return Accepted;
      }
      var id := |orders|;
      orders := orders + [Order(actor.profile, host, experience, startTime, now, PendingPayment, Unpaid, None)];
      logs := logs + [LogRow(id, None, orders[id].status)];
      reply := Accepted;
    }

    method HandleMarkPaid(actor: Actor, id: nat, now: int) returns (reply: Reply)
      modifies this`orders, this`logs
      ensures reply == Accepted <==>
              id < |old(orders)| && IsTravelerOf(actor, old(orders)[id]) && old(orders)[id].payment == Unpaid
              && old(orders)[id].status !in {CancelledRefunded, CancelledByTraveler, Completed}
      ensures if reply == Accepted then PaidUp(old(OrderBook()), OrderBook(), id, now) else OrderBook() == old(OrderBook())
      ensures Orders.Inv(old(OrderBook())) ==> Orders.Inv(OrderBook())
      ensures Result(OrderBook(), reply) == MarkPaid(old(OrderBook()), actor, id, now)
    {
      hide History, Orders.Inv, PaidUp;
      MarkPaidMeans(OrderBook(), actor, id, now);
      if Orders.Inv(OrderBook()) {
        HandleKeepsInv(OrderBook(), actor, MarkPaidRoute(id), now);
      }
      if actor.role != TravelerRole {
        return Forbidden;
      }
      if id >= |orders| {
        return NotFound;
      }
      var order := orders[id];
      if order.payment != Unpaid {
        return InvalidTransition;
      }
      if order.traveler != actor.profile {
        return Forbidden;
      }
      if order.status == CancelledRefunded || order.status == CancelledByTraveler || order.status == Completed {
        return InvalidTransition;
      }
      var nextStatus := if order.status == PendingPayment then PendingHostConfirm else order.status;
      orders := orders[id := order.(payment := Paid, status := nextStatus, paidAt := Some(now))];
      if nextStatus != order.status {
        logs := logs + [LogRow(id, Some(order.status), nextStatus)];
      }
      reply := Accepted;
    }

    method HandleAccept(actor: Actor, id: nat) returns (reply: Reply)
      modifies this`orders, this`logs
      ensures reply == Accepted <==> id < |old(orders)| && Authorised(actor, old(orders)[id], Confirmed)
      ensures if reply == Accepted then MovedTo(old(OrderBook()), OrderBook(), id, Confirmed, old(orders)[id].payment)
              else OrderBook() == old(OrderBook())
      ensures Orders.Inv(old(OrderBook())) ==> Orders.Inv(OrderBook())
      ensures Result(OrderBook(), reply) == Accept(old(OrderBook()), actor, id)
    {
      hide Orders.Inv, MovedTo;
      SteerMeans(OrderBook(), actor, id, Confirmed);
      if Orders.Inv(OrderBook()) {
        HandleKeepsInv(OrderBook(), actor, AcceptRoute(id), 0);
      }
      if id >= |orders| {
        return NotFound;
      }
      var order := orders[id];
      if actor.role != HostRole || order.host != actor.profile {
        return Forbidden;
      }
      if !actor.approved {
        return HostNotApproved;
      }
      if order.payment != Paid {
        return PaymentRequired;
      }
      if order.status != PendingHostConfirm {
        return InvalidTransition;
      }
      orders := orders[id := order.(status := Confirmed)];
      logs := logs + [LogRow(id, Some(order.status), Confirmed)];
      reply := Accepted;
    }

    method HandleReject(actor: Actor, id: nat) returns (reply: Reply)
      modifies this`orders, this`logs
      ensures reply == Accepted <==> id < |old(orders)| && Authorised(actor, old(orders)[id], CancelledRefunded)
      ensures if reply == Accepted then MovedTo(old(OrderBook()), OrderBook(), id, CancelledRefunded, PaymentOn(old(orders)[id], CancelledRefunded))
              else OrderBook() == old(OrderBook())
      ensures Orders.Inv(old(OrderBook())) ==> Orders.Inv(OrderBook())
      ensures Result(OrderBook(), reply) == Reject(old(OrderBook()), actor, id)
    {
      hide Orders.Inv, MovedTo;
      SteerMeans(OrderBook(), actor, id, CancelledRefunded);
      if Orders.Inv(OrderBook()) {
        HandleKeepsInv(OrderBook(), actor, RejectRoute(id), 0);
      }
      if id >= |orders| {
        return NotFound;
      }
      var order := orders[id];
      if actor.role != HostRole || order.host != actor.profile {
        return Forbidden;
      }
      if !actor.approved {
        return HostNotApproved;
      }
      if order.status != PendingHostConfirm {
        return InvalidTransition;
      }
      var nextPayment := if order.payment == Paid then Refunded else order.payment;
      orders := orders[id := order.(status := CancelledRefunded, payment := nextPayment)];
      logs := logs + [LogRow(id, Some(order.status), CancelledRefunded)];
      reply := Accepted;
    }

    method HandleCancel(actor: Actor, id: nat) returns (reply: Reply)
      modifies this`orders, this`logs
      ensures reply == Accepted <==> id < |old(orders)| && Authorised(actor, old(orders)[id], CancelledByTraveler)
      ensures if reply == Accepted then MovedTo(old(OrderBook()), OrderBook(), id, CancelledByTraveler, PaymentOn(old(orders)[id], CancelledByTraveler))
              else OrderBook() == old(OrderBook())
      ensures Orders.Inv(old(OrderBook())) ==> Orders.Inv(OrderBook())
      ensures Result(OrderBook(), reply) == Cancel(old(OrderBook()), actor, id)
    {
      hide Orders.Inv, MovedTo;
      SteerMeans(OrderBook(), actor, id, CancelledByTraveler);
      if Orders.Inv(OrderBook()) {
        HandleKeepsInv(OrderBook(), actor, CancelRoute(id), 0);
      }
      if id >= |orders| {
        return NotFound;
      }
      var order := orders[id];
      if actor.role != TravelerRole || order.traveler != actor.profile {
        return Forbidden;
      }
      if order.status == Completed || order.status == InService {
        return InvalidTransition;
      }
      var nextPayment := if order.payment == Paid then Refunded else order.payment;
      orders := orders[id := order.(status := CancelledByTraveler, payment := nextPayment)];
      logs := logs + [LogRow(id, Some(order.status), CancelledByTraveler)];
      reply := Accepted;
    }

    method HandleStart(actor: Actor, id: nat) returns (reply: Reply)
      modifies this`orders, this`logs
      ensures reply == Accepted <==> id < |old(orders)| && Authorised(actor, old(orders)[id], InService)
      ensures if reply == Accepted then MovedTo(old(OrderBook()), OrderBook(), id, InService, old(orders)[id].payment)
              else OrderBook() == old(OrderBook())
      ensures Orders.Inv(old(OrderBook())) ==> Orders.Inv(OrderBook())
      ensures Result(OrderBook(), reply) == Start(old(OrderBook()), actor, id)
    {
      hide Orders.Inv, MovedTo;
      SteerMeans(OrderBook(), actor, id, InService);
      if Orders.Inv(OrderBook()) {
        HandleKeepsInv(OrderBook(), actor, StartRoute(id), 0);
      }
      if id >= |orders| {
        return NotFound;
      }
      var order := orders[id];
      if actor.profile != order.host && actor.profile != order.traveler {
        return Forbidden;
      }
      if actor.role == HostRole && !actor.approved {
        return HostNotApproved;
      }
      if order.status != Confirmed {
        return InvalidTransition;
      }
      orders := orders[id := order.(status := InService)];
      logs := logs + [LogRow(id, Some(order.status), InService)];
      reply := Accepted;
    }

    method HandleEnd(actor: Actor, id: nat) returns (reply: Reply)
      modifies this`orders, this`logs
      ensures reply == Accepted <==> id < |old(orders)| && Authorised(actor, old(orders)[id], Completed)
      ensures if reply == Accepted then MovedTo(old(OrderBook()), OrderBook(), id, Completed, old(orders)[id].payment)
              else OrderBook() == old(OrderBook())
      ensures Orders.Inv(old(OrderBook())) ==> Orders.Inv(OrderBook())
      ensures Result(OrderBook(), reply) == End(old(OrderBook()), actor, id)
    {
      hide Orders.Inv, MovedTo;
      SteerMeans(OrderBook(), actor, id, Completed);
      if Orders.Inv(OrderBook()) {
        HandleKeepsInv(OrderBook(), actor, EndRoute(id), 0);
      }
      if id >= |orders| {
        return NotFound;
      }
      var order := orders[id];
      if actor.profile != order.host && actor.profile != order.traveler {
        return Forbidden;
      }
      if actor.role == HostRole && !actor.approved {
        return HostNotApproved;
      }
      if order.status != InService {
        return InvalidTransition;
      }
      orders := orders[id := order.(status := Completed)];
      logs := logs + [LogRow(id, Some(order.status), Completed)];
      reply := Accepted;
    }

    // ---- the timeout job ----

    method AutoCloseUnconfirmed(now: int)
      modifies this`orders, this`logs
      ensures OrderBook() == AutoClose(old(OrderBook()), now)
    {
      var unpaid := orders;
      for k := 0 to |unpaid|
        invariant |orders| == |unpaid| && old(OrderBook()).orders == unpaid
        invariant OrderBook() == CloseUnpaidUpTo(old(OrderBook()), k, now)
      {
        if unpaid[k].status == PendingPayment && unpaid[k].createdAt < now - HALF_HOUR {
          orders := orders[k := orders[k].(status := CancelledByTraveler)];
          logs := logs + [LogRow(k, Some(unpaid[k].status), CancelledByTraveler)];
        }
      }
      var rows := orders;
      ghost var first := OrderBook();
      for k := 0 to |rows|
        invariant |orders| == |rows| && first.orders == rows
        invariant OrderBook() == CloseUnconfirmedUpTo(first, k, now)
      {
        if rows[k].status == PendingHostConfirm && rows[k].createdAt < now - TWELVE_HOURS {
          orders := orders[k := orders[k].(status := CancelledRefunded, payment := Refunded)];
          logs := logs + [LogRow(k, Some(rows[k].status), CancelledRefunded)];
        }
      }
    }

    // ---- the event processor ----

    /** By provider_intent_id, else the newest processing intent of the provider. */
    method FindPaidIntent(ev: Event, row: nat) returns (found: Option<nat>)
      ensures found == IntentPaid(State(), ev, row)
    {
      found := Newest(intents, (i: Intent) => Same(i.providerIntentId, ev.intentRef));
      if found.None? {
        found := Newest(intents, (i: Intent) => i.provider == ev.provider && i.status == Processing);
      } else if row < |intents| && Same(intents[row].providerIntentId, ev.intentRef) {
        found := Some(row);
      }
    }

    method HandlePaymentSucceeded(ev: Event, row: nat, now: int) returns (done: bool)
      modifies this`intents, this`payments, this`orders, this`logs
      ensures Outcome(State(), done) == OnPaymentSucceeded(old(State()), ev, row, now)
    {
      hide IntentPaid, TxnTaken;
      var found := FindPaidIntent(ev, row);
      if found.None? {
        return false;
      }
      TxnTakenMeans(State(), ev);
      var intent := intents[found.value];
      if intent.order >= |orders| {
        return false;
      }
      var id, order := intent.order, orders[intent.order];
      intents := intents[found.value := intent.(status := IntentSucceeded, updatedAt := now)];
      if !(ev.txn.Some? && exists p :: p in payments && p.provider == ev.provider && p.txn == ev.txn) {
        payments := payments + [Payment(id, found.value, ev.provider, ev.txn)];
      }
      var nextStatus := if order.status == PendingPayment then PendingHostConfirm else order.status;
      orders := orders[id := order.(payment := Paid, status := nextStatus, paidAt := Some(now))];
      if nextStatus != order.status {
        logs := logs + [LogRow(id, Some(order.status), nextStatus)];
      }
      done := true;
    }

    method HandleRefundSucceeded(ev: Event) returns (done: bool)
      modifies this`refunds, this`orders
      ensures Outcome(State(), done) == OnRefundSucceeded(old(State()), ev)
    {
      var found := RefundMeant(Database(Book(orders, logs), intents, payments, refunds, events, []), ev);
      assert found == RefundMeant(State(), ev);
      if found.None? || refunds[found.value].order >= |orders| {
        return false;
      }
      var refund := refunds[found.value];
      if ev.refundRef.Some? && exists j :: 0 <= j < |refunds| && j != found.value && refunds[j].providerRefundId == ev.refundRef {
        return false;
      }
      refunds := refunds[found.value := refund.(status := RefundDone, providerRefundId := ev.refundRef)];
      orders := orders[refund.order := orders[refund.order].(payment := Refunded)];
      done := true;
    }

    method ProcessEvent(ev: Event, row: nat, now: int, fault: Fault) returns (done: bool)
      modifies this`intents, this`payments, this`refunds, this`orders, this`logs
      ensures PaymentRuns.Linked(old(State())) ==> EventMeans(old(State()), ev, now, fault, State(), done)
      ensures Outcome(State(), done) == Process(old(State()), ev, row, now, fault)
    {
      hide EventMeans, PaymentRuns.Linked;
      if PaymentRuns.Linked(State()) {
        ProcessMeans(State(), ev, row, now, fault);
      }
      match ev.kind
      case PaymentSucceeded =>
        if fault != NoFault {
          return false;
        }
        done := HandlePaymentSucceeded(ev, row, now);
      case PaymentFailed =>
        var found := FindIntent(ev);
        if fault != NoFault || found.None? {
          return false;
        }
        intents := intents[found.value := intents[found.value].(status := IntentFailed, updatedAt := now)];
        done := true;
      case PaymentRequiresAction =>
        if fault == Early {
          return false;
        }
        var found := FindIntent(ev);
        if found.None? {
          return true;
        }
        intents := intents[found.value := intents[found.value].(status := RequiresAction, updatedAt := now)];
        done := fault == NoFault;
      case RefundSucceeded =>
        if fault != NoFault {
          return false;
        }
        done := HandleRefundSucceeded(ev);
      case RefundFailed =>
        if fault == Early {
          return false;
        }
        var found := FindRefund(ev);
        if found.None? {
          return true;
        }
        refunds := refunds[found.value := refunds[found.value].(status := RefundRefused)];
        done := fault == NoFault;
      case UnknownKind =>
        done := true;
    }

    method FindIntent(ev: Event) returns (found: Option<nat>)
      ensures found == IntentMeant(State(), ev)
    {
      found := Newest(intents, (i: Intent) => Same(i.providerIntentId, ev.intentRef) || (i.provider == ev.provider && i.status == Processing));
    }

    method FindRefund(ev: Event) returns (found: Option<nat>)
      ensures found == RefundMeant(State(), ev)
    {
      found := Newest(refunds, (r: RefundRow) => Same(r.providerRefundId, ev.refundRef) || (r.provider == ev.provider && r.status == RefundProcessing));
    }

    // ---- the event store ----

    /** Insert unless the key exists. */
    method StoreEvent(provider: string, ev: Event) returns (isNew: bool, k: nat)
      modifies this`events
      ensures isNew <==> !Stored(old(State()), EventKey(provider, ev.eventId))
      ensures isNew ==> k == |old(events)| && events == old(events) + [EventRow(provider, ev, Received, 0)]
      ensures !isNew ==> events == old(events) && EventAt(State(), EventKey(provider, ev.eventId)) == Some(k)
    {
      var found := Newest(events, (e: EventRow) => KeyOf(e) == EventKey(provider, ev.eventId));
      assert found == EventAt(State(), EventKey(provider, ev.eventId));
      if found.Some? {
        return false, found.value;
      }
      isNew, k := true, |events|;
      events := events + [EventRow(provider, ev, Received, 0)];
    }

    /** processEvent, then the mark of its outcome. */
    method ProcessAndMark(k: nat, ev: Event, row: nat, now: int, fault: Fault, failed: EventRow) returns (done: bool)
      requires k < |events|
      modifies this
      ensures Outcome(State(), done) == ProcessRow(old(State()), k, ev, row, now, fault, failed)
    {
      done := ProcessEvent(ev, row, now, fault);
      if done {
        commits := commits + [KeyOf(events[k])];
        events := events[k := events[k].(status := Processed)];
      } else {
        events := events[k := failed];
      }
    }

    method ProcessSyncEvent(ev: Event, row: nat, now: int, fault: Fault)
      modifies this
      ensures PaymentRuns.Linked(old(State())) ==> DeliveryMeans(old(State()), ev.provider, ev, now, fault, State())
      ensures State() == Deliver(old(State()), ev.provider, ev, row, now, fault)
    {
      hide DeliveryMeans, PaymentRuns.Linked;
      if PaymentRuns.Linked(State()) {
        DeliverMeans(State(), ev.provider, ev, row, now, fault);
      }
      var isNew, k := StoreEvent(ev.provider, ev);
      if !isNew {
        return;
      }
      var done := ProcessAndMark(k, ev, row, now, fault, events[k].(status := Failed));
    }

    method ReceiveWebhook(provider: string, checked: Checked, row: nat, now: int, fault: Fault) returns (reply: WebhookReply)
      modifies this
      ensures PaymentRuns.Linked(old(State())) ==> WebhookMeans(old(State()), provider, checked, now, fault, State(), reply)
      ensures (State(), reply) == HandleWebhook(old(State()), provider, checked, row, now, fault)
    {
      hide WebhookMeans, PaymentRuns.Linked;
      if PaymentRuns.Linked(State()) {
        HandleWebhookMeans(State(), provider, checked, row, now, fault);
      }
      match checked
      case NoProvider => reply := UnknownProvider;
      case BadSignature => reply := InvalidSignature;
      case Good(ev) =>
        if ev.eventId == "" {
          return MissingEventId;
        }
        var isNew, k := StoreEvent(provider, ev);
        if !isNew {
          return Duplicate;
        }
        assert events[k] == EventRow(provider, ev, Received, 0);
        var done := ProcessAndMark(k, ev, row, now, fault, events[k].(status := Failed));
        reply := if done then Done else ProcessingFailed;
    }

    method RetryFailed(maxRetries: int, limit: nat, now: int, luck: Luck) returns (processed: nat, failed: nat)
      modifies this
      ensures State() == RetryFailedEvents(old(State()), maxRetries, limit, now, luck)
      ensures processed + failed == |RetryList(old(events), 0, maxRetries, limit)|
      ensures |commits| == |old(commits)| + processed
    {
      hide ProcessRow, SameIds;
      var list := RetryList(events, 0, maxRetries, limit);
      var rows := events;
      processed, failed := 0, 0;
      for i := 0 to |list|
        invariant rows == old(events) && |events| == |rows|
        invariant State() == RetryRows(old(State()), list, i, now, luck)
        invariant forall j :: i <= j < |list| ==> events[list[j]] == rows[list[j]]
        invariant processed + failed == i && |commits| == |old(commits)| + processed
      {
        var e := rows[list[i]];
        var done := ProcessAndMark(list[i], e.event.(provider := e.provider), luck.rows(i + 1), now, luck.faults(i + 1), e.(retries := e.retries + 1));
        if done {
          processed := processed + 1;
        } else {
          failed := failed + 1;
        }
      }
    }

    method ReconcileSucceededPayments(limit: nat, now: int, luck: Luck)
      modifies this
      ensures State() == Reconcile(old(State()), limit, now, luck)
    {
      hide ReconcileRow, ReconcileEvent, ReconcileList;
      ghost var before := State();
      var list, batch := SelectUnreconciled(limit);
      for i := 0 to |list|
        invariant |batch| == |list| && list == ReconcileList(before, 0, limit)
        invariant forall j :: 0 <= j < |list| ==> batch[j] == ReconcileEvent(before, list[j])
        invariant State() == ReconcileRows(before, list, i, now, luck)
      {
        ReconcileOne(batch[i], luck.rows(i + 1), now, luck.faults(i + 1));
      }
    }

    /** The payments to reconcile, with the events made from the rows as selected. */
    method SelectUnreconciled(limit: nat) returns (list: seq<nat>, batch: seq<Event>)
      ensures list == ReconcileList(State(), 0, limit) && |batch| == |list|
      ensures forall j :: 0 <= j < |list| ==> batch[j] == ReconcileEvent(State(), list[j])
    {
      var tables := Database(Book(orders, logs), intents, payments, refunds, events, []);
      list := ReconcileList(tables, 0, limit);
      SameSelection(tables, State(), 0, limit);
      batch := seq(|list|, j requires 0 <= j < |list| => ReconcileEvent(tables, list[j]));
    }

    method ReconcileOne(ev: Event, row: nat, now: int, fault: Fault)
      modifies this
      ensures PaymentRuns.Linked(old(State())) ==> ReconcileMeans(old(State()), ev, now, fault, State())
      ensures State() == ReconcileRow(old(State()), ev, row, now, fault)
    {
      hide ReconcileMeans, PaymentRuns.Linked;
      if PaymentRuns.Linked(State()) {
        ReconcileRowMeans(State(), ev, row, now, fault);
      }
      var isNew, k := StoreEvent(ev.provider, ev);
      if !isNew && events[k].status == Processed {
        return;
      }
      var done := ProcessAndMark(k, ev, row, now, fault, events[k].(status := Failed));
    }

    /** order by updated_at limit n: the least recently updated stale intents. */
    method SelectStale(cutoff: int, limit: nat) returns (list: seq<nat>)
      ensures StaleBatch(State(), cutoff, limit, set k | k in list)
      ensures forall k :: k in list ==> k < |intents|
      ensures |list| == Min(limit, |StaleIds(State(), cutoff)|)
      ensures forall i, j :: 0 <= i < j < |list| ==> list[i] != list[j]
    {
      var rest := StaleIds(Database(Book(orders, logs), intents, payments, refunds, events, []), cutoff);
      ghost var ids := rest;
      assert ids == StaleIds(State(), cutoff) && forall k :: k in ids ==> k < |intents|;
      hide Stale, StaleIds;
      list := [];
      while |list| < limit && rest != {}
        invariant |list| <= limit && rest <= ids && |list| + |rest| == |ids|
        invariant forall k :: k in list <==> k in ids - rest
        invariant forall i, j :: 0 <= i < j < |list| ==> list[i] != list[j]
        invariant forall i, j :: i in ids - rest && j in rest ==> intents[i].updatedAt <= intents[j].updatedAt
        decreases |rest|
      {
        OldestExists(intents, rest);
        var oldest :| oldest in rest && forall k :: k in rest ==> intents[oldest].updatedAt <= intents[k].updatedAt;
        list := list + [oldest];
        rest := rest - {oldest};
      }
      IsStaleBatch(State(), cutoff, limit, list, rest);
    }

    method CleanupExpiredIntents(cutoffMinutes: int, limit: nat, now: int) returns (cleaned: nat, batch: set<nat>)
      modifies this`intents
      ensures StaleBatch(old(State()), now - cutoffMinutes * 60_000, limit, batch) && cleaned == |batch|
      ensures State() == Cleanup(old(State()), now - cutoffMinutes * 60_000, limit, batch, now)
    {
      hide StaleBatch, StaleIds, Stale;
      var list := SelectStale(now - cutoffMinutes * 60_000, limit);
      BatchSize(State(), now - cutoffMinutes * 60_000, limit, set k | k in list);
      batch := set k | k in list;
      cleaned := |list|;
      for i := 0 to |list|
        invariant |intents| == |old(intents)|
        invariant forall k :: 0 <= k < |intents| ==>
          intents[k] == if k in list[..i] then old(intents)[k].(status := IntentFailed, updatedAt := now) else old(intents)[k]
      {
        assert list[i] in list && list[i] !in list[..i] && list[..i + 1] == list[..i] + [list[i]];
        intents := intents[list[i] := intents[list[i]].(status := IntentFailed, updatedAt := now)];
      }
      assert list[..|list|] == list;
      assert intents == FailAll(old(State()), batch, now).intents;
    }

    // ---- the payment routes ----

    method FindActive(id: nat) returns (active: Option<nat>)
      ensures active == ActiveIntent(State(), id)
    {
      active := Newest(intents, (i: Intent) => i.order == id && Active(i));
    }

    method HandleCreateIntent(actor: Actor, id: nat, priced: bool, provider: string, key: Option<string>,
                              answer: Option<IntentAnswer>, now: int)
      returns (reply: PayReply)
      modifies this`intents
      ensures reply.Fine? ==>
              reply.id < |intents| && intents[reply.id].order == id
              && id < |orders| && IsTravelerOf(actor, orders[id]) && orders[id].payment == Unpaid && !Closed(orders[id].status) && priced
      ensures old(intents) <= intents && |intents| <= |old(intents)| + 1
      ensures intents != old(intents) ==> reply == Fine(|old(intents)|) && forall i :: i in old(intents) && i.order == id ==> !Active(i)
      ensures !reply.Fine? ==> intents == old(intents)
      ensures PaymentRuns.Inv(old(State())) ==> PaymentRuns.Inv(State())
      ensures IntentOutcome(old(State()), actor, id, priced, provider, key, answer, now, State(), reply)
      ensures (State(), reply) == CreateIntent(old(State()), actor, id, priced, provider, key, answer, now)
    {
      hide IntentOutcome;
      CreateIntentMeans(State(), actor, id, priced, provider, key, answer, now);
      hide PaymentRuns.Inv, Newest, ActiveIntent;
      ActiveMeans(State(), id);
      if PaymentRuns.Inv(State()) {
        PaymentRuns.CreateIntentKeeps(State(), actor, id, priced, provider, key, answer, now);
      }
      if id >= |orders| {
        return No(NotFound);
      }
      var order := orders[id];
      if actor.role != TravelerRole || order.traveler != actor.profile {
        return No(Forbidden);
      }
      if order.payment != Unpaid {
        return No(InvalidTransition);
      }
      if order.status == CancelledRefunded || order.status == CancelledByTraveler || order.status == Completed {
        return No(InvalidTransition);
      }
      if !priced {
        return PriceMismatch;
      }
      var active := FindActive(id);
      if active.Some? {
        return Fine(active.value);
      }
      if answer.None? {
        return ServerError;
      }
      if key.Some? && exists i :: i in intents && i.order == id && i.key == key {
        return ServerError;
      }
      reply := Fine(|intents|);
      intents := intents + [Intent(id, provider, answer.value.providerIntentId, answer.value.status, key, now)];
    }

    method HandleConfirm(actor: Actor, k: nat, provider: string, simulate: Simulation, webhookOnly: bool,
                         answer: Option<Answer>, eventId: string, row: nat, now: int, fault: Fault)
      returns (reply: PayReply)
      modifies this
      ensures PaymentRuns.Linked(old(State())) ==> ConfirmOutcome(old(State()), actor, k, provider, simulate, webhookOnly, answer, eventId, now, fault, State(), reply)
      ensures (State(), reply) == Confirm(old(State()), actor, k, provider, simulate, webhookOnly, answer, eventId, row, now, fault)
    {
      hide ConfirmOutcome, PaymentRuns.Linked;
      if PaymentRuns.Linked(State()) {
        ConfirmMeans(State(), actor, k, provider, simulate, webhookOnly, answer, eventId, row, now, fault);
      }
      hide Deliver, SameIds, ConfirmEvent, ConfirmedStatus, Payments.SettleIntent;
      if k >= |intents| || intents[k].order >= |orders| {
        return No(NotFound);
      }
      var intent, order := intents[k], orders[intents[k].order];
      if actor.role != TravelerRole || order.traveler != actor.profile {
        return No(Forbidden);
      }
      if intent.status == IntentSucceeded || order.payment == Paid {
        return Fine(k);
      }
      if answer.None? {
        return ServerError;
      }
      var ev := ConfirmEvent(intent, provider, simulate, webhookOnly, answer.value, eventId);
      if ev.Some? {
        ProcessSyncEvent(ev.value, row, now, fault);
      }
      assert State() == DeliverIfAny(old(State()), ev, row, now, fault);
      SameIdsGiveIntents(old(State()), State());
      reply := SettleIntent(k, ConfirmedStatus(provider, simulate, webhookOnly, answer.value), now);
    }

    /** The last update, refused by the index on active intents. */
    method SettleIntent(k: nat, status: IntentStatus, now: int) returns (reply: PayReply)
      requires k < |intents|
      modifies this`intents
      ensures (State(), reply) == Payments.SettleIntent(old(State()), k, status, now)
    {
      SettledTaken(State(), k, status, now);
      if ActiveStatus(status) && exists j :: 0 <= j < |intents| && j != k && intents[j].order == intents[k].order && Active(intents[j]) {
        return ServerError;
      }
      intents := intents[k := intents[k].(status := status, updatedAt := now)];
      reply := Fine(k);
    }

    method HandleRefund(id: nat, key: Option<string>, answer: Option<RefundAnswer>, webhookOnly: bool,
                        eventId: string, row: nat, now: int, fault: Fault)
      returns (reply: PayReply)
      modifies this
      ensures PaymentRuns.Linked(old(State())) ==> RefundOutcome(old(State()), id, key, answer, webhookOnly, eventId, now, fault, State(), reply)
      ensures (State(), reply) == RefundOrder(old(State()), id, key, answer, webhookOnly, eventId, row, now, fault)
    {
      hide RefundOutcome, PaymentRuns.Linked;
      if PaymentRuns.Linked(State()) {
        RefundMeans(State(), id, key, answer, webhookOnly, eventId, row, now, fault);
      }
      hide SettleRefund, Newest, SameIds;
      if id >= |orders| {
        return No(NotFound);
      }
      if orders[id].payment != Paid && orders[id].payment != Refunded {
        return No(InvalidTransition);
      }
      var found := Newest(payments, (p: Payment) => p.order == id);
      if found.None? {
        return NoPayment;
      }
      if key.Some? && exists r :: r in refunds && r.order == id && r.key == key {
        return ServerError;
      }
      reply := AskRefund(id, found.value, key, answer, webhookOnly, eventId, row, now, fault);
    }

    method AskRefund(id: nat, p: nat, key: Option<string>, answer: Option<RefundAnswer>, webhookOnly: bool,
                     eventId: string, row: nat, now: int, fault: Fault)
      returns (reply: PayReply)
      requires id < |orders| && p < |payments|
      modifies this
      ensures (State(), reply)
              == SettleRefund(
                old(State()).(refunds := old(refunds) + [RefundRow(id, p, old(payments)[p].provider, Requested, None, key)]),
                id, |old(refunds)|, old(payments)[p], answer, webhookOnly, eventId, row, now, fault)
    {
      hide SettleRefund;
      refunds := refunds + [RefundRow(id, p, payments[p].provider, Requested, None, key)];
      reply := FinishRefund(id, |refunds| - 1, payments[p], answer, webhookOnly, eventId, row, now, fault);
    }

    method FinishRefund(id: nat, n: nat, payment: Payment, answer: Option<RefundAnswer>, webhookOnly: bool,
                        eventId: string, row: nat, now: int, fault: Fault)
      returns (reply: PayReply)
      requires id < |orders| && n < |refunds|
      modifies this
      ensures (State(), reply) == SettleRefund(old(State()), id, n, payment, answer, webhookOnly, eventId, row, now, fault)
    {
      hide Deliver, SameIds, RefundEvent;
      if answer.None? {
        return ServerError;
      }
      var ref := answer.value.providerRefundId;
      if ref.Some? && exists j :: 0 <= j < |refunds| && j != n && refunds[j].providerRefundId == ref {
        return ServerError;
      }
      refunds := refunds[n := refunds[n].(status := RecordedStatus(webhookOnly, answer.value.status), providerRefundId := ref)];
      ghost var recorded := State();
      var ev := RefundEvent(payment, answer.value, webhookOnly, eventId);
      if ev.Some? {
        ProcessSyncEvent(ev.value, row, now, fault);
      }
      assert State() == DeliverIfAny(recorded, ev, row, now, fault);
      SameIdsGiveOrders(recorded, State(), id);
      orders := orders[id := orders[id].(payment := Refunding)];
      reply := Fine(n);
    }

    method HandleRefundRetry(k: nat, answer: Option<RefundAnswer>, webhookOnly: bool) returns (reply: PayReply)
      modifies this`refunds, this`orders
      ensures reply.Fine? ==>
              reply.id == k < |refunds| == |old(refunds)| && old(refunds)[k].order < |orders| == |old(orders)|
      ensures reply.Fine? && old(refunds)[k].status != RefundDone ==>
              orders[old(refunds)[k].order].payment == Refunding
              && refunds[k].order == old(refunds)[k].order && (webhookOnly ==> refunds[k].status != RefundDone)
              && (forall i: nat :: i < |refunds| && i != k ==> refunds[i] == old(refunds)[i])
              && (forall i: nat :: i < |orders| && i != old(refunds)[k].order ==> orders[i] == old(orders)[i])
              && orders[old(refunds)[k].order].status == old(orders)[old(refunds)[k].order].status
      ensures !reply.Fine? || old(refunds)[k].status == RefundDone ==> State() == old(State())
      ensures PaymentRuns.Inv(old(State())) ==> PaymentRuns.Inv(State())
      ensures RefundRetryOutcome(old(State()), k, answer, webhookOnly, State(), reply)
      ensures (State(), reply) == RetryRefund(old(State()), k, answer, webhookOnly)
    {
      hide RefundRetryOutcome;
      RetryRefundMeans(State(), k, answer, webhookOnly);
      hide PaymentRuns.Inv;
      if PaymentRuns.Inv(State()) {
        PaymentRuns.RetryRefundKeeps(State(), k, answer, webhookOnly);
      }
      if k >= |refunds| || refunds[k].order >= |orders| {
        return No(NotFound);
      }
      var refund := refunds[k];
      if refund.status == RefundDone {
        return Fine(k);
      }
      if refund.payment >= |payments| {
        return NoPayment;
      }
      if answer.None? {
        return ServerError;
      }
      var ref := if answer.value.providerRefundId.Some? then answer.value.providerRefundId else refund.providerRefundId;
      if ref.Some? && exists j :: 0 <= j < |refunds| && j != k && refunds[j].providerRefundId == ref {
        return ServerError;
      }
      refunds := refunds[k := refund.(status := RecordedStatus(webhookOnly, answer.value.status), providerRefundId := ref)];
      orders := orders[refund.order := orders[refund.order].(payment := Refunding)];
      reply := Fine(k);
    }
  }

  lemma {:induction false} OldestExists(intents: seq<Intent>, ids: set<nat>)
    requires ids != {} && forall k :: k in ids ==> k < |intents|
    ensures exists k :: k in ids && forall j :: j in ids ==> intents[k].updatedAt <= intents[j].updatedAt
    decreases |ids|
  {
    var x :| x in ids;
    var rest := ids - {x};
    if rest == {} {
      assert ids == {x};
    } else {
      OldestExists(intents, rest);
      var y :| y in rest && forall j :: j in rest ==> intents[y].updatedAt <= intents[j].updatedAt;
      assert forall j :: j in ids ==> j == x || j in rest;
      if intents[x].updatedAt < intents[y].updatedAt {
        assert forall j :: j in ids ==> intents[x].updatedAt <= intents[j].updatedAt;
      } else {
        assert forall j :: j in ids ==> intents[y].updatedAt <= intents[j].updatedAt;
      }
    }
  }

  lemma IsStaleBatch(db: Database, cutoff: int, limit: nat, list: seq<nat>, rest: set<nat>)
    requires rest <= StaleIds(db, cutoff) && |list| + |rest| == |StaleIds(db, cutoff)|
    requires |list| == limit || (|list| < limit && rest == {})
    requires forall k :: k in list <==> k in StaleIds(db, cutoff) - rest
    requires forall k :: k in StaleIds(db, cutoff) ==> k < |db.intents|
    requires forall i, j :: i in StaleIds(db, cutoff) - rest && j in rest ==> db.intents[i].updatedAt <= db.intents[j].updatedAt
    ensures StaleBatch(db, cutoff, limit, set k | k in list)
  {
    hide StaleIds;
    var ids, batch := StaleIds(db, cutoff), set k | k in list;
    assert batch == ids - rest;
    assert ids - batch == rest;
  }

  lemma BatchSize(db: Database, cutoff: int, limit: nat, batch: set<nat>)
    requires StaleBatch(db, cutoff, limit, batch)
    ensures |batch| == Min(limit, |StaleIds(db, cutoff)|)
  {
  }

  lemma SameIdsGiveIntents(db: Database, after: Database)
    requires SameIds(db, after)
    ensures |after.intents| == |db.intents|
  {
  }

  lemma ActiveMeans(db: Database, id: nat)
    ensures var a := ActiveIntent(db, id);
      && (a.Some? ==> db.intents[a.value].order == id)
      && (a.None? ==> forall i :: i in db.intents && i.order == id ==> !Active(i))
  {
    hide Newest;
  }

  lemma SettledTaken(db: Database, k: nat, s: IntentStatus, now: int)
    requires k < |db.intents|
    ensures var settled := SetIntent(db, k, s, now);
      ActiveTaken(settled, k) <==> exists j :: 0 <= j < |db.intents| && j != k && db.intents[j].order == db.intents[k].order && Active(db.intents[j])
  {
    PaymentRuns.OthersStayActive(db, k, s, now);
  }

  lemma TxnTakenMeans(db: Database, ev: Event)
    ensures TxnTaken(db, ev.provider, ev.txn) == (ev.txn.Some? && exists p :: p in db.payments && p.provider == ev.provider && p.txn == ev.txn)
  {
  }

  lemma SameIdsGiveOrders(db: Database, after: Database, id: nat)
    requires SameIds(db, after) && id < |db.book.orders|
    ensures id < |after.book.orders|
  {
  }

  lemma {:induction false} SameSelection(db: Database, other: Database, k: nat, limit: nat)
    requires k <= |db.payments| && db.payments == other.payments && db.book == other.book && db.intents == other.intents
    ensures ReconcileList(db, k, limit) == ReconcileList(other, k, limit)
    decreases |db.payments| - k
  {
    if k < |db.payments| && limit > 0 {
      SameSelection(db, other, k + 1, limit - 1);
      SameSelection(db, other, k + 1, limit);
    }
  }
}
