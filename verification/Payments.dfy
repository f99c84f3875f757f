/** The payment tables: intents, payments, refunds and the webhook event store, and the
    event processor that updates them together with the orders. */
module Payments {
  import opened Prelude
  import opened Strings
  import opened Orders

  datatype IntentStatus = RequiresConfirmation | Created | Processing | RequiresAction | IntentSucceeded | IntentFailed

  datatype Intent = Intent(
    order: nat, provider: string, providerIntentId: Option<string>, status: IntentStatus,
    key: Option<string>, updatedAt: int)

  /** A row of payments; the only status ever inserted is 'succeeded'. */
  datatype Payment = Payment(order: nat, intent: nat, provider: string, txn: Option<string>)

  datatype RefundStatus = Requested | RefundProcessing | RefundDone | RefundRefused

  datatype RefundRow = RefundRow(
    order: nat, payment: nat, provider: string, status: RefundStatus,
    providerRefundId: Option<string>, key: Option<string>)

  datatype EventKind =
    PaymentSucceeded | PaymentFailed | PaymentRequiresAction | RefundSucceeded | RefundFailed | UnknownKind

  /** A normalized provider event. */
  datatype Event = Event(
    eventId: string, kind: EventKind, provider: string,
    intentRef: Option<string>, txn: Option<string>, refundRef: Option<string>)

  datatype EventStatus = Received | Processed | Failed

  /** A row of webhook_events: the name it was stored under and the event as received. */
  datatype EventRow = EventRow(provider: string, event: Event, status: EventStatus, retries: nat)

  datatype EventKey = EventKey(provider: string, eventId: string)

  /** The tables. `commits` is a history record: the key of every event whose processing
      returned normally, in order. */
  datatype Database = Database(
    book: Book, intents: seq<Intent>, payments: seq<Payment>, refunds: seq<RefundRow>,
    events: seq<EventRow>, commits: seq<EventKey>)

  // ---- lookups ----

  /** ORDER BY created_at DESC LIMIT 1. */
  function Newest<T>(s: seq<T>, p: T -> bool): (r: Option<nat>)
    ensures r.Some? ==> r.value < |s| && p(s[r.value]) && forall j :: r.value < j < |s| ==> !p(s[j])
    ensures r.None? ==> forall j :: 0 <= j < |s| ==> !p(s[j])
  {
    if s == [] then None else if p(s[|s| - 1]) then Some(|s| - 1) else Newest(s[..|s| - 1], p)
  }

  /** Equality as SQL sees it: null equals nothing. */
  predicate Same(a: Option<string>, b: Option<string>) {
    a.Some? && a == b
  }

  /** The intent a payment event is about: one with its provider_intent_id, `row` if that is
      one of several, else the newest processing intent of the provider. */
  function IntentPaid(db: Database, ev: Event, row: nat): (r: Option<nat>)
    ensures r.Some? ==> r.value < |db.intents|
  {
    var named := Newest(db.intents, (i: Intent) => Same(i.providerIntentId, ev.intentRef));
    if named.None? then Newest(db.intents, (i: Intent) => i.provider == ev.provider && i.status == Processing)
    else if row < |db.intents| && Same(db.intents[row].providerIntentId, ev.intentRef) then Some(row)
    else named
  }

  /** The intent an unsuccessful event is about. */
  function IntentMeant(db: Database, ev: Event): (r: Option<nat>)
    ensures r.Some? ==> r.value < |db.intents|
  {
    Newest(db.intents, (i: Intent) => Same(i.providerIntentId, ev.intentRef) || (i.provider == ev.provider && i.status == Processing))
  }

  function RefundMeant(db: Database, ev: Event): (r: Option<nat>)
    ensures r.Some? ==> r.value < |db.refunds|
  {
    Newest(db.refunds, (r: RefundRow) => Same(r.providerRefundId, ev.refundRef) || (r.provider == ev.provider && r.status == RefundProcessing))
  }

  /** The unique indexes. */
  predicate TxnTaken(db: Database, provider: string, txn: Option<string>) {
    txn.Some? && exists p :: p in db.payments && p.provider == provider && p.txn == txn
  }

  predicate RefundIdTaken(db: Database, k: nat, providerRefundId: Option<string>) {
    providerRefundId.Some? && exists j :: 0 <= j < |db.refunds| && j != k && db.refunds[j].providerRefundId == providerRefundId
  }

  // ---- the event processor ----

  /** Where a statement of the handler fails for a reason outside the model, if any. */
  datatype Fault = NoFault | Early | Midway

  datatype Outcome = Outcome(db: Database, done: bool)

  function SetIntent(db: Database, k: nat, s: IntentStatus, now: int): Database
    requires k < |db.intents|
  {
    db.(intents := db.intents[k := db.intents[k].(status := s, updatedAt := now)])
  }

  function SetOrderPayment(b: Book, id: nat, p: PaymentStatus): Book
    requires id < |b.orders|
  {
    Update(b, id, b.orders[id].(payment := p))
  }

  /** The tables a handler writes keep their rows' ids. */
  predicate SameIds(db: Database, after: Database) {
    |after.book.orders| == |db.book.orders| && |after.intents| == |db.intents| && |after.refunds| == |db.refunds|
    && |after.payments| >= |db.payments|
  }

  function OnPaymentSucceeded(db: Database, ev: Event, row: nat, now: int): (o: Outcome)
    ensures SameIds(db, o.db) && o.db.events == db.events && o.db.commits == db.commits
  {
    var k := IntentPaid(db, ev, row);
    if k.None? || db.intents[k.value].order >= |db.book.orders| then Outcome(db, false)
    else
      var id := db.intents[k.value].order;
      var inserted := if TxnTaken(db, ev.provider, ev.txn) then [] else [Payment(id, k.value, ev.provider, ev.txn)];
      Outcome(SetIntent(db, k.value, IntentSucceeded, now).(payments := db.payments + inserted, book := Pay(db.book, id, now)), true)
  }

  function OnRefundSucceeded(db: Database, ev: Event): (o: Outcome)
    ensures SameIds(db, o.db) && o.db.events == db.events && o.db.commits == db.commits
  {
    var k := RefundMeant(db, ev);
    if k.None? || db.refunds[k.value].order >= |db.book.orders| || RefundIdTaken(db, k.value, ev.refundRef) then Outcome(db, false)
    else
      var r := db.refunds[k.value];
      Outcome(
        db.(refunds := db.refunds[k.value := r.(status := RefundDone, providerRefundId := ev.refundRef)],
            book := SetOrderPayment(db.book, r.order, Refunded)),
        true)
  }

  /** processEvent. The payment handlers and the refund success are transactions, so a
      fault undoes them; the other two keep their first update. */
  function Process(db: Database, ev: Event, row: nat, now: int, fault: Fault): (o: Outcome)
    ensures SameIds(db, o.db) && o.db.events == db.events && o.db.commits == db.commits
  {
    match ev.kind
    case PaymentSucceeded => if fault != NoFault then Outcome(db, false) else OnPaymentSucceeded(db, ev, row, now)
    case PaymentFailed =>
      var k := IntentMeant(db, ev);
      if fault != NoFault || k.None? then Outcome(db, false) else Outcome(SetIntent(db, k.value, IntentFailed, now), true)
    case PaymentRequiresAction =>
      var k := IntentMeant(db, ev);
      if fault == Early then Outcome(db, false)
      else if k.None? then Outcome(db, true)
      else Outcome(SetIntent(db, k.value, RequiresAction, now), fault == NoFault)
    case RefundSucceeded => if fault != NoFault then Outcome(db, false) else OnRefundSucceeded(db, ev)
    case RefundFailed =>
      var k := RefundMeant(db, ev);
      if fault == Early then Outcome(db, false)
      else if k.None? then Outcome(db, true)
      else Outcome(db.(refunds := db.refunds[k.value := db.refunds[k.value].(status := RefundRefused)]), fault == NoFault)
    case UnknownKind => Outcome(db, true)
  }

  // ---- the event store ----

  function KeyOf(e: EventRow): EventKey {
    EventKey(e.provider, e.event.eventId)
  }

  predicate Stored(db: Database, key: EventKey) {
    exists e :: e in db.events && KeyOf(e) == key
  }

  function Mark(db: Database, k: nat, e: EventRow): Database
    requires k < |db.events|
  {
    db.(events := db.events[k := e])
  }

  function Commit(db: Database, k: nat): Database
    requires k < |db.events|
  {
    Mark(db, k, db.events[k].(status := Processed)).(commits := db.commits + [KeyOf(db.events[k])])
  }

  /** Process event row k and mark it; a failure leaves `failed` in its place. */
  function ProcessRow(db: Database, k: nat, ev: Event, row: nat, now: int, fault: Fault, failed: EventRow): (o: Outcome)
    requires k < |db.events|
    ensures SameIds(db, o.db)
    ensures |o.db.commits| == |db.commits| + if o.done then 1 else 0
    ensures o.db.events == db.events[k := if o.done then db.events[k].(status := Processed) else failed]
  {
    var o := Process(db, ev, row, now, fault);
    Outcome(if o.done then Commit(o.db, k) else Mark(o.db, k, failed), o.done)
  }

  /** An event enters the store and is processed, unless its key is already there: the
      webhook and the synchronous event of a payment route. */
  function Deliver(db: Database, provider: string, ev: Event, row: nat, now: int, fault: Fault): (r: Database)
    ensures SameIds(db, r)
  {
    if Stored(db, EventKey(provider, ev.eventId)) then db
    else
      var entry := EventRow(provider, ev, Received, 0);
      var k := |db.events|;
      ProcessRow(db.(events := db.events + [entry]), k, ev, row, now, fault, entry.(status := Failed)).db
  }

  datatype WebhookReply = UnknownProvider | InvalidSignature | MissingEventId | Duplicate | Done | ProcessingFailed

  datatype Checked = NoProvider | BadSignature | Good(event: Event)

  function HandleWebhook(db: Database, provider: string, checked: Checked, row: nat, now: int, fault: Fault): (Database, WebhookReply) {
    match checked
    case NoProvider => (db, UnknownProvider)
    case BadSignature => (db, InvalidSignature)
    case Good(ev) =>
      if ev.eventId == "" then (db, MissingEventId)
      else if Stored(db, EventKey(provider, ev.eventId)) then (db, Duplicate)
      else
        var after := Deliver(db, provider, ev, row, now, fault);
        (after, if Process(db.(events := db.events + [EventRow(provider, ev, Received, 0)]), ev, row, now, fault).done then Done else ProcessingFailed)
  }

  // ---- the retry loop ----

  predicate Retryable(e: EventRow, maxRetries: int) {
    e.status == Failed && e.retries < maxRetries
  }

  /** Rows k.. of the store that are to be retried, oldest first, at most `limit`. */
  function RetryList(events: seq<EventRow>, k: nat, maxRetries: int, limit: nat): (r: seq<nat>)
    requires k <= |events|
    ensures |r| <= limit
    ensures forall i :: 0 <= i < |r| ==> k <= r[i] < |events| && Retryable(events[r[i]], maxRetries)
    ensures forall i, j :: 0 <= i < j < |r| ==> r[i] < r[j]
    decreases |events| - k
  {
    if k == |events| || limit == 0 then []
    else if Retryable(events[k], maxRetries) then [k] + RetryList(events, k + 1, maxRetries, limit - 1)
    else RetryList(events, k + 1, maxRetries, limit)
  }

  /** One pass of the loop body on the event as it was stored. */
  function RetryRow(db: Database, k: nat, row: nat, now: int, fault: Fault): (o: Outcome)
    requires k < |db.events|
    ensures |o.db.events| == |db.events|
  {
    var e := db.events[k];
    ProcessRow(db, k, e.event.(provider := e.provider), row, now, fault, e.(retries := e.retries + 1))
  }

  /** The rows and faults the database happens to produce, by position in the loop. */
  datatype Luck = Luck(rows: nat -> nat, faults: nat -> Fault)

  function RetryRows(db: Database, list: seq<nat>, i: nat, now: int, luck: Luck): (r: Database)
    requires i <= |list| && forall j :: 0 <= j < |list| ==> list[j] < |db.events|
    ensures |r.events| == |db.events|
    decreases i
  {
    if i == 0 then db
    else RetryRow(RetryRows(db, list, i - 1, now, luck), list[i - 1], luck.rows(i), now, luck.faults(i)).db
  }

  function RetryFailedEvents(db: Database, maxRetries: int, limit: nat, now: int, luck: Luck): Database {
    var list := RetryList(db.events, 0, maxRetries, limit);
    RetryRows(db, list, |list|, now, luck)
  }

  // ---- the reconciliation loop ----

  predicate Unreconciled(db: Database, p: Payment) {
    p.order < |db.book.orders| && db.book.orders[p.order].payment != Paid
  }

  function ReconcileList(db: Database, k: nat, limit: nat): (r: seq<nat>)
    requires k <= |db.payments|
    ensures |r| <= limit
    ensures forall i :: 0 <= i < |r| ==> k <= r[i] < |db.payments| && Unreconciled(db, db.payments[r[i]])
    ensures forall i, j :: 0 <= i < j < |r| ==> r[i] < r[j]
    decreases |db.payments| - k
  {
    if k == |db.payments| || limit == 0 then []
    else if Unreconciled(db, db.payments[k]) then [k] + ReconcileList(db, k + 1, limit - 1)
    else ReconcileList(db, k + 1, limit)
  }

  /** createReconcileEvent. */
  function ReconcileEvent(db: Database, k: nat): Event
    requires k < |db.payments|
  {
    var p := db.payments[k];
    Event(
      "reconcile_payment_" + Digits(k, 1), PaymentSucceeded, p.provider,
      if p.intent < |db.intents| then db.intents[p.intent].providerIntentId else None, p.txn, None)
  }

  function EventAt(db: Database, key: EventKey): (r: Option<nat>)
    ensures r.Some? ==> r.value < |db.events| && KeyOf(db.events[r.value]) == key
    ensures r.None? <==> !Stored(db, key)
  {
    Newest(db.events, (e: EventRow) => KeyOf(e) == key)
  }

  function ReconcileRow(db: Database, ev: Event, row: nat, now: int, fault: Fault): Database {
    var k := EventAt(db, EventKey(ev.provider, ev.eventId));
    if k.None? then Deliver(db, ev.provider, ev, row, now, fault)
    else if db.events[k.value].status == Processed then db
    else ProcessRow(db, k.value, ev, row, now, fault, db.events[k.value].(status := Failed)).db
  }

  /** The events are made from the rows as selected, before the loop. */
  function ReconcileRows(db: Database, list: seq<nat>, i: nat, now: int, luck: Luck): Database
    requires i <= |list| && forall j :: 0 <= j < |list| ==> list[j] < |db.payments|
    decreases i
  {
    if i == 0 then db
    else ReconcileRow(ReconcileRows(db, list, i - 1, now, luck), ReconcileEvent(db, list[i - 1]), luck.rows(i), now, luck.faults(i))
  }

  function Reconcile(db: Database, limit: nat, now: int, luck: Luck): Database {
    var list := ReconcileList(db, 0, limit);
    ReconcileRows(db, list, |list|, now, luck)
  }

  // ---- the payment routes ----

  datatype PayReply = Fine(id: nat) | No(reply: Reply) | PriceMismatch | NoPayment | ServerError

  datatype IntentAnswer = IntentAnswer(providerIntentId: Option<string>, status: IntentStatus)

  predicate ActiveStatus(s: IntentStatus) {
    s == RequiresConfirmation || s == Created
  }

  predicate Active(i: Intent) {
    ActiveStatus(i.status)
  }

  /** The partial unique index: another active intent of the same order. */
  predicate ActiveTaken(db: Database, k: nat)
    requires k < |db.intents|
  {
    exists j :: 0 <= j < |db.intents| && j != k && db.intents[j].order == db.intents[k].order && Active(db.intents[j])
  }

  /** The active intent of an order, newest first. */
  function ActiveIntent(db: Database, id: nat): (r: Option<nat>)
    ensures r.Some? ==> r.value < |db.intents|
  {
    Newest(db.intents, (i: Intent) => i.order == id && Active(i))
  }

  predicate IntentKeyTaken(db: Database, id: nat, key: Option<string>) {
    key.Some? && exists i :: i in db.intents && i.order == id && i.key == key
  }

  /** handleCreateIntent; `priced` says that the requested amount is the order's. */
  function CreateIntent(db: Database, actor: Actor, id: nat, priced: bool, provider: string, key: Option<string>,
                        answer: Option<IntentAnswer>, now: int): (Database, PayReply) {
    if id >= |db.book.orders| then (db, No(NotFound))
    else
      var o := db.book.orders[id];
      if actor.role != TravelerRole || o.traveler != actor.profile then (db, No(Forbidden))
      else if o.payment != Unpaid || Closed(o.status) then (db, No(InvalidTransition))
      else if !priced then (db, PriceMismatch)
      else if ActiveIntent(db, id).Some? then (db, Fine(ActiveIntent(db, id).value))
      else if answer.None? || IntentKeyTaken(db, id, key) then (db, ServerError)
      else (db.(intents := db.intents + [Intent(id, provider, answer.value.providerIntentId, answer.value.status, key, now)]), Fine(|db.intents|))
  }

  /** What the provider answers to a confirmation or a refund. */
  datatype Answer = Answer(status: IntentStatus, txn: Option<string>)

  datatype Simulation = Plain | SimulateFailed | SimulateAction

  /** The synchronous event of a confirmation, if it has one: the mock provider's wish, else a
      final answer outside the webhook-only mode. */
  function ConfirmEvent(i: Intent, provider: string, simulate: Simulation, webhookOnly: bool, answer: Answer, eventId: string): Option<Event> {
    var wish := if provider != "mock" then None else if simulate == SimulateFailed then Some(IntentFailed)
                else if simulate == SimulateAction then None else Some(IntentSucceeded);
    var final := if wish.Some? then wish
                 else if !webhookOnly && answer.status in {IntentSucceeded, IntentFailed} then Some(answer.status) else None;
    if final.None? then None
    else Some(Event(eventId, if final.value == IntentSucceeded then PaymentSucceeded else PaymentFailed,
                    provider, i.providerIntentId, answer.txn, None))
  }

  function ConfirmedStatus(provider: string, simulate: Simulation, webhookOnly: bool, answer: Answer): IntentStatus {
    if provider == "mock" && simulate == SimulateFailed then IntentFailed
    else if provider == "mock" && simulate == Plain then IntentSucceeded
    else if webhookOnly && answer.status in {IntentSucceeded, IntentFailed} then Processing
    else answer.status
  }

  function DeliverIfAny(db: Database, ev: Option<Event>, row: nat, now: int, fault: Fault): (r: Database)
    ensures SameIds(db, r)
  {
    if ev.None? then db else Deliver(db, ev.value.provider, ev.value, row, now, fault)
  }

  /** The last update of a confirmation; it fails when it would make a second active intent of
      the order. */
  function SettleIntent(db: Database, k: nat, s: IntentStatus, now: int): (Database, PayReply)
    requires k < |db.intents|
  {
    if ActiveStatus(s) && ActiveTaken(SetIntent(db, k, s, now), k) then (db, ServerError) else (SetIntent(db, k, s, now), Fine(k))
  }

  /** handleConfirm, with the provider found for the intent. */
  function Confirm(db: Database, actor: Actor, k: nat, provider: string, simulate: Simulation, webhookOnly: bool,
                   answer: Option<Answer>, eventId: string, row: nat, now: int, fault: Fault): (Database, PayReply) {
    if k >= |db.intents| || db.intents[k].order >= |db.book.orders| then (db, No(NotFound))
    else
      var o := db.book.orders[db.intents[k].order];
      if actor.role != TravelerRole || o.traveler != actor.profile then (db, No(Forbidden))
      else if db.intents[k].status == IntentSucceeded || o.payment == Paid then (db, Fine(k))
      else if answer.None? then (db, ServerError)
      else
        var after := DeliverIfAny(db, ConfirmEvent(db.intents[k], provider, simulate, webhookOnly, answer.value, eventId), row, now, fault);
        SettleIntent(after, k, ConfirmedStatus(provider, simulate, webhookOnly, answer.value), now)
  }

  datatype RefundAnswer = RefundAnswer(status: RefundStatus, providerRefundId: Option<string>)

  function RecordedStatus(webhookOnly: bool, s: RefundStatus): RefundStatus {
    if webhookOnly && s in {RefundDone, RefundRefused} then RefundProcessing else s
  }

  function RefundEvent(p: Payment, a: RefundAnswer, webhookOnly: bool, eventId: string): Option<Event> {
    if webhookOnly || a.status !in {RefundDone, RefundRefused} then None
    else Some(Event(eventId, if a.status == RefundDone then RefundSucceeded else RefundFailed, p.provider, None, p.txn, a.providerRefundId))
  }

  predicate RefundKeyTaken(db: Database, id: nat, key: Option<string>) {
    key.Some? && exists r :: r in db.refunds && r.order == id && r.key == key
  }

  /** The provider's answer to refund row n. The row stays 'requested' when the call or the
      update with the provider's id fails; otherwise the order ends in REFUNDING. */
  function SettleRefund(db: Database, id: nat, n: nat, payment: Payment, answer: Option<RefundAnswer>, webhookOnly: bool,
                        eventId: string, row: nat, now: int, fault: Fault): (Database, PayReply)
    requires id < |db.book.orders| && n < |db.refunds|
  {
    if answer.None? || RefundIdTaken(db, n, answer.value.providerRefundId) then (db, ServerError)
    else
      var a := answer.value;
      var recorded := db.(refunds := db.refunds[n := db.refunds[n].(
                        status := RecordedStatus(webhookOnly, a.status), providerRefundId := a.providerRefundId)]);
      var synced := DeliverIfAny(recorded, RefundEvent(payment, a, webhookOnly, eventId), row, now, fault);
      (synced.(book := SetOrderPayment(synced.book, id, Refunding)), Fine(n))
  }

  /** handleRefund. */
  function RefundOrder(db: Database, id: nat, key: Option<string>, answer: Option<RefundAnswer>, webhookOnly: bool,
                       eventId: string, row: nat, now: int, fault: Fault): (Database, PayReply) {
    if id >= |db.book.orders| then (db, No(NotFound))
    else if db.book.orders[id].payment !in {Paid, Refunded} then (db, No(InvalidTransition))
    else
      var p := Newest(db.payments, (p: Payment) => p.order == id);
      if p.None? then (db, NoPayment)
      else if RefundKeyTaken(db, id, key) then (db, ServerError)
      else
        var payment := db.payments[p.value];
        SettleRefund(
          db.(refunds := db.refunds + [RefundRow(id, p.value, payment.provider, Requested, None, key)]),
          id, |db.refunds|, payment, answer, webhookOnly, eventId, row, now, fault)
  }

  function RetryRefund(db: Database, k: nat, answer: Option<RefundAnswer>, webhookOnly: bool): (Database, PayReply) {
    if k >= |db.refunds| || db.refunds[k].order >= |db.book.orders| then (db, No(NotFound))
    else if db.refunds[k].status == RefundDone then (db, Fine(k))
    else if db.refunds[k].payment >= |db.payments| then (db, NoPayment)
    else if answer.None? then (db, ServerError)
    else
      var r := db.refunds[k];
      var ref := if answer.value.providerRefundId.Some? then answer.value.providerRefundId else r.providerRefundId;
      if RefundIdTaken(db, k, ref) then (db, ServerError)
      else
        (db.(refunds := db.refunds[k := r.(status := RecordedStatus(webhookOnly, answer.value.status), providerRefundId := ref)],
             book := SetOrderPayment(db.book, r.order, Refunding)),
         Fine(k))
  }

  // ---- the cleanup job ----

  predicate Stale(db: Database, k: nat, cutoff: int) {
    && k < |db.intents|
    && db.intents[k].status in {RequiresConfirmation, Processing, RequiresAction}
    && db.intents[k].updatedAt < cutoff
    && db.intents[k].order < |db.book.orders|
    && db.book.orders[db.intents[k].order].payment != Paid
  }

  function StaleIds(db: Database, cutoff: int): set<nat> {
    set k | 0 <= k < |db.intents| && Stale(db, k, cutoff)
  }

  /** A batch the query may return: the least recently updated of the stale intents, at most `limit`. */
  predicate StaleBatch(db: Database, cutoff: int, limit: nat, batch: set<nat>) {
    && batch <= StaleIds(db, cutoff)
    && |batch| == Min(limit, |StaleIds(db, cutoff)|)
    && forall i, j :: i in batch && j in StaleIds(db, cutoff) - batch ==> db.intents[i].updatedAt <= db.intents[j].updatedAt
  }

  function FailAll(db: Database, batch: set<nat>, now: int): Database {
    db.(intents := seq(|db.intents|, k requires 0 <= k < |db.intents| =>
          if k in batch then db.intents[k].(status := IntentFailed, updatedAt := now) else db.intents[k]))
  }

  /** cleanupExpiredIntents; a batch the query cannot return is no step. */
  function Cleanup(db: Database, cutoff: int, limit: nat, batch: set<nat>, now: int): Database {
    if StaleBatch(db, cutoff, limit, batch) then FailAll(db, batch, now) else db
  }
}
