/** What the event processor, the webhook handler and the payment routes do to the tables, said
    over the rows: which row an event is about, what becomes of it, who pays and when. */
module PaymentMeanings {
  import opened Prelude
  import opened Strings
  import opened Orders
  import opened Payments
  import opened PaymentRuns

  // ---- which row an event is about ----

  predicate Names(i: Intent, ref: Option<string>) {
    ref.Some? && i.providerIntentId == ref
  }

  predicate InFlight(i: Intent, provider: string) {
    i.provider == provider && i.status == Processing
  }

  /** Intent k is one a payment success settles: one with the event's provider id when there is
      one, else the newest processing intent of the provider. */
  predicate Payable(db: Database, ev: Event, k: nat) {
    && k < |db.intents|
    && if exists i :: i in db.intents && Names(i, ev.intentRef) then Names(db.intents[k], ev.intentRef)
       else InFlight(db.intents[k], ev.provider) && forall j :: k < j < |db.intents| ==> !InFlight(db.intents[j], ev.provider)
  }

  /** Intent k is the newest that has the event's provider id or is processing with the provider. */
  predicate Concerned(db: Database, ev: Event, k: nat) {
    && k < |db.intents| && (Names(db.intents[k], ev.intentRef) || InFlight(db.intents[k], ev.provider))
    && forall j :: k < j < |db.intents| ==> !Names(db.intents[j], ev.intentRef) && !InFlight(db.intents[j], ev.provider)
  }

  predicate RefundMatches(r: RefundRow, ev: Event) {
    (ev.refundRef.Some? && r.providerRefundId == ev.refundRef) || (r.provider == ev.provider && r.status == RefundProcessing)
  }

  /** Refund k is the newest with the event's refund id or processing with the provider. */
  predicate Refundable(db: Database, ev: Event, k: nat) {
    && k < |db.refunds| && RefundMatches(db.refunds[k], ev)
    && forall j :: k < j < |db.refunds| ==> !RefundMatches(db.refunds[j], ev)
  }

  /** The provider's refund id is on another row. */
  predicate IdElsewhere(db: Database, k: nat, ref: Option<string>) {
    ref.Some? && exists j :: 0 <= j < |db.refunds| && j != k && db.refunds[j].providerRefundId == ref
  }

  // ---- what an event does ----

  predicate OnRecord(db: Database, provider: string, txn: Option<string>) {
    txn.Some? && exists p :: p in db.payments && p.provider == provider && p.txn == txn
  }

  /** Intent k succeeds and its order is paid up; the payment is recorded unless its
      transaction is on record. */
  predicate Pays(db: Database, after: Database, k: nat, ev: Event, now: int) {
    && k < |db.intents|
    && after.intents == db.intents[k := db.intents[k].(status := IntentSucceeded, updatedAt := now)]
    && after.payments == (if OnRecord(db, ev.provider, ev.txn) then db.payments
                          else db.payments + [Payment(db.intents[k].order, k, ev.provider, ev.txn)])
    && after.refunds == db.refunds
    && PaidUp(db.book, after.book, db.intents[k].order, now)
  }

  predicate MarksIntent(db: Database, after: Database, k: nat, s: IntentStatus, now: int) {
    k < |db.intents| && after == db.(intents := db.intents[k := db.intents[k].(status := s, updatedAt := now)])
  }

  /** Refund k is done under the event's id and its order REFUNDED. */
  predicate Refunds(db: Database, after: Database, k: nat, ev: Event) {
    && k < |db.refunds| && db.refunds[k].order < |db.book.orders|
    && var id := db.refunds[k].order;
    after == db.(refunds := db.refunds[k := db.refunds[k].(status := RefundDone, providerRefundId := ev.refundRef)],
                 book := db.book.(orders := db.book.orders[id := db.book.orders[id].(payment := Refunded)]))
  }

  predicate MarksRefund(db: Database, after: Database, k: nat, s: RefundStatus) {
    k < |db.refunds| && after == db.(refunds := db.refunds[k := db.refunds[k].(status := s)])
  }

  /** What each kind of event does, when its processing counts as done, and what a fault leaves. */
  ghost predicate EventMeans(db: Database, ev: Event, now: int, fault: Fault, after: Database, done: bool) {
    && after.events == db.events && after.commits == db.commits
    && match ev.kind
       case PaymentSucceeded =>
         && (done <==> fault == NoFault && exists k: nat :: Payable(db, ev, k))
         && (if done then exists k: nat :: Payable(db, ev, k) && Pays(db, after, k, ev, now) else after == db)
       case PaymentFailed =>
         && (done <==> fault == NoFault && exists k: nat :: Concerned(db, ev, k))
         && (if done then exists k: nat :: Concerned(db, ev, k) && MarksIntent(db, after, k, IntentFailed, now) else after == db)
       case PaymentRequiresAction =>
         && (done <==> fault == NoFault || (fault == Midway && !exists k: nat :: Concerned(db, ev, k)))
         && (if fault != Early && exists k: nat :: Concerned(db, ev, k)
             then exists k: nat :: Concerned(db, ev, k) && MarksIntent(db, after, k, RequiresAction, now) else after == db)
       case RefundSucceeded =>
         && (done <==> fault == NoFault && exists k: nat :: Refundable(db, ev, k) && !IdElsewhere(db, k, ev.refundRef))
         && (if done then exists k: nat :: Refundable(db, ev, k) && Refunds(db, after, k, ev) else after == db)
       case RefundFailed =>
         && (done <==> fault == NoFault || (fault == Midway && !exists k: nat :: Refundable(db, ev, k)))
         && (if fault != Early && exists k: nat :: Refundable(db, ev, k)
             then exists k: nat :: Refundable(db, ev, k) && MarksRefund(db, after, k, RefundRefused) else after == db)
       case UnknownKind => done && after == db
  }

  lemma PaymentMeans(db: Database, ev: Event, row: nat, now: int)
    requires Linked(db)
    ensures var o := OnPaymentSucceeded(db, ev, row, now);
      && (o.done <==> exists k: nat :: Payable(db, ev, k))
      && (if o.done then exists k: nat :: Payable(db, ev, k) && Pays(db, o.db, k, ev, now) else o.db == db)
  {
    PaidIsPayable(db, ev, row);
    var found := IntentPaid(db, ev, row);
    hide Payable, IntentPaid, PaidUp, Pay;
    if found.Some? {
      var id := db.intents[found.value].order;
      PayMeans(db.book, id, now);
      assert Pays(db, OnPaymentSucceeded(db, ev, row, now).db, found.value, ev, now);
    }
  }

  lemma PaidIsPayable(db: Database, ev: Event, row: nat)
    ensures var found := IntentPaid(db, ev, row);
      if found.Some? then Payable(db, ev, found.value) else forall k: nat :: !Payable(db, ev, k)
  {
    hide Newest;
    var named := Newest(db.intents, (i: Intent) => Same(i.providerIntentId, ev.intentRef));
    if named.Some? {
      assert Names(db.intents[named.value], ev.intentRef);
    } else {
      forall i | i in db.intents ensures !Names(i, ev.intentRef) {
        assert !Same(i.providerIntentId, ev.intentRef);
      }
    }
  }

  lemma MeantIsConcerned(db: Database, ev: Event)
    ensures var found := IntentMeant(db, ev);
      if found.Some? then Concerned(db, ev, found.value) else forall k: nat :: !Concerned(db, ev, k)
  {
    hide Newest;
  }

  lemma MeantIsRefundable(db: Database, ev: Event)
    ensures var found := RefundMeant(db, ev);
      if found.Some? then forall k: nat :: Refundable(db, ev, k) <==> k == found.value else forall k: nat :: !Refundable(db, ev, k)
  {
    hide Newest;
  }

  lemma RefundSuccessMeans(db: Database, ev: Event)
    requires Linked(db)
    ensures var o := OnRefundSucceeded(db, ev);
      && (o.done <==> exists k: nat :: Refundable(db, ev, k) && !IdElsewhere(db, k, ev.refundRef))
      && (if o.done then exists k: nat :: Refundable(db, ev, k) && Refunds(db, o.db, k, ev) else o.db == db)
  {
    MeantIsRefundable(db, ev);
    hide Refundable, RefundMeant, WasPaid;
    var found := RefundMeant(db, ev);
    if found.Some? {
      RefundOfAnOrder(db, found.value);
      assert Refundable(db, ev, found.value);
      assert IdElsewhere(db, found.value, ev.refundRef) == RefundIdTaken(db, found.value, ev.refundRef);
      if !RefundIdTaken(db, found.value, ev.refundRef) {
        assert Refunds(db, OnRefundSucceeded(db, ev).db, found.value, ev);
      }
    }
  }

  /** The processor does what EventMeans says, for every event and wherever a fault strikes. */
  lemma ProcessMeans(db: Database, ev: Event, row: nat, now: int, fault: Fault)
    requires Linked(db)
    ensures var o := Process(db, ev, row, now, fault); EventMeans(db, ev, now, fault, o.db, o.done)
  {
    hide WasPaid, Payable, Concerned, Refundable, IntentMeant, RefundMeant, OnPaymentSucceeded, OnRefundSucceeded, Pays, Refunds;
    PaymentMeans(db, ev, row, now);
    MeantIsConcerned(db, ev);
    MeantIsRefundable(db, ev);
    var o := Process(db, ev, row, now, fault);
    match ev.kind
    case PaymentSucceeded =>
    case PaymentFailed =>
      if o.done { assert MarksIntent(db, o.db, IntentMeant(db, ev).value, IntentFailed, now); }
    case PaymentRequiresAction =>
      if fault != Early && IntentMeant(db, ev).Some? { assert MarksIntent(db, o.db, IntentMeant(db, ev).value, RequiresAction, now); }
    case RefundSucceeded =>
      RefundSuccessMeans(db, ev);
    case RefundFailed =>
      assert RefundMeant(db, ev).Some? ==> Refundable(db, ev, RefundMeant(db, ev).value);
      if fault != Early && RefundMeant(db, ev).Some? { assert MarksRefund(db, o.db, RefundMeant(db, ev).value, RefundRefused); }
    case UnknownKind =>
  }

  lemma RefundOfAnOrder(db: Database, k: nat)
    requires Linked(db) && k < |db.refunds|
    ensures db.refunds[k].order < |db.book.orders|
  {
  }

  // ---- what a delivery, a retry and a reconciliation do ----

  predicate InStore(db: Database, provider: string, eventId: string) {
    exists e :: e in db.events && e.provider == provider && e.event.eventId == eventId
  }

  /** The rows of `after` under the event store of db. */
  function TablesOf(db: Database, after: Database): Database {
    after.(events := db.events, commits := db.commits)
  }

  function Fate(done: bool): EventStatus {
    if done then Processed else Failed
  }

  /** Event row k is processed as `ev`: its effects, its mark, its commit. */
  ghost predicate Handled(db: Database, k: nat, ev: Event, now: int, fault: Fault, retries: nat, after: Database, done: bool) {
    && k < |db.events| == |after.events|
    && EventMeans(db, ev, now, fault, TablesOf(db, after), done)
    && after.events[k].provider == db.events[k].provider && after.events[k].event == db.events[k].event
    && after.events[k].status == Fate(done) && after.events[k].retries == (if done then db.events[k].retries else retries)
    && (forall j :: 0 <= j < |db.events| && j != k ==> after.events[j] == db.events[j])
    && after.commits == db.commits + if done then [EventKey(db.events[k].provider, db.events[k].event.eventId)] else []
  }

  /** An event not yet in the store is stored under this provider and processed once. */
  ghost predicate Delivered(db: Database, provider: string, ev: Event, now: int, fault: Fault, after: Database, done: bool) {
    && !InStore(db, provider, ev.eventId)
    && EventMeans(db, ev, now, fault, TablesOf(db, after), done)
    && after.events == db.events + [EventRow(provider, ev, Fate(done), 0)]
    && after.commits == db.commits + if done then [EventKey(provider, ev.eventId)] else []
  }

  /** The first delivery counts, every other changes nothing. */
  ghost predicate DeliveryMeans(db: Database, provider: string, ev: Event, now: int, fault: Fault, after: Database) {
    if InStore(db, provider, ev.eventId) then after == db
    else exists done :: Delivered(db, provider, ev, now, fault, after, done)
  }

  lemma EventMeansFrame(db: Database, ev: Event, now: int, fault: Fault, after: Database, done: bool, store: Database)
    requires EventMeans(db, ev, now, fault, after, done)
    ensures EventMeans(TablesOf(store, db), ev, now, fault, TablesOf(store, after), done)
  {
    hide PaidUp;
    var from, to := TablesOf(store, db), TablesOf(store, after);
    assert forall k: nat :: Payable(from, ev, k) == Payable(db, ev, k);
    assert forall k: nat :: Concerned(from, ev, k) == Concerned(db, ev, k);
    assert forall k: nat :: Refundable(from, ev, k) == Refundable(db, ev, k);
    assert forall k: nat :: IdElsewhere(from, k, ev.refundRef) == IdElsewhere(db, k, ev.refundRef);
    assert forall k: nat :: Pays(db, after, k, ev, now) ==> Pays(from, to, k, ev, now);
    assert forall k: nat, s :: MarksIntent(db, after, k, s, now) ==> MarksIntent(from, to, k, s, now);
    assert forall k: nat :: Refunds(db, after, k, ev) ==> Refunds(from, to, k, ev);
    assert forall k: nat, s :: MarksRefund(db, after, k, s) ==> MarksRefund(from, to, k, s);
    hide Payable, Concerned, Refundable, IdElsewhere, Pays, MarksIntent, Refunds, MarksRefund;
  }

  lemma ProcessRowMeans(db: Database, k: nat, ev: Event, row: nat, now: int, fault: Fault, failed: EventRow)
    requires Linked(db) && k < |db.events|
    requires failed.status == Failed && failed.provider == db.events[k].provider && failed.event == db.events[k].event
    ensures var o := ProcessRow(db, k, ev, row, now, fault, failed); Handled(db, k, ev, now, fault, failed.retries, o.db, o.done)
  {
    ProcessMeans(db, ev, row, now, fault);
    var o, p := ProcessRow(db, k, ev, row, now, fault, failed), Process(db, ev, row, now, fault);
    assert TablesOf(db, o.db) == p.db;
    hide Process, EventMeans, Linked;
  }

  lemma DeliverMeans(db: Database, provider: string, ev: Event, row: nat, now: int, fault: Fault)
    requires Linked(db)
    ensures DeliveryMeans(db, provider, ev, now, fault, Deliver(db, provider, ev, row, now, fault))
  {
    assert InStore(db, provider, ev.eventId) == Stored(db, EventKey(provider, ev.eventId));
    if !Stored(db, EventKey(provider, ev.eventId)) {
      DeliveredOnce(db, provider, ev, row, now, fault);
    }
    hide Deliver, Linked;
  }

  lemma DeliveredOnce(db: Database, provider: string, ev: Event, row: nat, now: int, fault: Fault)
    requires Linked(db) && !Stored(db, EventKey(provider, ev.eventId))
    ensures var stored := db.(events := db.events + [EventRow(provider, ev, Received, 0)]);
      Delivered(db, provider, ev, now, fault, Deliver(db, provider, ev, row, now, fault), Process(stored, ev, row, now, fault).done)
  {
    var entry := EventRow(provider, ev, Received, 0);
    var stored, after := db.(events := db.events + [entry]), Deliver(db, provider, ev, row, now, fault);
    var o := Process(stored, ev, row, now, fault);
    assert Linked(stored);
    ProcessMeans(stored, ev, row, now, fault);
    EventMeansFrame(stored, ev, now, fault, o.db, o.done, db);
    assert TablesOf(db, stored) == db && TablesOf(db, o.db) == TablesOf(db, after);
    hide Process, EventMeans, Linked;
    assert after.events == db.events + [EventRow(provider, ev, Fate(o.done), 0)];
  }

  /** What the webhook answers and does: an unknown provider, a bad signature, a missing id and an
      event already stored change nothing and are told apart; any other event is delivered, and
      the answer says whether its processing was done. */
  ghost predicate WebhookMeans(db: Database, provider: string, checked: Checked, now: int, fault: Fault, after: Database, reply: WebhookReply) {
    match checked
    case NoProvider => reply == UnknownProvider && after == db
    case BadSignature => reply == InvalidSignature && after == db
    case Good(ev) =>
      if ev.eventId == "" then reply == MissingEventId && after == db
      else if InStore(db, provider, ev.eventId) then reply == Duplicate && after == db
      else reply in {Done, ProcessingFailed} && Delivered(db, provider, ev, now, fault, after, reply == Done)
  }

  lemma HandleWebhookMeans(db: Database, provider: string, checked: Checked, row: nat, now: int, fault: Fault)
    requires Linked(db)
    ensures var r := HandleWebhook(db, provider, checked, row, now, fault); WebhookMeans(db, provider, checked, now, fault, r.0, r.1)
  {
    if checked.Good? {
      var ev := checked.event;
      assert InStore(db, provider, ev.eventId) == Stored(db, EventKey(provider, ev.eventId));
      if !Stored(db, EventKey(provider, ev.eventId)) {
        DeliveredOnce(db, provider, ev, row, now, fault);
      }
    }
    hide Deliver, Linked, Process, Delivered;
  }

  /** A retry processes the stored event under the provider it was stored under; a failure
      spends one retry. */
  lemma RetryMeans(db: Database, k: nat, row: nat, now: int, fault: Fault)
    requires Linked(db) && k < |db.events| && db.events[k].status == Failed
    ensures var o, e := RetryRow(db, k, row, now, fault), db.events[k];
      Handled(db, k, Event(e.event.eventId, e.event.kind, e.provider, e.event.intentRef, e.event.txn, e.event.refundRef),
              now, fault, e.retries + 1, o.db, o.done)
  {
    var e := db.events[k];
    ProcessRowMeans(db, k, e.event.(provider := e.provider), row, now, fault, e.(retries := e.retries + 1));
  }

  /** The event reconciliation makes of payment k. */
  predicate Reports(db: Database, k: nat, ev: Event) {
    && k < |db.payments| && ev.eventId == "reconcile_payment_" + Digits(k, 1) && ev.kind == PaymentSucceeded
    && ev.provider == db.payments[k].provider && ev.txn == db.payments[k].txn && ev.refundRef == None
    && ev.intentRef == if db.payments[k].intent < |db.intents| then db.intents[db.payments[k].intent].providerIntentId else None
  }

  /** A processed event is left alone, an unprocessed one is processed again without spending a
      retry, and one not in the store is delivered. */
  ghost predicate ReconcileMeans(db: Database, ev: Event, now: int, fault: Fault, after: Database) {
    if !InStore(db, ev.provider, ev.eventId) then DeliveryMeans(db, ev.provider, ev, now, fault, after)
    else exists k: nat :: k < |db.events| && StoredAs(db, k, ev)
                          && if db.events[k].status == Processed then after == db
                             else exists done :: Handled(db, k, ev, now, fault, db.events[k].retries, after, done)
  }

  predicate StoredAs(db: Database, k: nat, ev: Event)
    requires k < |db.events|
  {
    db.events[k].provider == ev.provider && db.events[k].event.eventId == ev.eventId
  }

  lemma ReconcileRowMeans(db: Database, ev: Event, row: nat, now: int, fault: Fault)
    requires Linked(db)
    ensures ReconcileMeans(db, ev, now, fault, ReconcileRow(db, ev, row, now, fault))
  {
    var key := EventKey(ev.provider, ev.eventId);
    assert InStore(db, ev.provider, ev.eventId) == Stored(db, key);
    var found := EventAt(db, key);
    if found.None? {
      DeliverMeans(db, ev.provider, ev, row, now, fault);
    } else if db.events[found.value].status != Processed {
      var failed := db.events[found.value].(status := Failed);
      ProcessRowMeans(db, found.value, ev, row, now, fault, failed);
      assert Handled(db, found.value, ev, now, fault, failed.retries, ReconcileRow(db, ev, row, now, fault), ProcessRow(db, found.value, ev, row, now, fault, failed).done);
    }
    hide Linked, Handled, DeliveryMeans, ProcessRow, Deliver, EventAt;
  }

  /** The payment's order is not PAID. */
  predicate Unsettled(db: Database, k: nat) {
    && k < |db.payments| && db.payments[k].order < |db.book.orders|
    && db.book.orders[db.payments[k].order].payment != Paid
  }

  /** The pass takes the payments whose order is not PAID, oldest first, and omits one only at
      its limit. */
  lemma {:induction false} ReconcileListIsComplete(db: Database, k: nat, limit: nat)
    requires k <= |db.payments|
    ensures var list := ReconcileList(db, k, limit);
      && |list| <= limit
      && (forall i, j :: 0 <= i < j < |list| ==> list[i] < list[j])
      && (forall j :: j in list ==> k <= j && Unsettled(db, j))
      && (forall j: nat :: k <= j && Unsettled(db, j) && j !in list ==> |list| == limit && forall i :: i in list ==> i < j)
    decreases |db.payments| - k
  {
    if k < |db.payments| && limit > 0 {
      assert Unsettled(db, k) == Unreconciled(db, db.payments[k]);
      hide Unsettled, Unreconciled;
      ReconcileListIsComplete(db, k + 1, if Unreconciled(db, db.payments[k]) then limit - 1 else limit);
    }
  }

  lemma ReconcileEventReports(db: Database, k: nat)
    requires k < |db.payments|
    ensures Reports(db, k, ReconcileEvent(db, k))
  {
  }

  // ---- confirming ----

  /** The traveler of the intent's order. */
  predicate MayConfirm(db: Database, actor: Actor, k: nat) {
    && k < |db.intents| && db.intents[k].order < |db.book.orders|
    && actor.role == TravelerRole && actor.profile == db.book.orders[db.intents[k].order].traveler
  }

  /** Paid already: the intent succeeded or its order is PAID. */
  predicate NothingToConfirm(db: Database, k: nat)
    requires k < |db.intents| && db.intents[k].order < |db.book.orders|
  {
    db.intents[k].status == IntentSucceeded || db.book.orders[db.intents[k].order].payment == Paid
  }

  /** The confirmation itself says that the payment succeeded: plain on the mock provider; on any
      other, and on the mock asked for an action, outside the webhook-only mode by the
      provider's answer. */
  predicate SaysPaid(provider: string, simulate: Simulation, webhookOnly: bool, status: IntentStatus) {
    if provider == "mock" && simulate != SimulateAction then simulate == Plain
    else !webhookOnly && status == IntentSucceeded
  }

  predicate SaysFailed(provider: string, simulate: Simulation, webhookOnly: bool, status: IntentStatus) {
    if provider == "mock" && simulate != SimulateAction then simulate == SimulateFailed
    else !webhookOnly && status == IntentFailed
  }

  /** The intent's status in the end; a final answer nobody acted on leaves it processing. */
  function StatusSaid(provider: string, simulate: Simulation, webhookOnly: bool, status: IntentStatus): IntentStatus {
    if SaysPaid(provider, simulate, webhookOnly, status) then IntentSucceeded
    else if SaysFailed(provider, simulate, webhookOnly, status) then IntentFailed
    else if status == IntentSucceeded || status == IntentFailed then Processing
    else status
  }

  /** Another intent of the order waits for its confirmation. */
  predicate OtherWaits(db: Database, k: nat)
    requires k < |db.intents|
  {
    exists j :: 0 <= j < |db.intents| && j != k && db.intents[j].order == db.intents[k].order
                && db.intents[j].status in {RequiresConfirmation, Created}
  }

  /** Accepted: from the traveler, when there is nothing left to confirm, or the provider answers
      and the order keeps one waiting intent. */
  predicate ConfirmAccepted(db: Database, actor: Actor, k: nat, provider: string, simulate: Simulation, webhookOnly: bool, answer: Option<Answer>) {
    && MayConfirm(db, actor, k)
    && (NothingToConfirm(db, k)
        || (answer.Some? && !(StatusSaid(provider, simulate, webhookOnly, answer.value.status) in {RequiresConfirmation, Created} && OtherWaits(db, k))))
  }

  predicate SetsStatus(db: Database, after: Database, k: nat, s: IntentStatus, now: int) {
    && k < |db.intents| == |after.intents|
    && after == db.(intents := db.intents[k := db.intents[k].(status := s, updatedAt := now)])
  }

  /** The event a confirmation sends: the outcome it says, on the intent's provider id. */
  predicate SentFor(db: Database, k: nat, provider: string, paid: bool, answer: Answer, eventId: string, ev: Event) {
    && k < |db.intents| && ev.eventId == eventId && ev.provider == provider
    && ev.kind == (if paid then PaymentSucceeded else PaymentFailed)
    && ev.intentRef == db.intents[k].providerIntentId && ev.txn == answer.txn && ev.refundRef == None
  }

  /** What a confirmation does. Refused, or with nothing to confirm, it changes nothing. Otherwise
      it delivers one event if the confirmation says paid or failed, and none if not; then the
      intent takes its status. */
  ghost predicate ConfirmOutcome(db: Database, actor: Actor, k: nat, provider: string, simulate: Simulation, webhookOnly: bool,
                                 answer: Option<Answer>, eventId: string, now: int, fault: Fault, after: Database, reply: PayReply) {
    && (reply.Fine? <==> ConfirmAccepted(db, actor, k, provider, simulate, webhookOnly, answer))
    && (reply.Fine? ==> reply.id == k)
    && if !reply.Fine? || NothingToConfirm(db, k) then after == db
       else
         var paid, failed := SaysPaid(provider, simulate, webhookOnly, answer.value.status), SaysFailed(provider, simulate, webhookOnly, answer.value.status);
         var status := StatusSaid(provider, simulate, webhookOnly, answer.value.status);
         if !paid && !failed then SetsStatus(db, after, k, status, now)
         else exists ev, synced :: SentFor(db, k, provider, paid, answer.value, eventId, ev)
                && DeliveryMeans(db, provider, ev, now, fault, synced) && SetsStatus(synced, after, k, status, now)
  }

  lemma SaidIsSent(db: Database, k: nat, provider: string, simulate: Simulation, webhookOnly: bool, answer: Answer, eventId: string)
    requires k < |db.intents|
    ensures var ev := ConfirmEvent(db.intents[k], provider, simulate, webhookOnly, answer, eventId);
      var paid, failed := SaysPaid(provider, simulate, webhookOnly, answer.status), SaysFailed(provider, simulate, webhookOnly, answer.status);
      && (ev.Some? <==> paid || failed)
      && (ev.Some? ==> ev.value.provider == provider && SentFor(db, k, provider, paid, answer, eventId, ev.value))
    ensures ConfirmedStatus(provider, simulate, webhookOnly, answer) == StatusSaid(provider, simulate, webhookOnly, answer.status)
  {
  }

  lemma ConfirmMeans(db: Database, actor: Actor, k: nat, provider: string, simulate: Simulation, webhookOnly: bool,
                     answer: Option<Answer>, eventId: string, row: nat, now: int, fault: Fault)
    requires Linked(db)
    ensures var r := Confirm(db, actor, k, provider, simulate, webhookOnly, answer, eventId, row, now, fault);
      ConfirmOutcome(db, actor, k, provider, simulate, webhookOnly, answer, eventId, now, fault, r.0, r.1)
  {
    hide WasPaid, Deliver, DeliveryMeans, ConfirmEvent, ConfirmedStatus, SaysPaid, SaysFailed;
    if MayConfirm(db, actor, k) && !NothingToConfirm(db, k) && answer.Some? {
      SaidIsSent(db, k, provider, simulate, webhookOnly, answer.value, eventId);
      var ev := ConfirmEvent(db.intents[k], provider, simulate, webhookOnly, answer.value, eventId);
      var status := ConfirmedStatus(provider, simulate, webhookOnly, answer.value);
      OthersStayActive(db, k, status, now);
      if ev.Some? {
        DeliverMeans(db, provider, ev.value, row, now, fault);
        var synced := Deliver(db, provider, ev.value, row, now, fault);
        assert SetsStatus(synced, SetIntent(synced, k, status, now), k, status, now);
      }
    }
    hide Linked;
  }

  /** The event's provider id leads to the order: an intent has it, and each that does is of the order. */
  predicate LeadsTo(db: Database, ref: Option<string>, id: nat) {
    && (exists i :: i in db.intents && Names(i, ref))
    && (forall i :: i in db.intents && Names(i, ref) ==> i.order == id)
  }

  lemma DeliveredPayment(db: Database, provider: string, ev: Event, now: int, fault: Fault, after: Database, id: nat)
    requires DeliveryMeans(db, provider, ev, now, fault, after)
    ensures after.refunds == db.refunds || ev.kind !in {PaymentSucceeded, PaymentFailed}
    ensures ev.kind == PaymentFailed || (ev.kind == PaymentSucceeded && (fault != NoFault || InStore(db, provider, ev.eventId)))
            ==> after.book == db.book && after.payments == db.payments
    ensures ev.kind == PaymentSucceeded && fault == NoFault && !InStore(db, provider, ev.eventId) && LeadsTo(db, ev.intentRef, id)
            ==> PaidUp(db.book, after.book, id, now) && (ev.txn.Some? ==> OnRecord(after, ev.provider, ev.txn))
  {
    hide PaidUp;
    if ev.kind == PaymentSucceeded && fault == NoFault && !InStore(db, provider, ev.eventId) && LeadsTo(db, ev.intentRef, id) {
      NamedIsPayable(db, ev, id);
      hide Payable, LeadsTo, OnRecord, Pays;
      var k: nat :| Payable(db, ev, k) && Pays(db, TablesOf(db, after), k, ev, now);
      PaidOnRecord(db, TablesOf(db, after), k, ev, now);
      SameRecord(TablesOf(db, after), after, ev);
    }
  }

  lemma NamedIsPayable(db: Database, ev: Event, id: nat)
    requires LeadsTo(db, ev.intentRef, id)
    ensures exists k: nat :: Payable(db, ev, k)
    ensures forall k: nat :: Payable(db, ev, k) ==> db.intents[k].order == id
  {
    var i :| i in db.intents && Names(i, ev.intentRef);
    var k: nat :| k < |db.intents| && db.intents[k] == i;
    assert Payable(db, ev, k);
  }

  lemma PaidOnRecord(db: Database, after: Database, k: nat, ev: Event, now: int)
    requires Pays(db, after, k, ev, now)
    ensures PaidUp(db.book, after.book, db.intents[k].order, now)
    ensures ev.txn.Some? ==> OnRecord(after, ev.provider, ev.txn)
  {
    hide PaidUp;
    if ev.txn.Some? && !OnRecord(db, ev.provider, ev.txn) {
      assert after.payments[|db.payments|].txn == ev.txn;
    }
  }

  lemma SameRecord(db: Database, after: Database, ev: Event)
    requires after.payments == db.payments
    ensures OnRecord(after, ev.provider, ev.txn) == OnRecord(db, ev.provider, ev.txn)
  {
  }

  /** An answered confirmation of an open payment, case by case. On the mock provider the caller
      decides: a failure leaves the money alone and fails the intent, success settles it, a wish
      for action without a final answer stores no event. Elsewhere the answer decides, outside
      the webhook-only mode, in which a final answer leaves the intent processing and the money
      alone. With a fresh event id, no fault and a provider id that leads to the order, the order
      is paid up exactly when the confirmation says paid. Refunds are never touched. */
  lemma ConfirmCases(db: Database, actor: Actor, k: nat, provider: string, simulate: Simulation, webhookOnly: bool,
                     answer: Answer, eventId: string, row: nat, now: int, fault: Fault)
    requires Linked(db) && MayConfirm(db, actor, k) && !NothingToConfirm(db, k)
    ensures var (after, reply) := Confirm(db, actor, k, provider, simulate, webhookOnly, Some(answer), eventId, row, now, fault);
      var id, final := db.intents[k].order, answer.status in {IntentSucceeded, IntentFailed};
      var asked := provider == "mock" && simulate != SimulateAction;
      var paid := if asked then simulate == Plain else !webhookOnly && answer.status == IntentSucceeded;
      && after.refunds == db.refunds && |after.intents| == |db.intents|
      && (asked && simulate == SimulateFailed ==> reply == Fine(k) && after.intents[k].status == IntentFailed)
      && (asked && simulate == Plain ==> reply == Fine(k) && after.intents[k].status == IntentSucceeded)
      && (!asked && final && webhookOnly ==> reply == Fine(k) && after.intents[k].status == Processing)
      && (!asked && final && !webhookOnly ==> reply == Fine(k) && after.intents[k].status == answer.status)
      && (!asked && !final && reply.Fine? ==> after.intents[k].status == answer.status)
      && (!asked && (webhookOnly || !final) ==> after.events == db.events && after.commits == db.commits)
      && (asked || (final && !webhookOnly) ==> InStore(after, provider, eventId))
      && (!paid || fault != NoFault || InStore(db, provider, eventId) ==> after.book == db.book && after.payments == db.payments)
      && (paid && fault == NoFault && !InStore(db, provider, eventId) && LeadsTo(db, db.intents[k].providerIntentId, id)
          ==> PaidUp(db.book, after.book, id, now) && (answer.txn.Some? ==> OnRecord(after, provider, answer.txn)))
  {
    ConfirmMeans(db, actor, k, provider, simulate, webhookOnly, Some(answer), eventId, row, now, fault);
    var after := Confirm(db, actor, k, provider, simulate, webhookOnly, Some(answer), eventId, row, now, fault).0;
    var paid, failed := SaysPaid(provider, simulate, webhookOnly, answer.status), SaysFailed(provider, simulate, webhookOnly, answer.status);
    hide Confirm, PaidUp, DeliveryMeans, LeadsTo, WasPaid, InStore, OnRecord;
    if paid || failed {
      var ev, synced :| SentFor(db, k, provider, paid, answer, eventId, ev) && DeliveryMeans(db, provider, ev, now, fault, synced)
                        && SetsStatus(synced, after, k, StatusSaid(provider, simulate, webhookOnly, answer.status), now);
      DeliveredPayment(db, provider, ev, now, fault, synced, db.intents[k].order);
      DeliveredIsInStore(db, provider, ev, now, fault, synced);
      SameRecord(synced, after, ev);
      SameStore(synced, after, provider, eventId);
    }
  }

  lemma DeliveredIsInStore(db: Database, provider: string, ev: Event, now: int, fault: Fault, after: Database)
    requires DeliveryMeans(db, provider, ev, now, fault, after)
    ensures InStore(after, provider, ev.eventId)
  {
    hide EventMeans;
    if !InStore(db, provider, ev.eventId) {
      assert after.events[|db.events|] in after.events;
    }
  }

  lemma SameStore(db: Database, after: Database, provider: string, eventId: string)
    requires after.events == db.events
    ensures InStore(after, provider, eventId) == InStore(db, provider, eventId)
  {
  }

  // ---- creating an intent ----

  predicate Waiting(i: Intent, id: nat) {
    i.order == id && i.status in {RequiresConfirmation, Created}
  }

  /** Who may open an intent on order id: its traveler, at its price, while it is unpaid and open. */
  predicate MayIntend(db: Database, actor: Actor, id: nat, priced: bool) {
    && priced && id < |db.book.orders|
    && var o := db.book.orders[id];
    actor.role == TravelerRole && actor.profile == o.traveler && o.payment == Unpaid
    && o.status !in {CancelledRefunded, CancelledByTraveler, Completed}
  }

  /** An order with a waiting intent gets that one; any other gets a new one, as the provider
      answered, unless no answer comes or the key is used on the order. */
  ghost predicate IntentOutcome(db: Database, actor: Actor, id: nat, priced: bool, provider: string, key: Option<string>,
                                answer: Option<IntentAnswer>, now: int, after: Database, reply: PayReply) {
    if !MayIntend(db, actor, id, priced) then !reply.Fine? && after == db
    else if exists i :: i in db.intents && Waiting(i, id) then
      && reply.Fine? && reply.id < |db.intents| && Waiting(db.intents[reply.id], id) && after == db
      && forall j :: reply.id < j < |db.intents| ==> !Waiting(db.intents[j], id)
    else if answer.Some? && !(key.Some? && exists i :: i in db.intents && i.order == id && i.key == key) then
      && reply == Fine(|db.intents|)
      && after == db.(intents := db.intents + [Intent(id, provider, answer.value.providerIntentId, answer.value.status, key, now)])
    else !reply.Fine? && after == db
  }

  lemma CreateIntentMeans(db: Database, actor: Actor, id: nat, priced: bool, provider: string, key: Option<string>,
                          answer: Option<IntentAnswer>, now: int)
    ensures var r := CreateIntent(db, actor, id, priced, provider, key, answer, now);
      IntentOutcome(db, actor, id, priced, provider, key, answer, now, r.0, r.1)
  {
    hide Newest;
    assert forall i: Intent :: Waiting(i, id) == (i.order == id && Active(i));
  }

  // ---- refunds ----

  /** The newest payment of the order. */
  predicate LastPayment(db: Database, id: nat, p: nat) {
    p < |db.payments| && db.payments[p].order == id && forall j :: p < j < |db.payments| ==> db.payments[j].order != id
  }

  predicate KeyUsed(db: Database, id: nat, key: Option<string>) {
    key.Some? && exists r :: r in db.refunds && r.order == id && r.key == key
  }

  /** A refund can be asked for: the order is PAID or REFUNDED, some payment is on record, and the
      key is new to the order. */
  predicate MayRefund(db: Database, id: nat, key: Option<string>) {
    && id < |db.book.orders| && (db.book.orders[id].payment == Paid || db.book.orders[id].payment == Refunded)
    && (exists p :: p in db.payments && p.order == id) && !KeyUsed(db, id, key)
  }

  predicate RefundIdUsed(db: Database, ref: Option<string>) {
    ref.Some? && exists r :: r in db.refunds && r.providerRefundId == ref
  }

  /** What the row says of the provider's answer. */
  function RefundSaid(webhookOnly: bool, s: RefundStatus): RefundStatus {
    if webhookOnly && (s == RefundDone || s == RefundRefused) then RefundProcessing else s
  }

  /** The order is REFUNDING, and nothing else changed. */
  predicate LeavesRefunding(db: Database, after: Database, id: nat) {
    id < |db.book.orders|
    && after == db.(book := db.book.(orders := db.book.orders[id := db.book.orders[id].(payment := Refunding)]))
  }

  predicate RefundSentFor(p: Payment, a: RefundAnswer, eventId: string, ev: Event) {
    && ev.eventId == eventId && ev.provider == p.provider && ev.intentRef == None && ev.txn == p.txn && ev.refundRef == a.providerRefundId
    && ev.kind == (if a.status == RefundDone then RefundSucceeded else RefundFailed)
  }

  /** A refund request adds one row on the order's newest payment. Without an answer, or with an id
      that is on another row, the row stays requested and the money stays; otherwise the row
      says what the provider said, a final answer outside the webhook-only mode is delivered as
      an event, and the order ends REFUNDING. */
  ghost predicate RefundOutcome(db: Database, id: nat, key: Option<string>, answer: Option<RefundAnswer>, webhookOnly: bool,
                                eventId: string, now: int, fault: Fault, after: Database, reply: PayReply) {
    && (reply.Fine? <==> MayRefund(db, id, key) && answer.Some? && !RefundIdUsed(db, answer.value.providerRefundId))
    && if !MayRefund(db, id, key) then after == db
       else exists p: nat :: LastPayment(db, id, p)
                             && Requests(db, id, p, key, answer, webhookOnly, eventId, now, fault, after, reply)
  }

  ghost predicate Requests(db: Database, id: nat, p: nat, key: Option<string>, answer: Option<RefundAnswer>, webhookOnly: bool,
                           eventId: string, now: int, fault: Fault, after: Database, reply: PayReply)
    requires p < |db.payments|
  {
    var provider := db.payments[p].provider;
    if !reply.Fine? then after == db.(refunds := db.refunds + [RefundRow(id, p, provider, Requested, None, key)])
    else
      answer.Some? && reply.id == |db.refunds|
      && var a := answer.value;
      var recorded := db.(refunds := db.refunds + [RefundRow(id, p, provider, RefundSaid(webhookOnly, a.status), a.providerRefundId, key)]);
      if !webhookOnly && (a.status == RefundDone || a.status == RefundRefused)
      then exists ev, synced :: RefundSentFor(db.payments[p], a, eventId, ev)
             && DeliveryMeans(recorded, provider, ev, now, fault, synced) && LeavesRefunding(synced, after, id)
      else LeavesRefunding(recorded, after, id)
  }

  lemma NewRefundIsLinked(db: Database, id: nat, p: nat, s: RefundStatus, ref: Option<string>, key: Option<string>)
    requires Linked(db) && LastPayment(db, id, p)
    ensures Linked(db.(refunds := db.refunds + [RefundRow(id, p, db.payments[p].provider, s, ref, key)]))
  {
    hide WasPaid;
  }

  lemma NewRefundId(db: Database, row: RefundRow, ref: Option<string>)
    ensures RefundIdTaken(db.(refunds := db.refunds + [row]), |db.refunds|, ref) == RefundIdUsed(db, ref)
  {
    var after := db.(refunds := db.refunds + [row]);
    if RefundIdUsed(db, ref) {
      var r :| r in db.refunds && r.providerRefundId == ref;
      var j :| 0 <= j < |db.refunds| && db.refunds[j] == r;
      assert after.refunds[j].providerRefundId == ref;
    }
  }

  lemma SettleRefundMeans(db: Database, id: nat, p: nat, key: Option<string>, answer: Option<RefundAnswer>, webhookOnly: bool,
                          eventId: string, row: nat, now: int, fault: Fault)
    requires Linked(db) && id < |db.book.orders| && LastPayment(db, id, p)
    ensures var requested := db.(refunds := db.refunds + [RefundRow(id, p, db.payments[p].provider, Requested, None, key)]);
      var r := SettleRefund(requested, id, |db.refunds|, db.payments[p], answer, webhookOnly, eventId, row, now, fault);
      && (r.1.Fine? <==> answer.Some? && !RefundIdUsed(db, answer.value.providerRefundId))
      && Requests(db, id, p, key, answer, webhookOnly, eventId, now, fault, r.0, r.1)
  {
    hide WasPaid, Deliver, DeliveryMeans, Linked, RefundIdUsed, RefundIdTaken;
    var payment, n := db.payments[p], |db.refunds|;
    var requested := db.(refunds := db.refunds + [RefundRow(id, p, payment.provider, Requested, None, key)]);
    if answer.Some? {
      var a := answer.value;
      NewRefundId(db, requested.refunds[n], a.providerRefundId);
      var recorded := db.(refunds := db.refunds + [RefundRow(id, p, payment.provider, RefundSaid(webhookOnly, a.status), a.providerRefundId, key)]);
      assert requested.refunds[n := recorded.refunds[n]] == recorded.refunds;
      var ev := RefundEvent(payment, a, webhookOnly, eventId);
      if ev.Some? {
        NewRefundIsLinked(db, id, p, RefundSaid(webhookOnly, a.status), a.providerRefundId, key);
        DeliverMeans(recorded, payment.provider, ev.value, row, now, fault);
        assert RefundSentFor(payment, a, eventId, ev.value);
        var synced := Deliver(recorded, payment.provider, ev.value, row, now, fault);
        assert LeavesRefunding(synced, synced.(book := SetOrderPayment(synced.book, id, Refunding)), id);
      }
    }
  }

  lemma RefundMeans(db: Database, id: nat, key: Option<string>, answer: Option<RefundAnswer>, webhookOnly: bool,
                    eventId: string, row: nat, now: int, fault: Fault)
    requires Linked(db)
    ensures var r := RefundOrder(db, id, key, answer, webhookOnly, eventId, row, now, fault);
      RefundOutcome(db, id, key, answer, webhookOnly, eventId, now, fault, r.0, r.1)
  {
    hide SettleRefund, Requests, Linked, Newest;
    assert KeyUsed(db, id, key) == RefundKeyTaken(db, id, key);
    var found := Newest(db.payments, (p: Payment) => p.order == id);
    if found.Some? && id < |db.book.orders| {
      assert LastPayment(db, id, found.value);
      SettleRefundMeans(db, id, found.value, key, answer, webhookOnly, eventId, row, now, fault);
    }
  }

  /** Retrying refund k: nothing to do when it is done. Otherwise it takes the provider's answer and
      id, or keeps its id when the answer has none, and its order ends REFUNDING; without an
      answer, or with an id that is on another row, nothing changes. */
  ghost predicate RefundRetryOutcome(db: Database, k: nat, answer: Option<RefundAnswer>, webhookOnly: bool, after: Database, reply: PayReply) {
    if !(k < |db.refunds| && db.refunds[k].order < |db.book.orders|) then !reply.Fine? && after == db
    else if db.refunds[k].status == RefundDone then reply == Fine(k) && after == db
    else if db.refunds[k].payment >= |db.payments| || answer.None? then !reply.Fine? && after == db
    else
      var ref := if answer.value.providerRefundId.Some? then answer.value.providerRefundId else db.refunds[k].providerRefundId;
      if IdElsewhere(db, k, ref) then !reply.Fine? && after == db
      else
        reply == Fine(k)
        && LeavesRefunding(
             db.(refunds := db.refunds[k := db.refunds[k].(status := RefundSaid(webhookOnly, answer.value.status), providerRefundId := ref)]),
             after, db.refunds[k].order)
  }

  lemma RetryRefundMeans(db: Database, k: nat, answer: Option<RefundAnswer>, webhookOnly: bool)
    ensures var r := RetryRefund(db, k, answer, webhookOnly); RefundRetryOutcome(db, k, answer, webhookOnly, r.0, r.1)
  {
    assert forall ref :: IdElsewhere(db, k, ref) == RefundIdTaken(db, k, ref);
    hide IdElsewhere, RefundIdTaken;
  }
}
