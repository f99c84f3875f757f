/** Runs of the order and payment system: every writer of the tables as one kind of step,
    and what holds after any sequence of steps. */
module PaymentRuns {
  import opened Prelude
  import opened Orders
  import opened Payments

  // ---- steps ----

  datatype Action =
    | UserRoute(actor: Actor, route: Route)
    | AutoCloseJob
    | CreateIntentRoute(actor: Actor, id: nat, priced: bool, provider: string, key: Option<string>, offer: Option<IntentAnswer>)
    | ConfirmRoute(actor: Actor, id: nat, provider: string, simulate: Simulation, webhookOnly: bool, answer: Option<Answer>,
                   eventId: string, row: nat, fault: Fault)
    | RefundRoute(id: nat, key: Option<string>, refund: Option<RefundAnswer>, webhookOnly: bool, eventId: string, row: nat, fault: Fault)
    | RefundRetryRoute(id: nat, refund: Option<RefundAnswer>, webhookOnly: bool)
    | WebhookCall(provider: string, checked: Checked, row: nat, fault: Fault)
    | RetryJob(maxRetries: int, limit: nat, luck: Luck)
    | ReconcileJob(limit: nat, luck: Luck)
    | CleanupJob(cutoff: int, limit: nat, batch: set<nat>)

  datatype Timed = Timed(action: Action, now: int)

  function Next(db: Database, s: Timed): Database {
    match s.action
    case UserRoute(actor, route) => db.(book := Handle(db.book, actor, route, s.now).book)
    case AutoCloseJob => db.(book := AutoClose(db.book, s.now))
    case CreateIntentRoute(actor, id, priced, provider, key, offer) => CreateIntent(db, actor, id, priced, provider, key, offer, s.now).0
    case ConfirmRoute(actor, id, provider, simulate, webhookOnly, answer, eventId, row, fault) =>
      Confirm(db, actor, id, provider, simulate, webhookOnly, answer, eventId, row, s.now, fault).0
    case RefundRoute(id, key, refund, webhookOnly, eventId, row, fault) =>
      RefundOrder(db, id, key, refund, webhookOnly, eventId, row, s.now, fault).0
    case RefundRetryRoute(id, refund, webhookOnly) => RetryRefund(db, id, refund, webhookOnly).0
    case WebhookCall(provider, checked, row, fault) => HandleWebhook(db, provider, checked, row, s.now, fault).0
    case RetryJob(maxRetries, limit, luck) => RetryFailedEvents(db, maxRetries, limit, s.now, luck)
    case ReconcileJob(limit, luck) => Reconcile(db, limit, s.now, luck)
    case CleanupJob(cutoff, limit, batch) => Cleanup(db, cutoff, limit, batch, s.now)
  }

  function Run(db: Database, steps: seq<Timed>): Database
    decreases |steps|
  {
    if steps == [] then db else Next(Run(db, steps[..|steps| - 1]), steps[|steps| - 1])
  }

  function Empty(): Database {
    Database(Book([], []), [], [], [], [], [])
  }

  // ---- the invariant ----

  predicate WasPaid(b: Book, id: nat) {
    id < |b.orders| && b.orders[id].paidAt.Some?
  }

  /** Rows point at rows that exist; a payment or a refund only at an order that was paid. */
  ghost predicate Linked(db: Database) {
    && (forall k :: 0 <= k < |db.intents| ==> db.intents[k].order < |db.book.orders|)
    && (forall k :: 0 <= k < |db.payments| ==> WasPaid(db.book, db.payments[k].order) && db.payments[k].intent < |db.intents|)
    && (forall k :: 0 <= k < |db.refunds| ==>
          WasPaid(db.book, db.refunds[k].order) && db.refunds[k].payment < |db.payments|
          && db.payments[db.refunds[k].payment].order == db.refunds[k].order)
  }

  predicate TxnClash(p: Payment, q: Payment) {
    p.provider == q.provider && Same(p.txn, q.txn)
  }

  ghost predicate OnePerTxn(payments: seq<Payment>) {
    forall i, j :: 0 <= i < j < |payments| ==> !TxnClash(payments[i], payments[j])
  }

  ghost predicate OnePerRefundId(refunds: seq<RefundRow>) {
    forall i, j :: 0 <= i < j < |refunds| ==> !Same(refunds[i].providerRefundId, refunds[j].providerRefundId)
  }

  /** At most one active intent an order. */
  ghost predicate OneActive(intents: seq<Intent>) {
    forall i, j :: 0 <= i < j < |intents| ==> !(intents[i].order == intents[j].order && Active(intents[i]) && Active(intents[j]))
  }

  ghost predicate TablesInv(db: Database) {
    Orders.Inv(db.book) && Linked(db) && OnePerTxn(db.payments) && OnePerRefundId(db.refunds) && OneActive(db.intents)
  }

  /** Each key is stored once, is committed at most once, and is marked processed exactly
      when it was committed. */
  ghost predicate StoreInv(events: seq<EventRow>, commits: seq<EventKey>) {
    && (forall i, j :: 0 <= i < j < |events| ==> KeyOf(events[i]) != KeyOf(events[j]))
    && (forall i, j :: 0 <= i < j < |commits| ==> commits[i] != commits[j])
    && (forall k :: 0 <= k < |events| ==> (events[k].status == Processed <==> KeyOf(events[k]) in commits))
    && (forall c :: c in commits ==> exists k :: 0 <= k < |events| && KeyOf(events[k]) == c)
  }

  ghost predicate Inv(db: Database) {
    TablesInv(db) && StoreInv(db.events, db.commits)
  }

  /** Nothing is taken back: histories, payment times, stored events, commits. */
  ghost predicate Grows(db: Database, after: Database) {
    && Extends(db.book, after.book)
    && |db.payments| <= |after.payments| && after.payments[..|db.payments|] == db.payments
    && |db.events| <= |after.events|
    && (forall k :: 0 <= k < |db.events| ==> KeyOf(after.events[k]) == KeyOf(db.events[k]))
    && db.commits <= after.commits
  }

  lemma GrowsIsTransitive(a: Database, b: Database, c: Database)
    requires Grows(a, b) && Grows(b, c)
    ensures Grows(a, c)
  {
    hide Extends;
    ExtendsIsTransitive(a.book, b.book, c.book);
    assert c.payments[..|a.payments|] == b.payments[..|a.payments|];
  }

  lemma GrowsIsReflexive(db: Database)
    ensures Grows(db, db)
  {
  }

  // ---- the primitive updates keep the tables ----

  lemma ExtendsKeepsWasPaid(b: Book, c: Book, id: nat)
    requires Extends(b, c) && WasPaid(b, id)
    ensures WasPaid(c, id)
  {
    assert Continues(b, c, id);
  }

  /** Links survive whatever only extends the orders and adds payments. */
  lemma LinksSurvive(db: Database, after: Database)
    requires Linked(db) && Extends(db.book, after.book)
    requires |after.intents| >= |db.intents| && forall k :: 0 <= k < |after.intents| ==> after.intents[k].order < |after.book.orders|
    requires |after.payments| >= |db.payments| && after.payments[..|db.payments|] == db.payments
    requires forall k :: |db.payments| <= k < |after.payments| ==> WasPaid(after.book, after.payments[k].order) && after.payments[k].intent < |after.intents|
    requires |after.refunds| == |db.refunds|
    requires forall k :: 0 <= k < |db.refunds| ==> after.refunds[k].order == db.refunds[k].order && after.refunds[k].payment == db.refunds[k].payment
    ensures Linked(after)
  {
    hide Extends, WasPaid;
    forall k | 0 <= k < |db.payments|
      ensures WasPaid(after.book, after.payments[k].order) && after.payments[k].intent < |after.intents|
    {
      assert after.payments[..|db.payments|][k] == db.payments[k];
      ExtendsKeepsWasPaid(db.book, after.book, db.payments[k].order);
    }
    forall k | 0 <= k < |db.refunds|
      ensures WasPaid(after.book, after.refunds[k].order)
      ensures after.refunds[k].payment < |after.payments| && after.payments[after.refunds[k].payment].order == after.refunds[k].order
    {
      ExtendsKeepsWasPaid(db.book, after.book, db.refunds[k].order);
      assert after.payments[..|db.payments|][db.refunds[k].payment] == db.payments[db.refunds[k].payment];
    }
  }

  lemma PaymentKeeps(b: Book, id: nat, p: PaymentStatus)
    requires Orders.Inv(b) && WasPaid(b, id) && p != Unpaid
    ensures Orders.Inv(SetOrderPayment(b, id, p)) && Extends(b, SetOrderPayment(b, id, p))
  {
    assert OrderInv(b, id);
    hide History, TrueHistory, Orders.Inv, Extends;
    UpdateKeepsInv(b, id, b.orders[id].(payment := p));
  }

  lemma SetIntentKeeps(db: Database, k: nat, s: IntentStatus, now: int)
    requires TablesInv(db) && k < |db.intents|
    requires !(ActiveStatus(s) && ActiveTaken(db, k))
    ensures TablesInv(SetIntent(db, k, s, now)) && Grows(db, SetIntent(db, k, s, now))
  {
    hide Orders.Inv, WasPaid, OnePerTxn, OnePerRefundId;
    GrowsIsReflexive(db);
    hide Extends;
  }

  lemma PaymentSucceededKeeps(db: Database, ev: Event, row: nat, now: int)
    requires TablesInv(db)
    ensures var o := OnPaymentSucceeded(db, ev, row, now); TablesInv(o.db) && Grows(db, o.db)
  {
    var k := IntentPaid(db, ev, row);
    GrowsIsReflexive(db);
    if k.Some? {
      var id := db.intents[k.value].order;
      var after := OnPaymentSucceeded(db, ev, row, now).db;
      PayKeepsInv(db.book, id, now);
      assert WasPaid(after.book, id);
      hide Orders.Inv, Extends, WasPaid, IntentPaid, Pay;
      LinksSurvive(db, after);
      assert OnePerTxn(after.payments);
    }
  }

  lemma RefundSucceededKeeps(db: Database, ev: Event)
    requires TablesInv(db)
    ensures var o := OnRefundSucceeded(db, ev); TablesInv(o.db) && Grows(db, o.db)
  {
    var k := RefundMeant(db, ev);
    GrowsIsReflexive(db);
    if k.Some? && !RefundIdTaken(db, k.value, ev.refundRef) {
      var after := OnRefundSucceeded(db, ev).db;
      PaymentKeeps(db.book, db.refunds[k.value].order, Refunded);
      hide Orders.Inv, Extends, WasPaid, RefundMeant, SetOrderPayment;
      LinksSurvive(db, after);
    }
  }

  lemma SetRefundKeeps(db: Database, k: nat, s: RefundStatus, ref: Option<string>)
    requires TablesInv(db) && k < |db.refunds| && !RefundIdTaken(db, k, ref)
    ensures var after := db.(refunds := db.refunds[k := db.refunds[k].(status := s, providerRefundId := ref)]);
      TablesInv(after) && Grows(db, after)
  {
    hide Orders.Inv, WasPaid;
    GrowsIsReflexive(db);
    hide Extends;
  }

  lemma TablesGiveRefundIds(db: Database)
    requires TablesInv(db)
    ensures OnePerRefundId(db.refunds)
  {
  }

  lemma OwnRefundIdIsFree(db: Database, k: nat)
    requires OnePerRefundId(db.refunds) && k < |db.refunds|
    ensures !RefundIdTaken(db, k, db.refunds[k].providerRefundId)
  {
  }

  lemma ProcessKeeps(db: Database, ev: Event, row: nat, now: int, fault: Fault)
    requires TablesInv(db)
    ensures var o := Process(db, ev, row, now, fault); TablesInv(o.db) && Grows(db, o.db)
  {
    GrowsIsReflexive(db);
    hide TablesInv, Grows, OnPaymentSucceeded, OnRefundSucceeded, IntentMeant, RefundMeant, SetIntent;
    match ev.kind
    case PaymentSucceeded => PaymentSucceededKeeps(db, ev, row, now);
    case PaymentFailed =>
      var k := IntentMeant(db, ev);
      if k.Some? { SetIntentKeeps(db, k.value, IntentFailed, now); }
    case PaymentRequiresAction =>
      var k := IntentMeant(db, ev);
      if k.Some? { SetIntentKeeps(db, k.value, RequiresAction, now); }
    case RefundSucceeded => RefundSucceededKeeps(db, ev);
    case RefundFailed =>
      var k := RefundMeant(db, ev);
      if k.Some? {
        assert !RefundIdTaken(db, k.value, db.refunds[k.value].providerRefundId) by { TablesGiveRefundIds(db); OwnRefundIdIsFree(db, k.value); }
        SetRefundKeeps(db, k.value, RefundRefused, db.refunds[k.value].providerRefundId);
      }
    case UnknownKind =>
  }

  // ---- the event store ----

  predicate SameTables(db: Database, after: Database) {
    after.book == db.book && after.intents == db.intents && after.payments == db.payments && after.refunds == db.refunds
  }

  lemma TablesFrame(db: Database, after: Database)
    requires TablesInv(db) && SameTables(db, after)
    ensures TablesInv(after)
  {
    hide Orders.Inv, WasPaid, OnePerTxn, OnePerRefundId;
  }

  lemma AppendKeepsStore(events: seq<EventRow>, commits: seq<EventKey>, e: EventRow)
    requires StoreInv(events, commits) && e.status != Processed
    requires forall k :: 0 <= k < |events| ==> KeyOf(events[k]) != KeyOf(e)
    ensures StoreInv(events + [e], commits)
  {
    forall c | c in commits ensures exists k :: 0 <= k < |events + [e]| && KeyOf((events + [e])[k]) == c {
      var k :| 0 <= k < |events| && KeyOf(events[k]) == c;
      assert (events + [e])[k] == events[k];
    }
  }

  /** A row that is not processed is rewritten and stays unprocessed. */
  lemma MarkKeepsStore(events: seq<EventRow>, commits: seq<EventKey>, k: nat, e: EventRow)
    requires StoreInv(events, commits) && k < |events| && events[k].status != Processed
    requires e.status != Processed && KeyOf(e) == KeyOf(events[k])
    ensures StoreInv(events[k := e], commits)
  {
    var after := events[k := e];
    forall c | c in commits ensures exists j :: 0 <= j < |after| && KeyOf(after[j]) == c {
      var j :| 0 <= j < |events| && KeyOf(events[j]) == c;
      assert KeyOf(after[j]) == c;
    }
  }

  lemma CommitKeepsStore(events: seq<EventRow>, commits: seq<EventKey>, k: nat)
    requires StoreInv(events, commits) && k < |events| && events[k].status != Processed
    ensures StoreInv(events[k := events[k].(status := Processed)], commits + [KeyOf(events[k])])
  {
    var after, all := events[k := events[k].(status := Processed)], commits + [KeyOf(events[k])];
    assert forall j :: 0 <= j < |events| ==> KeyOf(after[j]) == KeyOf(events[j]);
    forall c | c in all ensures exists j :: 0 <= j < |after| && KeyOf(after[j]) == c {
      if c == KeyOf(events[k]) {
        assert KeyOf(after[k]) == c;
      } else {
        assert c in commits;
        var j :| 0 <= j < |events| && KeyOf(events[j]) == c;
        assert KeyOf(after[j]) == c;
      }
    }
  }

  lemma ProcessRowKeeps(db: Database, k: nat, ev: Event, row: nat, now: int, fault: Fault, failed: EventRow)
    requires Inv(db) && k < |db.events| && db.events[k].status != Processed
    requires failed.status != Processed && KeyOf(failed) == KeyOf(db.events[k])
    ensures var o := ProcessRow(db, k, ev, row, now, fault, failed); Inv(o.db) && Grows(db, o.db)
  {
    var p := Process(db, ev, row, now, fault);
    var after := ProcessRow(db, k, ev, row, now, fault, failed).db;
    ProcessKeeps(db, ev, row, now, fault);
    hide TablesInv, StoreInv, Process, Extends;
    TablesFrame(p.db, after);
    if p.done {
      CommitKeepsStore(db.events, db.commits, k);
    } else {
      MarkKeepsStore(db.events, db.commits, k, failed);
    }
  }

  lemma DeliverKeeps(db: Database, provider: string, ev: Event, row: nat, now: int, fault: Fault)
    requires Inv(db)
    ensures Inv(Deliver(db, provider, ev, row, now, fault)) && Grows(db, Deliver(db, provider, ev, row, now, fault))
  {
    GrowsIsReflexive(db);
    if !Stored(db, EventKey(provider, ev.eventId)) {
      var entry := EventRow(provider, ev, Received, 0);
      var stored := db.(events := db.events + [entry]);
      hide TablesInv, StoreInv, ProcessRow, Extends;
      TablesFrame(db, stored);
      forall k | 0 <= k < |db.events| ensures KeyOf(db.events[k]) != KeyOf(entry) {
        assert db.events[k] in db.events;
      }
      AppendKeepsStore(db.events, db.commits, entry);
      ProcessRowKeeps(stored, |db.events|, ev, row, now, fault, entry.(status := Failed));
      assert Grows(db, stored);
      GrowsIsTransitive(db, stored, Deliver(db, provider, ev, row, now, fault));
    }
  }

  // ---- what one pass of the retry loop does to the store ----

  /** A retried row is committed, or stays failed with one more retry spent. */
  predicate Retried(e: EventRow, after: EventRow) {
    after == e.(status := Processed) || after == e.(retries := e.retries + 1)
  }

  ghost predicate RetriedExactly(events: seq<EventRow>, after: seq<EventRow>, list: seq<nat>) {
    |after| == |events|
    && forall k :: 0 <= k < |events| ==>
         if k in list then Retried(events[k], after[k]) else after[k] == events[k]
  }

  /** Every listed row is retried once and no other row changes. */
  lemma {:induction false} RetryRowsAt(db: Database, list: seq<nat>, i: nat, now: int, luck: Luck)
    requires i <= |list|
    requires forall j :: 0 <= j < |list| ==> list[j] < |db.events|
    requires forall j, l :: 0 <= j < l < |list| ==> list[j] < list[l]
    ensures RetriedExactly(db.events, RetryRows(db, list, i, now, luck).events, list[..i])
    decreases i
  {
    hide ProcessRow;
    if i > 0 {
      RetryRowsAt(db, list, i - 1, now, luck);
      assert list[i - 1] !in list[..i - 1];
      assert list[..i] == list[..i - 1] + [list[i - 1]];
    }
  }

  lemma NotYetRetried(db: Database, list: seq<nat>, i: nat, now: int, luck: Luck)
    requires 1 <= i <= |list|
    requires forall j :: 0 <= j < |list| ==> list[j] < |db.events|
    requires forall j, l :: 0 <= j < l < |list| ==> list[j] < list[l]
    ensures RetryRows(db, list, i - 1, now, luck).events[list[i - 1]] == db.events[list[i - 1]]
  {
    hide RetryRows;
    RetryRowsAt(db, list, i - 1, now, luck);
    assert list[i - 1] !in list[..i - 1];
  }

  lemma {:induction false} RetryRowsKeep(db: Database, list: seq<nat>, i: nat, now: int, luck: Luck)
    requires Inv(db) && i <= |list|
    requires forall j :: 0 <= j < |list| ==> list[j] < |db.events| && db.events[list[j]].status == Failed
    requires forall j, l :: 0 <= j < l < |list| ==> list[j] < list[l]
    ensures Inv(RetryRows(db, list, i, now, luck)) && Grows(db, RetryRows(db, list, i, now, luck))
    decreases i
  {
    hide Inv, Grows, ProcessRow;
    if i == 0 {
      GrowsIsReflexive(db);
    } else {
      RetryRowsKeep(db, list, i - 1, now, luck);
      NotYetRetried(db, list, i, now, luck);
      var before := RetryRows(db, list, i - 1, now, luck);
      var k := list[i - 1];
      var e := before.events[k];
      ProcessRowKeeps(before, k, e.event.(provider := e.provider), luck.rows(i), now, luck.faults(i), e.(retries := e.retries + 1));
      GrowsIsTransitive(db, before, RetryRows(db, list, i, now, luck));
    }
  }

  lemma RetryKeeps(db: Database, maxRetries: int, limit: nat, now: int, luck: Luck)
    requires Inv(db)
    ensures Inv(RetryFailedEvents(db, maxRetries, limit, now, luck)) && Grows(db, RetryFailedEvents(db, maxRetries, limit, now, luck))
  {
    var list := RetryList(db.events, 0, maxRetries, limit);
    RetryRowsKeep(db, list, |list|, now, luck);
  }

  // ---- reconciliation ----

  lemma ReconcileRowKeeps(db: Database, ev: Event, row: nat, now: int, fault: Fault)
    requires Inv(db)
    ensures Inv(ReconcileRow(db, ev, row, now, fault)) && Grows(db, ReconcileRow(db, ev, row, now, fault))
  {
    GrowsIsReflexive(db);
    hide Inv, Grows, ProcessRow, Deliver;
    var k := EventAt(db, EventKey(ev.provider, ev.eventId));
    if k.None? {
      DeliverKeeps(db, ev.provider, ev, row, now, fault);
    } else if db.events[k.value].status != Processed {
      ProcessRowKeeps(db, k.value, ev, row, now, fault, db.events[k.value].(status := Failed));
    }
  }

  lemma {:induction false} ReconcileRowsKeep(db: Database, list: seq<nat>, i: nat, now: int, luck: Luck)
    requires Inv(db) && i <= |list| && forall j :: 0 <= j < |list| ==> list[j] < |db.payments|
    ensures Inv(ReconcileRows(db, list, i, now, luck)) && Grows(db, ReconcileRows(db, list, i, now, luck))
    decreases i
  {
    hide Inv, Grows, ReconcileRow;
    if i == 0 {
      GrowsIsReflexive(db);
    } else {
      ReconcileRowsKeep(db, list, i - 1, now, luck);
      var before := ReconcileRows(db, list, i - 1, now, luck);
      ReconcileRowKeeps(before, ReconcileEvent(db, list[i - 1]), luck.rows(i), now, luck.faults(i));
      GrowsIsTransitive(db, before, ReconcileRows(db, list, i, now, luck));
    }
  }

  // ---- the payment routes ----

  lemma BookKeeps(db: Database, book: Book)
    requires Inv(db) && Orders.Inv(book) && Extends(db.book, book)
    ensures Inv(db.(book := book)) && Grows(db, db.(book := book))
  {
    hide Orders.Inv, Extends, WasPaid, StoreInv;
    var after := db.(book := book);
    forall k | 0 <= k < |db.intents| ensures db.intents[k].order < |book.orders| {
      ExtendsGrows(db.book, book);
    }
    LinksSurvive(db, after);
  }

  lemma ExtendsGrows(b: Book, c: Book)
    requires Extends(b, c)
    ensures |b.orders| <= |c.orders|
  {
  }

  lemma CreateIntentKeeps(db: Database, actor: Actor, id: nat, priced: bool, provider: string, key: Option<string>, offer: Option<IntentAnswer>, now: int)
    requires Inv(db)
    ensures var after := CreateIntent(db, actor, id, priced, provider, key, offer, now).0; Inv(after) && Grows(db, after)
  {
    GrowsIsReflexive(db);
    var after := CreateIntent(db, actor, id, priced, provider, key, offer, now).0;
    if after != db {
      hide Orders.Inv, Extends, WasPaid, StoreInv, OnePerTxn, OnePerRefundId, CreateIntent;
      assert SameIntentsButOne(db, after, id) by { CreateIntentAppends(db, actor, id, priced, provider, key, offer, now); }
    }
  }

  ghost predicate SameIntentsButOne(db: Database, after: Database, id: nat) {
    id < |db.book.orders| && exists i: Intent :: i.order == id && after == db.(intents := db.intents + [i])
  }

  lemma CreateIntentAppends(db: Database, actor: Actor, id: nat, priced: bool, provider: string, key: Option<string>, offer: Option<IntentAnswer>, now: int)
    requires CreateIntent(db, actor, id, priced, provider, key, offer, now).0 != db
    ensures SameIntentsButOne(db, CreateIntent(db, actor, id, priced, provider, key, offer, now).0, id)
  {
    assert CreateIntent(db, actor, id, priced, provider, key, offer, now).0
      == db.(intents := db.intents + [Intent(id, provider, offer.value.providerIntentId, offer.value.status, key, now)]);
  }

  lemma DeliverIfAnyKeeps(db: Database, ev: Option<Event>, row: nat, now: int, fault: Fault)
    requires Inv(db)
    ensures Inv(DeliverIfAny(db, ev, row, now, fault)) && Grows(db, DeliverIfAny(db, ev, row, now, fault))
  {
    GrowsIsReflexive(db);
    hide Inv, Grows, Deliver;
    if ev.Some? {
      DeliverKeeps(db, ev.value.provider, ev.value, row, now, fault);
    }
  }

  lemma OthersStayActive(db: Database, k: nat, s: IntentStatus, now: int)
    requires k < |db.intents|
    ensures ActiveTaken(SetIntent(db, k, s, now), k) <==> ActiveTaken(db, k)
  {
    var after := SetIntent(db, k, s, now);
    if j :| 0 <= j < |db.intents| && j != k && db.intents[j].order == db.intents[k].order && Active(db.intents[j]) {
      assert after.intents[j] == db.intents[j];
    }
    if j :| 0 <= j < |db.intents| && j != k && after.intents[j].order == after.intents[k].order && Active(after.intents[j]) {
      assert after.intents[j] == db.intents[j];
    }
  }

  lemma SetIntentKeepsInv(db: Database, k: nat, s: IntentStatus, now: int)
    requires Inv(db) && k < |db.intents|
    requires !(ActiveStatus(s) && ActiveTaken(SetIntent(db, k, s, now), k))
    ensures Inv(SetIntent(db, k, s, now)) && Grows(db, SetIntent(db, k, s, now))
  {
    OthersStayActive(db, k, s, now);
    SetIntentKeeps(db, k, s, now);
    hide TablesInv, Grows, StoreInv;
  }

  lemma ConfirmKeeps(db: Database, actor: Actor, k: nat, provider: string, simulate: Simulation, webhookOnly: bool,
                     answer: Option<Answer>, eventId: string, row: nat, now: int, fault: Fault)
    requires Inv(db)
    ensures var after := Confirm(db, actor, k, provider, simulate, webhookOnly, answer, eventId, row, now, fault).0; Inv(after) && Grows(db, after)
  {
    GrowsIsReflexive(db);
    hide Inv, Grows, DeliverIfAny, ConfirmEvent, ConfirmedStatus, ActiveTaken;
    if k < |db.intents| && answer.Some? {
      var ev := ConfirmEvent(db.intents[k], provider, simulate, webhookOnly, answer.value, eventId);
      DeliverIfAnyKeeps(db, ev, row, now, fault);
      var synced := DeliverIfAny(db, ev, row, now, fault);
      var settled := SetIntent(synced, k, ConfirmedStatus(provider, simulate, webhookOnly, answer.value), now);
      if !(ActiveStatus(settled.intents[k].status) && ActiveTaken(settled, k)) {
        SetIntentKeepsInv(synced, k, ConfirmedStatus(provider, simulate, webhookOnly, answer.value), now);
        GrowsIsTransitive(db, synced, settled);
      }
    }
  }

  /** Leaving the order of a payment in some paid status. */
  lemma OrderPaymentKeepsInv(db: Database, id: nat, p: PaymentStatus)
    requires Inv(db) && WasPaid(db.book, id) && p != Unpaid
    ensures var after := db.(book := SetOrderPayment(db.book, id, p)); Inv(after) && Grows(db, after)
  {
    PaymentKeeps(db.book, id, p);
    hide Orders.Inv, Extends, SetOrderPayment, Inv;
    BookParts(db);
    BookKeeps(db, SetOrderPayment(db.book, id, p));
  }

  lemma BookParts(db: Database)
    requires Inv(db)
    ensures Orders.Inv(db.book)
  {
  }

  lemma RefundRowAppended(db: Database, id: nat, p: nat, provider: string, key: Option<string>)
    requires Inv(db) && id < |db.book.orders| && p < |db.payments| && db.payments[p].order == id
    ensures var after := db.(refunds := db.refunds + [RefundRow(id, p, provider, Requested, None, key)]); Inv(after) && Grows(db, after)
  {
    GrowsIsReflexive(db);
    hide Orders.Inv, Extends, WasPaid, StoreInv, OnePerTxn;
  }

  lemma SetRefundKeepsInv(db: Database, k: nat, s: RefundStatus, ref: Option<string>)
    requires Inv(db) && k < |db.refunds| && !RefundIdTaken(db, k, ref)
    ensures var after := db.(refunds := db.refunds[k := db.refunds[k].(status := s, providerRefundId := ref)]); Inv(after) && Grows(db, after)
  {
    SetRefundKeeps(db, k, s, ref);
    hide TablesInv, Grows, StoreInv, RefundIdTaken;
  }

  lemma PaymentsArePaid(db: Database, p: nat)
    requires Inv(db) && p < |db.payments|
    ensures WasPaid(db.book, db.payments[p].order)
  {
  }

  lemma RefundsArePaid(db: Database, k: nat)
    requires Inv(db) && k < |db.refunds|
    ensures WasPaid(db.book, db.refunds[k].order)
  {
  }

  lemma GrowsKeepsWasPaid(db: Database, after: Database, id: nat)
    requires Grows(db, after) && WasPaid(db.book, id)
    ensures WasPaid(after.book, id)
  {
    ExtendsKeepsWasPaid(db.book, after.book, id);
  }

  lemma RefundOrderKeeps(db: Database, id: nat, key: Option<string>, answer: Option<RefundAnswer>, webhookOnly: bool,
                         eventId: string, row: nat, now: int, fault: Fault)
    requires Inv(db)
    ensures var after := RefundOrder(db, id, key, answer, webhookOnly, eventId, row, now, fault).0; Inv(after) && Grows(db, after)
  {
    GrowsIsReflexive(db);
    var found := Newest(db.payments, (p: Payment) => p.order == id);
    if found.Some? && id < |db.book.orders| {
      var p, n := found.value, |db.refunds|;
      var payment := db.payments[p];
      var requested := db.(refunds := db.refunds + [RefundRow(id, p, payment.provider, Requested, None, key)]);
      hide Inv, Grows, DeliverIfAny, SetOrderPayment, RefundEvent, RecordedStatus, RefundIdTaken, WasPaid;
      RefundRowAppended(db, id, p, payment.provider, key);
      if answer.Some? && !RefundIdTaken(requested, n, answer.value.providerRefundId) {
        var a := answer.value;
        SetRefundKeepsInv(requested, n, RecordedStatus(webhookOnly, a.status), a.providerRefundId);
        var recorded := requested.(refunds := requested.refunds[n := requested.refunds[n].(
                          status := RecordedStatus(webhookOnly, a.status), providerRefundId := a.providerRefundId)]);
        var ev := RefundEvent(payment, a, webhookOnly, eventId);
        DeliverIfAnyKeeps(recorded, ev, row, now, fault);
        var synced := DeliverIfAny(recorded, ev, row, now, fault);
        GrowsIsTransitive(db, requested, recorded);
        GrowsIsTransitive(db, recorded, synced);
        PaymentsArePaid(db, p);
        GrowsKeepsWasPaid(db, synced, id);
        OrderPaymentKeepsInv(synced, id, Refunding);
        GrowsIsTransitive(db, synced, synced.(book := SetOrderPayment(synced.book, id, Refunding)));
      }
    }
  }

  lemma RetryRefundKeeps(db: Database, k: nat, answer: Option<RefundAnswer>, webhookOnly: bool)
    requires Inv(db)
    ensures var after := RetryRefund(db, k, answer, webhookOnly).0; Inv(after) && Grows(db, after)
  {
    GrowsIsReflexive(db);
    if k < |db.refunds| && answer.Some? {
      var r := db.refunds[k];
      var ref := if answer.value.providerRefundId.Some? then answer.value.providerRefundId else r.providerRefundId;
      hide Inv, Grows, SetOrderPayment, RecordedStatus, RefundIdTaken, WasPaid;
      if !RefundIdTaken(db, k, ref) {
        var recorded := db.(refunds := db.refunds[k := r.(status := RecordedStatus(webhookOnly, answer.value.status), providerRefundId := ref)]);
        SetRefundKeepsInv(db, k, RecordedStatus(webhookOnly, answer.value.status), ref);
        RefundsArePaid(db, k);
        IsAnOrder(db.book, r.order);
        OrderPaymentKeepsInv(recorded, r.order, Refunding);
        GrowsIsTransitive(db, recorded, recorded.(book := SetOrderPayment(recorded.book, r.order, Refunding)));
      }
    }
  }

  lemma IsAnOrder(b: Book, id: nat)
    requires WasPaid(b, id)
    ensures id < |b.orders|
  {
  }

  lemma CleanupKeeps(db: Database, cutoff: int, limit: nat, batch: set<nat>, now: int)
    requires Inv(db)
    ensures Inv(Cleanup(db, cutoff, limit, batch, now)) && Grows(db, Cleanup(db, cutoff, limit, batch, now))
  {
    GrowsIsReflexive(db);
    hide Orders.Inv, Extends, WasPaid, StoreInv, OnePerTxn, OnePerRefundId;
  }

  // ---- runs ----

  lemma OrderStepKeeps(db: Database, s: Timed)
    requires Inv(db) && (s.action.UserRoute? || s.action.AutoCloseJob?)
    ensures Inv(Next(db, s)) && Grows(db, Next(db, s))
  {
    BookParts(db);
    hide Inv, Grows, Handle, AutoClose, Extends, Orders.Inv;
    match s.action
    case UserRoute(actor, route) =>
      HandleKeepsInv(db.book, actor, route, s.now);
      BookKeeps(db, Handle(db.book, actor, route, s.now).book);
    case AutoCloseJob =>
      AutoCloseKeepsInv(db.book, s.now);
      BookKeeps(db, AutoClose(db.book, s.now));
  }

  lemma WebhookKeeps(db: Database, provider: string, checked: Checked, row: nat, now: int, fault: Fault)
    requires Inv(db)
    ensures var after := HandleWebhook(db, provider, checked, row, now, fault).0; Inv(after) && Grows(db, after)
  {
    GrowsIsReflexive(db);
    hide Inv, Grows, Process, Deliver;
    if checked.Good? { DeliverKeeps(db, provider, checked.event, row, now, fault); }
  }

  lemma NextKeeps(db: Database, s: Timed)
    requires Inv(db)
    ensures Inv(Next(db, s)) && Grows(db, Next(db, s))
  {
    hide Inv, Grows, HandleWebhook, CreateIntent, Confirm, RefundOrder, RetryRefund, RetryFailedEvents, Reconcile, Cleanup;
    match s.action
    case UserRoute(_, _) => OrderStepKeeps(db, s);
    case AutoCloseJob => OrderStepKeeps(db, s);
    case CreateIntentRoute(actor, id, priced, provider, key, offer) => CreateIntentKeeps(db, actor, id, priced, provider, key, offer, s.now);
    case ConfirmRoute(actor, id, provider, simulate, webhookOnly, answer, eventId, row, fault) =>
      ConfirmKeeps(db, actor, id, provider, simulate, webhookOnly, answer, eventId, row, s.now, fault);
    case RefundRoute(id, key, refund, webhookOnly, eventId, row, fault) =>
      RefundOrderKeeps(db, id, key, refund, webhookOnly, eventId, row, s.now, fault);
    case RefundRetryRoute(id, refund, webhookOnly) => RetryRefundKeeps(db, id, refund, webhookOnly);
    case WebhookCall(provider, checked, row, fault) => WebhookKeeps(db, provider, checked, row, s.now, fault);
    case RetryJob(maxRetries, limit, luck) => RetryKeeps(db, maxRetries, limit, s.now, luck);
    case ReconcileJob(limit, luck) => ReconcileKeeps(db, limit, s.now, luck);
    case CleanupJob(cutoff, limit, batch) => CleanupKeeps(db, cutoff, limit, batch, s.now);
  }

  lemma ReconcileKeeps(db: Database, limit: nat, now: int, luck: Luck)
    requires Inv(db)
    ensures Inv(Reconcile(db, limit, now, luck)) && Grows(db, Reconcile(db, limit, now, luck))
  {
    hide Inv, Grows, ReconcileRows;
    var list := ReconcileList(db, 0, limit);
    ReconcileRowsKeep(db, list, |list|, now, luck);
  }

  lemma {:induction false} RunKeeps(db: Database, steps: seq<Timed>)
    requires Inv(db)
    ensures Inv(Run(db, steps)) && Grows(db, Run(db, steps))
    decreases |steps|
  {
    hide Inv, Grows, Next;
    if steps == [] {
      GrowsIsReflexive(db);
    } else {
      var n := |steps| - 1;
      RunKeeps(db, steps[..n]);
      NextKeeps(Run(db, steps[..n]), steps[n]);
      GrowsIsTransitive(db, Run(db, steps[..n]), Run(db, steps));
    }
  }

  lemma EmptyHolds()
    ensures Inv(Empty())
  {
  }
}
