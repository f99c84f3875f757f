/** What the reconciliation job does to payment states, over whole passes: it makes orders
    PAID again, refunded ones included, and which ones exactly. */
module Reconciliation {
  import opened Prelude
  import opened Strings
  import opened Orders
  import opened Payments
  import opened PaymentRuns

  function ReconcileKey(db: Database, k: nat): EventKey
    requires k < |db.payments|
  {
    EventKey(db.payments[k].provider, ReconcileEvent(db, k).eventId)
  }

  lemma ReconcileKeysDiffer(db: Database, j: nat, k: nat)
    requires j < |db.payments| && k < |db.payments| && j != k
    ensures ReconcileKey(db, j) != ReconcileKey(db, k)
  {
    var prefix := "reconcile_payment_";
    var s, t := prefix + Digits(j, 1), prefix + Digits(k, 1);
    if s == t {
      assert Digits(j, 1) == s[|prefix|..] == t[|prefix|..] == Digits(k, 1);
      DigitsValue(j, 1);
      DigitsValue(k, 1);
    }
  }

  /** A key is committed exactly when the row that holds it is processed. */
  lemma CommittedIffProcessed(db: Database, key: EventKey)
    requires PaymentRuns.Inv(db)
    ensures !Stored(db, key) ==> key !in db.commits
    ensures EventAt(db, key).Some? ==> (db.events[EventAt(db, key).value].status == Processed <==> key in db.commits)
  {
    hide TablesInv;
    if key in db.commits {
      var k :| 0 <= k < |db.events| && KeyOf(db.events[k]) == key;
      assert db.events[k] in db.events;
    }
  }

  // ---- one payment ----

  /** The intent that processing this event now would settle. */
  function Settles(db: Database, ev: Event, row: nat, fault: Fault): Option<nat> {
    if fault == NoFault then IntentPaid(db, ev, row) else None
  }

  /** The payment state of order id after a step that settles `target`, if any. */
  function PaymentAfter(db: Database, target: Option<nat>, id: nat): PaymentStatus
    requires id < |db.book.orders| && (target.Some? ==> target.value < |db.intents|)
  {
    if target.Some? && db.intents[target.value].order == id then Paid else db.book.orders[id].payment
  }

  /** What no payment event changes of the intents. */
  ghost predicate SameNames(db: Database, after: Database) {
    && |after.intents| == |db.intents| && |after.book.orders| == |db.book.orders|
    && forall k :: 0 <= k < |db.intents| ==>
         after.intents[k].order == db.intents[k].order && after.intents[k].providerIntentId == db.intents[k].providerIntentId
  }

  lemma ProcessPays(db: Database, ev: Event, row: nat, now: int, fault: Fault)
    requires PaymentRuns.Inv(db) && ev.kind == PaymentSucceeded
    ensures var o := Process(db, ev, row, now, fault); var target := Settles(db, ev, row, fault);
      && o.done == target.Some?
      && SameNames(db, o.db)
      && forall id: nat :: id < |db.book.orders| ==> o.db.book.orders[id].payment == PaymentAfter(db, target, id)
  {
    hide IntentPaid, Orders.Inv, StoreInv;
  }

  /** One row of the pass, for any stored state of its event: it settles the intent the event
      finds, pays that intent's order and no other, unless its key was committed before or a
      fault strikes; only its own key can become committed. */
  lemma RowPays(db: Database, ev: Event, row: nat, now: int, fault: Fault)
    requires PaymentRuns.Inv(db) && ev.kind == PaymentSucceeded
    ensures var after := ReconcileRow(db, ev, row, now, fault);
      var key := EventKey(ev.provider, ev.eventId);
      var target := if key in db.commits then None else Settles(db, ev, row, fault);
      && SameNames(db, after)
      && (forall id: nat :: id < |db.book.orders| ==> after.book.orders[id].payment == PaymentAfter(db, target, id))
      && after.commits == db.commits + if target.Some? then [key] else []
  {
    var key := EventKey(ev.provider, ev.eventId);
    CommittedIffProcessed(db, key);
    var k := EventAt(db, key);
    if k.None? {
      var entry := EventRow(ev.provider, ev, Received, 0);
      var stored := db.(events := db.events + [entry]);
      StoringKeeps(db, entry);
      ProcessPays(stored, ev, row, now, fault);
      assert Settles(stored, ev, row, fault) == Settles(db, ev, row, fault);
      hide Process, Settles, PaymentRuns.Inv;
    } else {
      ProcessPays(db, ev, row, now, fault);
      hide Process, Settles, PaymentRuns.Inv;
    }
  }

  lemma StoringKeeps(db: Database, entry: EventRow)
    requires PaymentRuns.Inv(db) && !Stored(db, KeyOf(entry)) && entry.status != Processed
    ensures PaymentRuns.Inv(db.(events := db.events + [entry]))
  {
    hide TablesInv, StoreInv;
    TablesFrame(db, db.(events := db.events + [entry]));
    forall k | 0 <= k < |db.events| ensures KeyOf(db.events[k]) != KeyOf(entry) {
      assert db.events[k] in db.events;
    }
    AppendKeepsStore(db.events, db.commits, entry);
  }

  // ---- a whole pass ----

  ghost predicate Ascending(list: seq<nat>, bound: nat) {
    (forall j :: 0 <= j < |list| ==> list[j] < bound) && forall j, l :: 0 <= j < l < |list| ==> list[j] < list[l]
  }

  /** Row j of the pass pays order id: its key was not committed before the pass, no fault
      strikes, and the intent its event then finds belongs to the order. */
  predicate PaysAt(db: Database, list: seq<nat>, j: nat, now: int, luck: Luck, id: nat)
    requires j < |list| && forall l :: 0 <= l < |list| ==> list[l] < |db.payments|
  {
    var target := Target(db, list, j, now, luck);
    && ReconcileKey(db, list[j]) !in db.commits && target.Some?
    && ReconcileRows(db, list, j, now, luck).intents[target.value].order == id
  }

  /** What row j of the pass settles, were its key not committed. */
  function Target(db: Database, list: seq<nat>, j: nat, now: int, luck: Luck): (target: Option<nat>)
    requires j < |list| && forall l :: 0 <= l < |list| ==> list[l] < |db.payments|
    ensures target.Some? ==> target.value < |ReconcileRows(db, list, j, now, luck).intents|
  {
    Settles(ReconcileRows(db, list, j, now, luck), ReconcileEvent(db, list[j]), luck.rows(j + 1), luck.faults(j + 1))
  }

  lemma PassStart(db: Database, list: seq<nat>, now: int, luck: Luck)
    requires forall j :: 0 <= j < |list| ==> list[j] < |db.payments|
    ensures ReconcileRows(db, list, 0, now, luck) == db && SameNames(db, db)
  {
  }

  lemma PassStep(db: Database, list: seq<nat>, j: nat, now: int, luck: Luck)
    requires PaymentRuns.Inv(db) && j < |list| && forall l :: 0 <= l < |list| ==> list[l] < |db.payments|
    ensures var s, after := ReconcileRows(db, list, j, now, luck), ReconcileRows(db, list, j + 1, now, luck);
      var key := ReconcileKey(db, list[j]);
      var target := if key in s.commits then None else Target(db, list, j, now, luck);
      && SameNames(s, after)
      && (forall id: nat :: id < |s.book.orders| ==> after.book.orders[id].payment == PaymentAfter(s, target, id))
      && after.commits == s.commits + if target.Some? then [key] else []
  {
    ReconcileRowsKeep(db, list, j, now, luck);
    hide PaymentRuns.Inv, Grows, Settles, PaymentAfter;
    RowPays(ReconcileRows(db, list, j, now, luck), ReconcileEvent(db, list[j]), luck.rows(j + 1), now, luck.faults(j + 1));
    hide ReconcileRow, SameNames;
  }

  lemma NamesChain(a: Database, b: Database, c: Database)
    requires SameNames(a, b) && SameNames(b, c)
    ensures SameNames(a, c)
  {
  }

  lemma {:induction false} RowsCommitOnlyTheirKeys(db: Database, list: seq<nat>, i: nat, now: int, luck: Luck, k: nat)
    requires PaymentRuns.Inv(db) && Ascending(list, |db.payments|) && i <= |list| && k < |db.payments|
    requires forall j :: 0 <= j < i ==> list[j] != k
    ensures ReconcileKey(db, k) in ReconcileRows(db, list, i, now, luck).commits <==> ReconcileKey(db, k) in db.commits
    ensures SameNames(db, ReconcileRows(db, list, i, now, luck))
    decreases i
  {
    hide ReconcileRows, PaymentRuns.Inv, SameNames, PaymentAfter, ReconcileKey, Target, ReconcileEvent;
    PassStart(db, list, now, luck);
    if i > 0 {
      RowsCommitOnlyTheirKeys(db, list, i - 1, now, luck, k);
      PassStep(db, list, i - 1, now, luck);
      NamesChain(db, ReconcileRows(db, list, i - 1, now, luck), ReconcileRows(db, list, i, now, luck));
      ReconcileKeysDiffer(db, list[i - 1], k);
    }
  }

  lemma RowUnderKeys(db: Database, list: seq<nat>, j: nat, now: int, luck: Luck, id: nat)
    requires PaymentRuns.Inv(db) && Ascending(list, |db.payments|) && j < |list| && id < |db.book.orders|
    ensures var s, after := ReconcileRows(db, list, j, now, luck), ReconcileRows(db, list, j + 1, now, luck);
      && |s.book.orders| == |after.book.orders| == |db.book.orders|
      && after.book.orders[id].payment == if PaysAt(db, list, j, now, luck, id) then Paid else s.book.orders[id].payment
  {
    RowsCommitOnlyTheirKeys(db, list, j, now, luck, list[j]);
    PassStep(db, list, j, now, luck);
    hide ReconcileRows, PaymentRuns.Inv, ReconcileKey, Settles;
  }

  /** A pass, whatever it selected, whatever its intents are called and wherever faults
      strike: an order is PAID afterwards exactly when it was or some row pays it; any other
      order keeps its payment state. */
  lemma {:induction false} PassPaysExactly(db: Database, list: seq<nat>, i: nat, now: int, luck: Luck, id: nat)
    requires PaymentRuns.Inv(db) && Ascending(list, |db.payments|) && i <= |list| && id < |db.book.orders|
    ensures |ReconcileRows(db, list, i, now, luck).book.orders| == |db.book.orders|
    ensures ReconcileRows(db, list, i, now, luck).book.orders[id].payment
            == if exists j: nat :: j < i && PaysAt(db, list, j, now, luck, id) then Paid else db.book.orders[id].payment
    decreases i
  {
    hide ReconcileRows, PaymentRuns.Inv, PaysAt;
    PassStart(db, list, now, luck);
    if i > 0 {
      PassPaysExactly(db, list, i - 1, now, luck, id);
      RowUnderKeys(db, list, i - 1, now, luck, id);
    }
  }

  // ---- intents the provider named ----

  /** The payment's intent has a provider id, and every intent with that id is of the payment's order. */
  predicate Named(db: Database, k: nat) {
    && k < |db.payments| && db.payments[k].intent < |db.intents|
    && var p := db.payments[k];
    var ref := db.intents[p.intent].providerIntentId;
    ref.Some? && forall i :: 0 <= i < |db.intents| && db.intents[i].providerIntentId == ref ==> db.intents[i].order == p.order
  }

  lemma NamedFindsItsOrder(db: Database, s: Database, k: nat, row: nat)
    requires Named(db, k) && SameNames(db, s)
    ensures var target := IntentPaid(s, ReconcileEvent(db, k), row);
      target.Some? && s.intents[target.value].order == db.payments[k].order
  {
    hide Newest;
    var i := db.payments[k].intent;
    assert Same(s.intents[i].providerIntentId, ReconcileEvent(db, k).intentRef);
  }

  /** Reconciliation against refunds: over a fault-free pass on named intents, whatever its
      length, an order ends PAID, refunded or not, exactly when it was PAID or some listed
      payment of it was never reconciled; every other order keeps its state. */
  lemma ReconcileUndoesRefundsOnce(db: Database, limit: nat, now: int, luck: Luck, id: nat)
    requires PaymentRuns.Inv(db) && id < |db.book.orders|
    requires forall k :: k in ReconcileList(db, 0, limit) ==> Named(db, k)
    requires forall i :: luck.faults(i) == NoFault
    ensures id < |Reconcile(db, limit, now, luck).book.orders|
    ensures Reconcile(db, limit, now, luck).book.orders[id].payment
            == if exists k :: k in ReconcileList(db, 0, limit) && db.payments[k].order == id && ReconcileKey(db, k) !in db.commits
               then Paid else db.book.orders[id].payment
  {
    var list := ReconcileList(db, 0, limit);
    PassPaysExactly(db, list, |list|, now, luck, id);
    forall j: nat | j < |list|
      ensures PaysAt(db, list, j, now, luck, id) <==> db.payments[list[j]].order == id && ReconcileKey(db, list[j]) !in db.commits
    {
      NamedRowPays(db, list, j, now, luck, id);
    }
    hide PaysAt, PaymentRuns.Inv, ReconcileRows, ReconcileKey, Named;
    if j: nat :| j < |list| && PaysAt(db, list, j, now, luck, id) {
      assert list[j] in list;
    }
    if k :| k in list && db.payments[k].order == id && ReconcileKey(db, k) !in db.commits {
      var j: nat :| j < |list| && list[j] == k;
      assert PaysAt(db, list, j, now, luck, id);
    }
  }

  lemma NamedRowPays(db: Database, list: seq<nat>, j: nat, now: int, luck: Luck, id: nat)
    requires PaymentRuns.Inv(db) && Ascending(list, |db.payments|) && j < |list| && Named(db, list[j])
    requires luck.faults(j + 1) == NoFault
    ensures PaysAt(db, list, j, now, luck, id) <==> db.payments[list[j]].order == id && ReconcileKey(db, list[j]) !in db.commits
  {
    RowsCommitOnlyTheirKeys(db, list, j, now, luck, list[j]);
    var s := ReconcileRows(db, list, j, now, luck);
    NamedFindsItsOrder(db, s, list[j], luck.rows(j + 1));
    hide PaymentRuns.Inv, ReconcileRows, IntentPaid, ReconcileEvent;
  }

  // ---- intents without a provider id ----

  function NewestProcessing(db: Database, provider: string): (r: Option<nat>)
    ensures r.Some? ==> r.value < |db.intents|
  {
    Newest(db.intents, (i: Intent) => i.provider == provider && i.status == Processing)
  }

  /** A payment whose intent has no provider id is reconciled against the newest processing
      intent of its provider, whichever order that is of: that order becomes PAID, and the
      payment's own order only if it is the same one. With no such intent nothing is paid,
      and the event stays uncommitted. */
  lemma UnnamedPaysTheNewestProcessing(db: Database, k: nat, row: nat, now: int, fault: Fault)
    requires PaymentRuns.Inv(db) && k < |db.payments| && db.intents[db.payments[k].intent].providerIntentId == None
    ensures var after := ReconcileRow(db, ReconcileEvent(db, k), row, now, fault);
      var newest := NewestProcessing(db, db.payments[k].provider);
      var target := if ReconcileKey(db, k) in db.commits || fault != NoFault then None else newest;
      && |after.book.orders| == |db.book.orders|
      && (forall id: nat :: id < |db.book.orders| ==> after.book.orders[id].payment == PaymentAfter(db, target, id))
      && (ReconcileKey(db, k) in after.commits <==> ReconcileKey(db, k) in db.commits || target.Some?)
  {
    var ev := ReconcileEvent(db, k);
    RowPays(db, ev, row, now, fault);
    assert Newest(db.intents, (i: Intent) => Same(i.providerIntentId, ev.intentRef)).None?;
    hide PaymentRuns.Inv, ReconcileRow;
  }

  // ---- a refunded order that is paid again ----

  lemma RunOneMore(steps: seq<Timed>, s: Timed)
    ensures Run(Empty(), steps + [s]) == Next(Run(Empty(), steps), s)
  {
    assert (steps + [s])[..|steps|] == steps;
  }

  const TRAVELER := Actor(1, TravelerRole, false)

  function Booked(status: OrderStatus, payment: PaymentStatus, paidAt: Option<int>): Order {
    Order(1, 2, 3, 0, 0, status, payment, paidAt)
  }

  const CREATED := LogRow(0, None, PendingPayment)
  const PAID_LOG := [CREATED, LogRow(0, Some(PendingPayment), PendingHostConfirm)]
  const TAKEN := Payment(0, 0, "mock", Some("tx"))
  const PAY_EVENT := Event("e1", PaymentSucceeded, "mock", Some("pi"), Some("tx"), None)
  const REFUND_EVENT := Event("e2", RefundSucceeded, "mock", None, None, Some("rf"))

  function Intended(s: IntentStatus): seq<Intent> {
    [Intent(0, "mock", Some("pi"), s, None, 0)]
  }

  function Returned(s: RefundStatus): seq<RefundRow> {
    [RefundRow(0, 0, "mock", s, Some("rf"), None)]
  }

  const AFTER_CREATE := Database(Book([Booked(PendingPayment, Unpaid, None)], [CREATED]), [], [], [], [], [])
  const AFTER_INTENT := AFTER_CREATE.(intents := Intended(RequiresConfirmation))
  const AFTER_PAYMENT := Database(
    Book([Booked(PendingHostConfirm, Paid, Some(0))], PAID_LOG), Intended(IntentSucceeded), [TAKEN], [],
    [EventRow("mock", PAY_EVENT, Processed, 0)], [EventKey("mock", "e1")])
  const AFTER_REQUEST := AFTER_PAYMENT.(
    book := Book([Booked(PendingHostConfirm, Refunding, Some(0))], PAID_LOG), refunds := Returned(RefundProcessing))
  const AFTER_REFUND := AFTER_REQUEST.(
    book := Book([Booked(PendingHostConfirm, Refunded, Some(0))], PAID_LOG), refunds := Returned(RefundDone),
    events := AFTER_PAYMENT.events + [EventRow("mock", REFUND_EVENT, Processed, 0)],
    commits := [EventKey("mock", "e1"), EventKey("mock", "e2")])

  const CREATE := Timed(UserRoute(TRAVELER, CreateRoute(true, 2, 3, 0)), 0)
  const INTEND := Timed(CreateIntentRoute(TRAVELER, 0, true, "mock", None, Some(IntentAnswer(Some("pi"), RequiresConfirmation))), 0)
  const PAY := Timed(WebhookCall("mock", Good(PAY_EVENT), 0, NoFault), 0)
  const ASK_REFUND := Timed(RefundRoute(0, None, Some(RefundAnswer(RefundProcessing, Some("rf"))), true, "", 0, NoFault), 0)
  const REFUND := Timed(WebhookCall("mock", Good(REFUND_EVENT), 0, NoFault), 0)

  lemma CreateAndIntend()
    ensures Next(Empty(), CREATE) == AFTER_CREATE && Next(AFTER_CREATE, INTEND) == AFTER_INTENT
  {
  }

  lemma PaymentArrives()
    ensures Next(AFTER_INTENT, PAY) == AFTER_PAYMENT
  {
    var stored := AFTER_INTENT.(events := [EventRow("mock", PAY_EVENT, Received, 0)]);
    assert IntentPaid(stored, PAY_EVENT, 0) == Some(0);
    assert Process(stored, PAY_EVENT, 0, 0, NoFault).db == AFTER_PAYMENT.(events := stored.events, commits := []);
    hide Process;
  }

  lemma RefundIsAsked()
    ensures Next(AFTER_PAYMENT, ASK_REFUND) == AFTER_REQUEST
  {
    assert Newest(AFTER_PAYMENT.payments, (p: Payment) => p.order == 0) == Some(0);
  }

  lemma RefundArrives()
    ensures Next(AFTER_REQUEST, REFUND) == AFTER_REFUND
  {
    var stored := AFTER_REQUEST.(events := AFTER_REQUEST.events + [EventRow("mock", REFUND_EVENT, Received, 0)]);
    assert !Stored(AFTER_REQUEST, EventKey("mock", "e2"));
    assert RefundMeant(stored, REFUND_EVENT) == Some(0);
    assert Process(stored, REFUND_EVENT, 0, 0, NoFault).db == AFTER_REFUND.(events := stored.events, commits := AFTER_REQUEST.commits);
    hide Process;
  }

  predicate OrderIs(db: Database, id: nat, p: PaymentStatus) {
    id < |db.book.orders| && db.book.orders[id].payment == p
  }

  lemma FiveSteps()
    ensures Run(Empty(), [CREATE, INTEND, PAY, ASK_REFUND, REFUND]) == AFTER_REFUND
  {
    CreateAndIntend();
    PaymentArrives();
    RefundIsAsked();
    RefundArrives();
    assert Run(Empty(), []) == Empty();
    hide Next, Run;
    RunOneMore([], CREATE);
    RunOneMore([CREATE], INTEND);
    RunOneMore([CREATE, INTEND], PAY);
    RunOneMore([CREATE, INTEND, PAY], ASK_REFUND);
    RunOneMore([CREATE, INTEND, PAY, ASK_REFUND], REFUND);
    assert [] + [CREATE] == [CREATE] && [CREATE] + [INTEND] == [CREATE, INTEND] && [CREATE, INTEND] + [PAY] == [CREATE, INTEND, PAY];
    assert [CREATE, INTEND, PAY] + [ASK_REFUND] == [CREATE, INTEND, PAY, ASK_REFUND];
    assert [CREATE, INTEND, PAY, ASK_REFUND] + [REFUND] == [CREATE, INTEND, PAY, ASK_REFUND, REFUND];
  }

  /** The outcome is reachable: create, pay, refund, and the provider's refund success leave the
      order REFUNDED; the next reconciliation makes it PAID. */
  lemma RefundedOrderIsPaidAgain(luck: Luck, limit: nat)
    requires limit >= 1 && forall i :: luck.faults(i) == NoFault
    ensures var steps := [CREATE, INTEND, PAY, ASK_REFUND, REFUND];
      && OrderIs(Run(Empty(), steps), 0, Refunded)
      && OrderIs(Run(Empty(), steps + [Timed(ReconcileJob(limit, luck), 0)]), 0, Paid)
  {
    var steps := [CREATE, INTEND, PAY, ASK_REFUND, REFUND];
    hide Run, Next, PaymentRuns.Inv, Grows;
    FiveSteps();
    RunOneMore(steps, Timed(ReconcileJob(limit, luck), 0));
    EmptyHolds();
    RunKeeps(Empty(), steps);
    ReconcilesAfterRefund(luck, limit);
  }

  lemma ReconcilesAfterRefund(luck: Luck, limit: nat)
    requires PaymentRuns.Inv(AFTER_REFUND) && limit >= 1 && forall i :: luck.faults(i) == NoFault
    ensures OrderIs(Next(AFTER_REFUND, Timed(ReconcileJob(limit, luck), 0)), 0, Paid)
  {
    assert ReconcileList(AFTER_REFUND, 0, limit) == [0];
    hide PaymentRuns.Inv, ReconcileList, Reconcile;
    assert ReconcileKey(AFTER_REFUND, 0) !in AFTER_REFUND.commits by {
      assert |ReconcileKey(AFTER_REFUND, 0).eventId| > 2;
    }
    assert Named(AFTER_REFUND, 0);
    assert AFTER_REFUND.payments[0].order == 0;
    ReconcileUndoesRefundsOnce(AFTER_REFUND, limit, 0, luck, 0);
  }
}
