/** The order tables and the writers of order status: the user routes and the timeout job.
    A handler is one atomic step; an order's id is its position in the table. */
module Orders {
  import opened Prelude

  datatype OrderStatus =
    | PendingPayment | PendingHostConfirm | Confirmed | InService | Completed
    | CancelledRefunded | CancelledByTraveler | Disputed

  datatype PaymentStatus = Unpaid | Paid | Refunding | Refunded

  datatype Order = Order(
    traveler: nat, host: nat, experience: nat, startTime: int,
    createdAt: int, status: OrderStatus, payment: PaymentStatus, paidAt: Option<int>)

  /** A row of order_status_logs. */
  datatype LogRow = LogRow(order: nat, fromStatus: Option<OrderStatus>, toStatus: OrderStatus)

  datatype Book = Book(orders: seq<Order>, logs: seq<LogRow>)

  datatype Role = TravelerRole | HostRole | OtherRole

  /** The caller; `approved` is what requireApprovedHost finds for it. */
  datatype Actor = Actor(profile: nat, role: Role, approved: bool)

  datatype Reply =
    | Accepted | InvalidInput | Forbidden | NotFound | HostNotApproved
    | PaymentRequired | InvalidTransition

  datatype Result = Result(book: Book, reply: Reply)

  // ---- the two writes every handler is made of ----

  function Update(b: Book, id: nat, o: Order): Book
    requires id < |b.orders|
  {
    b.(orders := b.orders[id := o])
  }

  /** An update of the row followed by the log entry of its status change. */
  function Move(b: Book, id: nat, o: Order): Book
    requires id < |b.orders|
  {
    Book(b.orders[id := o], b.logs + [LogRow(id, Some(b.orders[id].status), o.status)])
  }

  // ---- user routes ----

  predicate SameBooking(o: Order, traveler: nat, host: nat, experience: nat, startTime: int) {
    o.traveler == traveler && o.host == host && o.experience == experience && o.startTime == startTime
  }

  function Create(b: Book, actor: Actor, complete: bool, host: nat, experience: nat, startTime: int, now: int): Result {
    if !complete then Result(b, InvalidInput)
    else if actor.role != TravelerRole then Result(b, Forbidden)
    else if exists o :: o in b.orders && SameBooking(o, actor.profile, host, experience, startTime) then Result(b, Accepted)
    else
      var o := Order(actor.profile, host, experience, startTime, now, PendingPayment, Unpaid, None);
      Result(Book(b.orders + [o], b.logs + [LogRow(|b.orders|, None, PendingPayment)]), Accepted)
  }

  predicate Closed(s: OrderStatus) {
    s in {CancelledRefunded, CancelledByTraveler, Completed}
  }

  /** What a payment does to an order, whoever reports it. */
  function PaidOrder(o: Order, now: int): Order {
    o.(payment := Paid, paidAt := Some(now),
       status := if o.status == PendingPayment then PendingHostConfirm else o.status)
  }

  /** Both reports of a payment log only a status that changed. */
  function Pay(b: Book, id: nat, now: int): Book
    requires id < |b.orders|
  {
    var o := PaidOrder(b.orders[id], now);
    if o.status != b.orders[id].status then Move(b, id, o) else Update(b, id, o)
  }

  function MarkPaid(b: Book, actor: Actor, id: nat, now: int): Result {
    if actor.role != TravelerRole then Result(b, Forbidden)
    else if id >= |b.orders| then Result(b, NotFound)
    else
      var o := b.orders[id];
      if o.payment != Unpaid then Result(b, InvalidTransition)
      else if o.traveler != actor.profile then Result(b, Forbidden)
      else if Closed(o.status) then Result(b, InvalidTransition)
      else Result(Pay(b, id, now), Accepted)
  }

  function Accept(b: Book, actor: Actor, id: nat): Result {
    if id >= |b.orders| then Result(b, NotFound)
    else
      var o := b.orders[id];
      if actor.role != HostRole || o.host != actor.profile then Result(b, Forbidden)
      else if !actor.approved then Result(b, HostNotApproved)
      else if o.payment != Paid then Result(b, PaymentRequired)
      else if o.status != PendingHostConfirm then Result(b, InvalidTransition)
      else Result(Move(b, id, o.(status := Confirmed)), Accepted)
  }

  function Refund(o: Order): PaymentStatus {
    if o.payment == Paid then Refunded else o.payment
  }

  function Reject(b: Book, actor: Actor, id: nat): Result {
    if id >= |b.orders| then Result(b, NotFound)
    else
      var o := b.orders[id];
      if actor.role != HostRole || o.host != actor.profile then Result(b, Forbidden)
      else if !actor.approved then Result(b, HostNotApproved)
      else if o.status != PendingHostConfirm then Result(b, InvalidTransition)
      else Result(Move(b, id, o.(status := CancelledRefunded, payment := Refund(o))), Accepted)
  }

  function Cancel(b: Book, actor: Actor, id: nat): Result {
    if id >= |b.orders| then Result(b, NotFound)
    else
      var o := b.orders[id];
      if actor.role != TravelerRole || o.traveler != actor.profile then Result(b, Forbidden)
      else if o.status in {Completed, InService} then Result(b, InvalidTransition)
      else Result(Move(b, id, o.(status := CancelledByTraveler, payment := Refund(o))), Accepted)
  }

  /** Start and end of the service, open to both parties of the order. */
  function Serve(b: Book, actor: Actor, id: nat, before: OrderStatus, after: OrderStatus): Result {
    if id >= |b.orders| then Result(b, NotFound)
    else
      var o := b.orders[id];
      if actor.profile != o.host && actor.profile != o.traveler then Result(b, Forbidden)
      else if actor.role == HostRole && !actor.approved then Result(b, HostNotApproved)
      else if o.status != before then Result(b, InvalidTransition)
      else Result(Move(b, id, o.(status := after)), Accepted)
  }

  function Start(b: Book, actor: Actor, id: nat): Result {
    Serve(b, actor, id, Confirmed, InService)
  }

  function End(b: Book, actor: Actor, id: nat): Result {
    Serve(b, actor, id, InService, Completed)
  }

  // ---- the timeout job ----

  const HALF_HOUR := 30 * 60 * 1000
  const TWELVE_HOURS := 12 * 60 * 60 * 1000

  predicate PaymentTimedOut(o: Order, now: int) {
    o.status == PendingPayment && o.createdAt < now - HALF_HOUR
  }

  predicate ConfirmTimedOut(o: Order, now: int) {
    o.status == PendingHostConfirm && o.createdAt < now - TWELVE_HOURS
  }

  function CloseUnpaid(b: Book, id: nat): Book
    requires id < |b.orders|
  {
    Move(b, id, b.orders[id].(status := CancelledByTraveler))
  }

  function CloseUnconfirmed(b: Book, id: nat): Book
    requires id < |b.orders|
  {
    Move(b, id, b.orders[id].(status := CancelledRefunded, payment := Refunded))
  }

  /** The first loop of the job over the orders below k. */
  function CloseUnpaidUpTo(b: Book, k: nat, now: int): (r: Book)
    requires k <= |b.orders|
    ensures |r.orders| == |b.orders|
    ensures forall i :: k <= i < |b.orders| ==> r.orders[i] == b.orders[i]
  {
    if k == 0 then b
    else
      var c := CloseUnpaidUpTo(b, k - 1, now);
      if PaymentTimedOut(b.orders[k - 1], now) then CloseUnpaid(c, k - 1) else c
  }

  function CloseUnconfirmedUpTo(b: Book, k: nat, now: int): (r: Book)
    requires k <= |b.orders|
    ensures |r.orders| == |b.orders|
    ensures forall i :: k <= i < |b.orders| ==> r.orders[i] == b.orders[i]
  {
    if k == 0 then b
    else
      var c := CloseUnconfirmedUpTo(b, k - 1, now);
      if ConfirmTimedOut(b.orders[k - 1], now) then CloseUnconfirmed(c, k - 1) else c
  }

  function AutoClose(b: Book, now: int): Book {
    var c := CloseUnpaidUpTo(b, |b.orders|, now);
    CloseUnconfirmedUpTo(c, |c.orders|, now)
  }

  // ---- the status log ----

  /** The log rows of one order, in the order they were written. */
  function History(logs: seq<LogRow>, id: nat): (h: seq<LogRow>)
    ensures forall i :: 0 <= i < |h| ==> h[i] in logs && h[i].order == id
  {
    if logs == [] then []
    else
      var row := logs[|logs| - 1];
      History(logs[..|logs| - 1], id) + if row.order == id then [row] else []
  }

  lemma HistoryGrows(logs: seq<LogRow>, row: LogRow, id: nat)
    ensures History(logs + [row], id) == History(logs, id) + if row.order == id then [row] else []
  {
    assert (logs + [row])[..|logs|] == logs;
  }

  lemma {:induction false} HistoryOfUnknown(logs: seq<LogRow>, id: nat)
    requires forall r :: r in logs ==> r.order != id
    ensures History(logs, id) == []
  {
    if logs != [] {
      HistoryOfUnknown(logs[..|logs| - 1], id);
    }
  }

  /** The status changes the writers make. */
  predicate Legal(a: OrderStatus, b: OrderStatus) {
    || (a == PendingPayment && b == PendingHostConfirm)
    || (a == PendingHostConfirm && b in {Confirmed, CancelledRefunded})
    || (a == Confirmed && b == InService)
    || (a == InService && b == Completed)
    || (a !in {InService, Completed} && b == CancelledByTraveler)
  }

  /** Starts with the creation, every entry continues the one before, every change is legal. */
  predicate TrueHistory(h: seq<LogRow>) {
    && h != []
    && h[0].fromStatus == None && h[0].toStatus == PendingPayment
    && forall i :: 0 < i < |h| ==> h[i].fromStatus == Some(h[i - 1].toStatus) && Legal(h[i - 1].toStatus, h[i].toStatus)
  }

  /** A status other than Unpaid and a payment time come together, and every status from
      PENDING_HOST_CONFIRM to COMPLETED has one. */
  predicate MoneyIsTrue(o: Order) {
    && (o.payment != Unpaid <==> o.paidAt.Some?)
    && (o.status in {PendingHostConfirm, Confirmed, InService, Completed} ==> o.paidAt.Some?)
  }

  predicate OrderInv(b: Book, id: nat)
    requires id < |b.orders|
  {
    var h := History(b.logs, id);
    && TrueHistory(h)
    && h[|h| - 1].toStatus == b.orders[id].status
    && MoneyIsTrue(b.orders[id])
  }

  predicate SameRoute(o: Order, p: Order) {
    SameBooking(o, p.traveler, p.host, p.experience, p.startTime)
  }

  ghost predicate Inv(b: Book) {
    && (forall id: nat :: id < |b.orders| ==> OrderInv(b, id))
    && (forall r :: r in b.logs ==> r.order < |b.orders|)
    && (forall i: nat, j: nat :: i < j < |b.orders| ==> !SameRoute(b.orders[i], b.orders[j]))
  }

  /** What a step may do to the orders: keep their identity, never unset a payment
      time, and only append to their histories. */
  ghost predicate Extends(b: Book, c: Book) {
    && |b.orders| <= |c.orders|
    && (forall id: nat :: id < |b.orders| ==> Continues(b, c, id))
  }

  predicate Continues(b: Book, c: Book, id: nat)
    requires id < |b.orders| && id < |c.orders|
  {
    && SameRoute(b.orders[id], c.orders[id]) && b.orders[id].createdAt == c.orders[id].createdAt
    && (b.orders[id].paidAt.Some? ==> c.orders[id].paidAt.Some?)
    && History(b.logs, id) <= History(c.logs, id)
  }

  lemma ExtendsIsTransitive(a: Book, b: Book, c: Book)
    requires Extends(a, b) && Extends(b, c)
    ensures Extends(a, c)
  {
    hide History;
    forall id: nat | id < |a.orders| ensures Continues(a, c, id) {
      assert Continues(a, b, id) && Continues(b, c, id);
    }
  }

  lemma UpdateKeepsInv(b: Book, id: nat, o: Order)
    requires Inv(b) && id < |b.orders|
    requires SameRoute(b.orders[id], o) && b.orders[id].createdAt == o.createdAt
    requires o.status == b.orders[id].status && MoneyIsTrue(o) && (b.orders[id].paidAt.Some? ==> o.paidAt.Some?)
    ensures Inv(Update(b, id, o)) && Extends(b, Update(b, id, o))
  {
    hide History, MoneyIsTrue, TrueHistory;
    var c := Update(b, id, o);
    forall i: nat | i < |c.orders| ensures OrderInv(c, i) && Continues(b, c, i) {
      assert OrderInv(b, i);
    }
  }

  lemma MoveKeepsInv(b: Book, id: nat, o: Order)
    requires Inv(b) && id < |b.orders|
    requires SameRoute(b.orders[id], o) && b.orders[id].createdAt == o.createdAt
    requires Legal(b.orders[id].status, o.status) && MoneyIsTrue(o) && (b.orders[id].paidAt.Some? ==> o.paidAt.Some?)
    ensures Inv(Move(b, id, o)) && Extends(b, Move(b, id, o))
  {
    hide History, MoneyIsTrue, Legal;
    var c := Move(b, id, o);
    var row := LogRow(id, Some(b.orders[id].status), o.status);
    forall i: nat | i < |c.orders| ensures OrderInv(c, i) && Continues(b, c, i) {
      assert OrderInv(b, i);
      HistoryGrows(b.logs, row, i);
    }
  }

  lemma CreateKeepsInv(b: Book, actor: Actor, complete: bool, host: nat, experience: nat, startTime: int, now: int)
    requires Inv(b)
    ensures var c := Create(b, actor, complete, host, experience, startTime, now).book; Inv(c) && Extends(b, c)
  {
    hide History, Legal;
    var c := Create(b, actor, complete, host, experience, startTime, now).book;
    if c != b {
      var n, row := |b.orders|, LogRow(|b.orders|, None, PendingPayment);
      HistoryOfUnknown(b.logs, n);
      forall i: nat | i <= n ensures OrderInv(c, i) && (i < n ==> Continues(b, c, i)) {
        assert i < n ==> OrderInv(b, i);
        HistoryGrows(b.logs, row, i);
      }
      forall i: nat, j: nat | i < j <= n ensures !SameRoute(c.orders[i], c.orders[j]) {
        assert c.orders[i] in b.orders;
      }
    }
  }

  lemma PayKeepsInv(b: Book, id: nat, now: int)
    requires Inv(b) && id < |b.orders|
    ensures Inv(Pay(b, id, now)) && Extends(b, Pay(b, id, now))
  {
    assert OrderInv(b, id);
    hide History, TrueHistory, Inv, Extends;
    var o := PaidOrder(b.orders[id], now);
    if o.status != b.orders[id].status {
      MoveKeepsInv(b, id, o);
    } else {
      UpdateKeepsInv(b, id, o);
    }
  }

  datatype Route =
    | CreateRoute(complete: bool, host: nat, experience: nat, startTime: int)
    | MarkPaidRoute(id: nat)
    | AcceptRoute(id: nat)
    | RejectRoute(id: nat)
    | CancelRoute(id: nat)
    | StartRoute(id: nat)
    | EndRoute(id: nat)

  function Handle(b: Book, actor: Actor, r: Route, now: int): (res: Result)
    ensures |res.book.orders| >= |b.orders|
  {
    match r
    case CreateRoute(complete, host, experience, startTime) => Create(b, actor, complete, host, experience, startTime, now)
    case MarkPaidRoute(id) => MarkPaid(b, actor, id, now)
    case AcceptRoute(id) => Accept(b, actor, id)
    case RejectRoute(id) => Reject(b, actor, id)
    case CancelRoute(id) => Cancel(b, actor, id)
    case StartRoute(id) => Start(b, actor, id)
    case EndRoute(id) => End(b, actor, id)
  }

  lemma HandleKeepsInv(b: Book, actor: Actor, r: Route, now: int)
    requires Inv(b)
    ensures Inv(Handle(b, actor, r, now).book) && Extends(b, Handle(b, actor, r, now).book)
  {
    if r.CreateRoute? {
      hide Inv, Extends, Create;
      CreateKeepsInv(b, actor, r.complete, r.host, r.experience, r.startTime, now);
    } else if r.id < |b.orders| {
      assert OrderInv(b, r.id);
      assert Extends(b, b);
      hide Inv, Extends, History, TrueHistory, Move, Update;
      var o := b.orders[r.id];
      match r
      case MarkPaidRoute(id) =>
        PayKeepsInv(b, id, now);
      case AcceptRoute(id) =>
        if o.status == PendingHostConfirm { MoveKeepsInv(b, id, o.(status := Confirmed)); }
      case RejectRoute(id) =>
        if o.status == PendingHostConfirm { MoveKeepsInv(b, id, o.(status := CancelledRefunded, payment := Refund(o))); }
      case CancelRoute(id) =>
        if o.status !in {Completed, InService} { MoveKeepsInv(b, id, o.(status := CancelledByTraveler, payment := Refund(o))); }
      case StartRoute(id) =>
        if o.status == Confirmed { MoveKeepsInv(b, id, o.(status := InService)); }
      case EndRoute(id) =>
        if o.status == InService { MoveKeepsInv(b, id, o.(status := Completed)); }
    } else {
      assert Extends(b, b);
    }
  }

  predicate IsHostOf(actor: Actor, o: Order) {
    actor.role == HostRole && actor.profile == o.host && actor.approved
  }

  predicate IsTravelerOf(actor: Actor, o: Order) {
    actor.role == TravelerRole && actor.profile == o.traveler
  }

  predicate IsPartyOf(actor: Actor, o: Order) {
    actor.profile in {o.host, o.traveler} && (actor.role == HostRole ==> actor.approved)
  }

  /** Who may move an order, and from where: the table of all user-driven changes. */
  predicate Authorised(actor: Actor, o: Order, after: OrderStatus) {
    match after
    case PendingHostConfirm => o.status == PendingPayment && o.payment == Unpaid && IsTravelerOf(actor, o)
    case Confirmed => o.status == PendingHostConfirm && o.payment == Paid && IsHostOf(actor, o)
    case CancelledRefunded => o.status == PendingHostConfirm && IsHostOf(actor, o)
    case CancelledByTraveler => o.status !in {InService, Completed} && IsTravelerOf(actor, o)
    case InService => o.status == Confirmed && IsPartyOf(actor, o)
    case Completed => o.status == InService && IsPartyOf(actor, o)
    case _ => false
  }

  /** A user route changes at most the order it names, only to a status its caller may choose
      there, turns a cancelled payment into a refund, and a refusal changes nothing. */
  lemma ChangesAreAuthorised(b: Book, actor: Actor, r: Route, now: int, id: nat)
    requires id < |b.orders|
    ensures var before, after, res := b.orders[id], Handle(b, actor, r, now).book.orders[id], Handle(b, actor, r, now);
      && (res.reply != Accepted ==> res.book == b)
      && (after != before ==> !r.CreateRoute? && r.id == id)
      && (after.status != before.status ==> Authorised(actor, before, after.status))
      && (Cancelled(after.status) && before.payment == Paid && after != before ==> after.payment == Refunded)
      && (after.payment == Paid && before.payment != Paid ==> before.payment == Unpaid && IsTravelerOf(actor, before) && after.paidAt == Some(now))
  {
  }

  function RouteTo(s: OrderStatus, id: nat): Route {
    match s
    case PendingHostConfirm => MarkPaidRoute(id)
    case Confirmed => AcceptRoute(id)
    case CancelledRefunded => RejectRoute(id)
    case InService => StartRoute(id)
    case Completed => EndRoute(id)
    case _ => CancelRoute(id)
  }

  /** The table is exact: a caller can bring an order into another status by some
      route if and only if the table allows it. */
  lemma StatusIsReachableIffAuthorised(b: Book, actor: Actor, now: int, id: nat, s: OrderStatus)
    requires id < |b.orders| && s != b.orders[id].status
    ensures (exists r :: Handle(b, actor, r, now).book.orders[id].status == s) <==> Authorised(actor, b.orders[id], s)
  {
    if Authorised(actor, b.orders[id], s) {
      assert Handle(b, actor, RouteTo(s, id), now).book.orders[id].status == s;
    }
    forall r | Handle(b, actor, r, now).book.orders[id].status == s ensures Authorised(actor, b.orders[id], s) {
      ChangesAreAuthorised(b, actor, r, now, id);
    }
  }

  lemma {:induction false} CloseUnpaidKeepsInv(b: Book, k: nat, now: int)
    requires Inv(b) && k <= |b.orders|
    ensures Inv(CloseUnpaidUpTo(b, k, now)) && Extends(b, CloseUnpaidUpTo(b, k, now))
    decreases k
  {
    if k > 0 {
      CloseUnpaidKeepsInv(b, k - 1, now);
      var c := CloseUnpaidUpTo(b, k - 1, now);
      assert OrderInv(c, k - 1);
      hide Inv, Extends, History, TrueHistory, Move;
      if PaymentTimedOut(b.orders[k - 1], now) {
        MoveKeepsInv(c, k - 1, c.orders[k - 1].(status := CancelledByTraveler));
        ExtendsIsTransitive(b, c, CloseUnpaid(c, k - 1));
      }
    } else {
      assert Extends(b, b);
    }
  }

  lemma {:induction false} CloseUnconfirmedKeepsInv(b: Book, k: nat, now: int)
    requires Inv(b) && k <= |b.orders|
    ensures Inv(CloseUnconfirmedUpTo(b, k, now)) && Extends(b, CloseUnconfirmedUpTo(b, k, now))
    decreases k
  {
    if k > 0 {
      CloseUnconfirmedKeepsInv(b, k - 1, now);
      var c := CloseUnconfirmedUpTo(b, k - 1, now);
      assert OrderInv(c, k - 1);
      hide Inv, Extends, History, TrueHistory, Move;
      if ConfirmTimedOut(b.orders[k - 1], now) {
        MoveKeepsInv(c, k - 1, c.orders[k - 1].(status := CancelledRefunded, payment := Refunded));
        ExtendsIsTransitive(b, c, CloseUnconfirmed(c, k - 1));
      }
    } else {
      assert Extends(b, b);
    }
  }

  lemma AutoCloseKeepsInv(b: Book, now: int)
    requires Inv(b)
    ensures Inv(AutoClose(b, now)) && Extends(b, AutoClose(b, now))
  {
    hide Inv, Extends, CloseUnpaidUpTo, CloseUnconfirmedUpTo;
    CloseUnpaidKeepsInv(b, |b.orders|, now);
    var c := CloseUnpaidUpTo(b, |b.orders|, now);
    CloseUnconfirmedKeepsInv(c, |c.orders|, now);
    ExtendsIsTransitive(b, c, AutoClose(b, now));
  }

  // ---- what the histories say ----

  predicate Cancelled(s: OrderStatus) {
    s in {CancelledRefunded, CancelledByTraveler}
  }

  /** The way of an order that is never cancelled. */
  function Path(): seq<OrderStatus> {
    [PendingPayment, PendingHostConfirm, Confirmed, InService, Completed]
  }

  /** k steps along the path, then cancellations: none once the service started, by refund
      only straight from PENDING_HOST_CONFIRM. */
  predicate ShapedHistory(h: seq<LogRow>, k: nat) {
    && 1 <= k <= 5 && k <= |h|
    && h[0].fromStatus == None
    && (forall i :: 0 < i < |h| ==> h[i].fromStatus == Some(h[i - 1].toStatus))
    && (forall i :: 0 <= i < k ==> h[i].toStatus == Path()[i])
    && (forall i :: k <= i < |h| ==> Cancelled(h[i].toStatus) && (h[i].toStatus == CancelledRefunded ==> i == 2 && k == 2))
    && (k >= 4 ==> |h| == k)
  }

  lemma {:induction false} TrueHistoryIsShaped(h: seq<LogRow>) returns (k: nat)
    requires TrueHistory(h)
    ensures ShapedHistory(h, k)
    decreases |h|
  {
    var n := |h| - 1;
    k := 1;
    if n > 0 {
      var prior := h[..n];
      k := TrueHistoryIsShaped(prior);
      assert Legal(prior[n - 1].toStatus, h[n].toStatus);
      if k == n && !Cancelled(h[n].toStatus) {
        k := n + 1;
      }
    }
  }

  /** The histories the writers can leave are exactly the shaped ones. */
  lemma TrueHistoriesAreExactlyTheShaped(h: seq<LogRow>)
    ensures TrueHistory(h) <==> exists k: nat :: ShapedHistory(h, k)
  {
    if TrueHistory(h) {
      var k := TrueHistoryIsShaped(h);
    }
    if k: nat :| ShapedHistory(h, k) {
      forall i | 0 < i < |h| ensures Legal(h[i - 1].toStatus, h[i].toStatus) {
        assert i < k ==> h[i - 1].toStatus == Path()[i - 1] && h[i].toStatus == Path()[i];
        assert i >= k ==> Cancelled(h[i].toStatus);
      }
    }
  }

  /** The log of every COMPLETED order is exactly the path, and no order reaches DISPUTED. */
  lemma CompletedOrdersWalkedThePath(b: Book, id: nat)
    requires Inv(b) && id < |b.orders|
    ensures b.orders[id].status == Completed
            <==> History(b.logs, id) == [LogRow(id, None, PendingPayment)]
                 + seq(4, i requires 0 <= i < 4 => LogRow(id, Some(Path()[i]), Path()[i + 1]))
    ensures b.orders[id].status != Disputed
  {
    assert OrderInv(b, id);
    var h := History(b.logs, id);
    hide History;
    var k := TrueHistoryIsShaped(h);
    var last := h[|h| - 1].toStatus;
    if last == Completed {
      assert k == 5 && |h| == 5;
      forall i | 0 < i < 5 ensures h[i] == LogRow(id, Some(Path()[i - 1]), Path()[i]) {
        assert h[i].toStatus == Path()[i] && h[i - 1].toStatus == Path()[i - 1];
      }
      assert h[0] == LogRow(id, None, PendingPayment);
    }
  }

  lemma {:induction false} LateEntries(h: seq<LogRow>, n: nat, i: nat)
    requires TrueHistory(h) && n <= i < |h|
    ensures Cancelled(h[n].toStatus) ==> Cancelled(h[i].toStatus)
    ensures h[n].toStatus == Completed ==> i == n
    ensures h[n].toStatus == InService ==> h[i].toStatus in {InService, Completed}
  {
    if n < i {
      LateEntries(h, n, i - 1);
      assert Legal(h[i - 1].toStatus, h[i].toStatus);
    }
  }

  /** Whatever happens later: COMPLETED is final and logs nothing more, the two cancelled
      statuses are left together only, a started service is never cancelled, and a payment
      is never forgotten. */
  lemma OutcomesAreFinal(b: Book, c: Book, id: nat)
    requires Inv(b) && Inv(c) && Extends(b, c) && id < |b.orders|
    ensures b.orders[id].status == Completed ==> c.orders[id].status == Completed && History(c.logs, id) == History(b.logs, id)
    ensures Cancelled(b.orders[id].status) ==> Cancelled(c.orders[id].status)
    ensures b.orders[id].status == InService ==> c.orders[id].status in {InService, Completed}
    ensures b.orders[id].payment != Unpaid ==> c.orders[id].payment != Unpaid
  {
    assert OrderInv(b, id) && OrderInv(c, id) && Continues(b, c, id);
    var h, g := History(b.logs, id), History(c.logs, id);
    LateEntries(g, |h| - 1, |g| - 1);
    assert h == g[..|h|];
  }

  // ---- what each route means for its caller ----

  predicate OthersUntouched(b: Book, c: Book, id: nat) {
    && (forall i: nat :: i < |b.orders| && i != id ==> i < |c.orders| && c.orders[i] == b.orders[i])
    && (forall i: nat :: i <= |b.orders| && i != id ==> History(c.logs, i) == History(b.logs, i))
  }

  /** Order id is in status `to` with this payment state, its log has that one entry more, and
      nothing else changed. */
  predicate MovedTo(b: Book, c: Book, id: nat, to: OrderStatus, payment: PaymentStatus) {
    && id < |b.orders| == |c.orders|
    && c.orders[id] == b.orders[id].(status := to, payment := payment)
    && History(c.logs, id) == History(b.logs, id) + [LogRow(id, Some(b.orders[id].status), to)]
    && OthersUntouched(b, c, id)
  }

  /** Order id is paid as of `now` and waits for its host if it waited for the payment, which
      its log then shows; nothing else changed. */
  predicate PaidUp(b: Book, c: Book, id: nat, now: int) {
    && id < |b.orders| == |c.orders|
    && c.orders[id] == b.orders[id].(payment := Paid, paidAt := Some(now), status := c.orders[id].status)
    && (if b.orders[id].status == PendingPayment
        then c.orders[id].status == PendingHostConfirm
             && History(c.logs, id) == History(b.logs, id) + [LogRow(id, Some(PendingPayment), PendingHostConfirm)]
        else c.orders[id].status == b.orders[id].status && History(c.logs, id) == History(b.logs, id))
    && OthersUntouched(b, c, id)
  }

  predicate HasBooking(b: Book, traveler: nat, host: nat, experience: nat, startTime: int) {
    exists o :: o in b.orders && o.traveler == traveler && o.host == host && o.experience == experience && o.startTime == startTime
  }

  /** One new unpaid order of the traveler, logged as created; the others as before. */
  predicate Opened(b: Book, c: Book, traveler: nat, host: nat, experience: nat, startTime: int, now: int) {
    && |c.orders| == |b.orders| + 1
    && c.orders[|b.orders|] == Order(traveler, host, experience, startTime, now, PendingPayment, Unpaid, None)
    && History(c.logs, |b.orders|) == History(b.logs, |b.orders|) + [LogRow(|b.orders|, None, PendingPayment)]
    && OthersUntouched(b, c, |b.orders|)
  }

  lemma MoveMeans(b: Book, id: nat, o: Order)
    requires id < |b.orders| && SameRoute(b.orders[id], o) && o.createdAt == b.orders[id].createdAt && o.paidAt == b.orders[id].paidAt
    ensures MovedTo(b, Move(b, id, o), id, o.status, o.payment)
  {
    hide History;
    var row := LogRow(id, Some(b.orders[id].status), o.status);
    forall i: nat ensures History(b.logs + [row], i) == History(b.logs, i) + if i == id then [row] else [] {
      HistoryGrows(b.logs, row, i);
    }
  }

  lemma PayMeans(b: Book, id: nat, now: int)
    requires id < |b.orders|
    ensures PaidUp(b, Pay(b, id, now), id, now)
  {
    hide History;
    var row := LogRow(id, Some(PendingPayment), PendingHostConfirm);
    forall i: nat ensures History(b.logs + [row], i) == History(b.logs, i) + if i == id then [row] else [] {
      HistoryGrows(b.logs, row, i);
    }
  }

  /** Creating: accepted from every traveler with a complete request; the booking exists
      afterwards, and is opened only if it did not before. */
  lemma CreateMeans(b: Book, actor: Actor, complete: bool, host: nat, experience: nat, startTime: int, now: int)
    ensures var r := Create(b, actor, complete, host, experience, startTime, now);
      && (r.reply == Accepted <==> complete && actor.role == TravelerRole)
      && (r.reply == Accepted ==> HasBooking(r.book, actor.profile, host, experience, startTime))
      && (if r.reply == Accepted && !HasBooking(b, actor.profile, host, experience, startTime)
          then Opened(b, r.book, actor.profile, host, experience, startTime, now) else r.book == b)
  {
    hide History;
    var r := Create(b, actor, complete, host, experience, startTime, now);
    if r.book != b {
      var row := LogRow(|b.orders|, None, PendingPayment);
      forall i: nat ensures History(b.logs + [row], i) == History(b.logs, i) + if i == row.order then [row] else [] {
        HistoryGrows(b.logs, row, i);
      }
      assert r.book.orders[|b.orders|] in r.book.orders;
    }
  }

  /** Marking paid: accepted exactly from the traveler of an unpaid open order, which is paid
      afterwards; a refusal changes nothing. */
  lemma MarkPaidMeans(b: Book, actor: Actor, id: nat, now: int)
    ensures var r := MarkPaid(b, actor, id, now);
      && (r.reply == Accepted <==>
            id < |b.orders| && IsTravelerOf(actor, b.orders[id]) && b.orders[id].payment == Unpaid
            && b.orders[id].status !in {CancelledRefunded, CancelledByTraveler, Completed})
      && (if r.reply == Accepted then PaidUp(b, r.book, id, now) else r.book == b)
  {
    hide PaidUp, Pay;
    if id < |b.orders| {
      PayMeans(b, id, now);
    }
  }

  /** The route that brings an order to `to`, for the five statuses a caller chooses outright. */
  function Steer(b: Book, actor: Actor, id: nat, to: OrderStatus): Result {
    match to
    case Confirmed => Accept(b, actor, id)
    case CancelledRefunded => Reject(b, actor, id)
    case InService => Start(b, actor, id)
    case Completed => End(b, actor, id)
    case _ => Cancel(b, actor, id)
  }

  /** What the payment state becomes: a cancellation refunds what was paid. */
  function PaymentOn(o: Order, to: OrderStatus): PaymentStatus {
    if Cancelled(to) && o.payment == Paid then Refunded else o.payment
  }

  /** Accepting, rejecting, starting, ending and cancelling: accepted exactly where the table of
      authorised changes allows it, and then the order moves, with one log entry, and nothing
      else changes; a refusal changes nothing. */
  lemma SteerMeans(b: Book, actor: Actor, id: nat, to: OrderStatus)
    requires to in {Confirmed, CancelledRefunded, InService, Completed, CancelledByTraveler}
    ensures var r := Steer(b, actor, id, to);
      && (r.reply == Accepted <==> id < |b.orders| && Authorised(actor, b.orders[id], to))
      && (if r.reply == Accepted then MovedTo(b, r.book, id, to, PaymentOn(b.orders[id], to)) else r.book == b)
  {
    hide MovedTo, Move;
    if id < |b.orders| {
      MoveMeans(b, id, b.orders[id].(status := to, payment := PaymentOn(b.orders[id], to)));
    }
  }

  // ---- what the timeout job does ----

  lemma {:induction false} CloseUnpaidAt(b: Book, k: nat, now: int)
    requires k <= |b.orders|
    ensures var c := CloseUnpaidUpTo(b, k, now);
      forall id: nat :: id < |b.orders| ==>
        c.orders[id] == (if id < k && PaymentTimedOut(b.orders[id], now) then b.orders[id].(status := CancelledByTraveler) else b.orders[id])
        && History(c.logs, id) == History(b.logs, id)
           + if id < k && PaymentTimedOut(b.orders[id], now) then [LogRow(id, Some(PendingPayment), CancelledByTraveler)] else []
    decreases k
  {
    if k > 0 {
      CloseUnpaidAt(b, k - 1, now);
      var c := CloseUnpaidUpTo(b, k - 1, now);
      forall id: nat | id < |b.orders|
        ensures History(c.logs + [LogRow(k - 1, Some(PendingPayment), CancelledByTraveler)], id)
          == History(c.logs, id) + if id == k - 1 then [LogRow(k - 1, Some(PendingPayment), CancelledByTraveler)] else []
      {
        HistoryGrows(c.logs, LogRow(k - 1, Some(PendingPayment), CancelledByTraveler), id);
      }
    }
  }

  lemma {:induction false} CloseUnconfirmedAt(b: Book, k: nat, now: int)
    requires k <= |b.orders|
    ensures var c := CloseUnconfirmedUpTo(b, k, now);
      forall id: nat :: id < |b.orders| ==>
        c.orders[id] == (if id < k && ConfirmTimedOut(b.orders[id], now) then b.orders[id].(status := CancelledRefunded, payment := Refunded) else b.orders[id])
        && History(c.logs, id) == History(b.logs, id)
           + if id < k && ConfirmTimedOut(b.orders[id], now) then [LogRow(id, Some(PendingHostConfirm), CancelledRefunded)] else []
    decreases k
  {
    if k > 0 {
      CloseUnconfirmedAt(b, k - 1, now);
      var c := CloseUnconfirmedUpTo(b, k - 1, now);
      forall id: nat | id < |b.orders|
        ensures History(c.logs + [LogRow(k - 1, Some(PendingHostConfirm), CancelledRefunded)], id)
          == History(c.logs, id) + if id == k - 1 then [LogRow(k - 1, Some(PendingHostConfirm), CancelledRefunded)] else []
      {
        HistoryGrows(c.logs, LogRow(k - 1, Some(PendingHostConfirm), CancelledRefunded), id);
      }
    }
  }

  /** The job, order by order: one that waited for its payment more than half an hour is
      cancelled, one that was unconfirmed for more than twelve hours is cancelled and refunded,
      each with one log entry; every other order and its log stay, and so does the number of
      orders. */
  lemma AutoCloseIsExact(b: Book, now: int, id: nat)
    requires id < |b.orders|
    ensures var c, o := AutoClose(b, now), b.orders[id];
      && |c.orders| == |b.orders|
      && if o.status == PendingPayment && now - o.createdAt > 1_800_000
         then c.orders[id] == o.(status := CancelledByTraveler)
              && History(c.logs, id) == History(b.logs, id) + [LogRow(id, Some(PendingPayment), CancelledByTraveler)]
         else if o.status == PendingHostConfirm && now - o.createdAt > 43_200_000
         then c.orders[id] == o.(status := CancelledRefunded, payment := Refunded)
              && History(c.logs, id) == History(b.logs, id) + [LogRow(id, Some(PendingHostConfirm), CancelledRefunded)]
         else c.orders[id] == o && History(c.logs, id) == History(b.logs, id)
  {
    CloseUnpaidAt(b, |b.orders|, now);
    var c := CloseUnpaidUpTo(b, |b.orders|, now);
    CloseUnconfirmedAt(c, |c.orders|, now);
  }
}
