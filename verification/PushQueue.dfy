/** The push pipeline: the Redis stream with its consumer group, retries with
    capped exponential backoff, and the dead-letter stream. Each handler is one step. */
module PushQueue {
  import opened Prelude

  /** One notification owed: a message and a recipient. */
  datatype Job = Job(msgId: nat, to: nat)

  /** A stream entry; `attempt` counts the failures behind it. */
  datatype Entry = Entry(job: Job, attempt: nat, availableAtMs: int)

  datatype DeadLetter = DeadLetter(job: Job, error: string, failedAtMs: int)

  /** `stream` holds what no consumer has read, `pending` what was read and not
      acknowledged; `sentKeys` maps each dedup key to the instant it expires. */
  datatype Queue = Queue(stream: seq<Entry>, pending: seq<Entry>, dead: seq<DeadLetter>, sentKeys: map<Job, int>)

  datatype Config = Config(pushMaxRetries: int, pushBackoffMs: int)

  const DEDUP_TTL_MS := 604_800_000

  datatype Tokens = LookupFailed | Found(count: nat)

  datatype Fcm = NotConfigured | CallFailed | Answered(failureCount: nat)

  datatype Outcome = Postponed | Skipped | LeftPending | Discarded | Sent | Retried | DeadLettered

  // ---- backoff in 64-bit arithmetic ----

  const TWO63 := 0x8000_0000_0000_0000
  const TWO64 := 0x1_0000_0000_0000_0000

  function Pow2(n: nat): nat {
    if n == 0 then 1 else 2 * Pow2(n - 1)
  }

  /** Two's-complement truncation to int64. */
  function Wrap64(x: int): int {
    (x + TWO63) % TWO64 - TWO63
  }

  function BackoffMs(base: int, attempt: nat): int {
    var ms := Wrap64(base * Wrap64(Pow2(attempt)));
    if ms > 60000 then 60000 else ms
  }

  lemma {:induction false} Pow2Grows(a: nat, b: nat)
    requires a <= b
    ensures 1 <= Pow2(a) <= Pow2(b)
    decreases b
  {
    if a < b {
      Pow2Grows(a, b - 1);
    } else if a > 0 {
      Pow2Grows(a - 1, b - 1);
    }
  }

  lemma {:induction false} Pow2Adds(a: nat, b: nat)
    ensures Pow2(a + b) == Pow2(a) * Pow2(b)
  {
    if a > 0 {
      Pow2Adds(a - 1, b);
      assert Pow2(a + b) == 2 * Pow2(a - 1 + b);
    }
  }

  predicate InInt64(x: int) {
    -TWO63 <= x < TWO63
  }

  /** Truncation forgets exactly the multiples of 2^64. */
  lemma WrapForgets(x: int, k: int)
    ensures Wrap64(x + k * TWO64) == Wrap64(x)
  {
    var y := x + TWO63;
    var q := y / TWO64;
    assert y == q * TWO64 + y % TWO64;
    assert y + k * TWO64 == (q + k) * TWO64 + y % TWO64;
    SameRemainder(y + k * TWO64, q + k, y % TWO64);
  }

  lemma SameRemainder(z: int, q: int, r: int)
    requires z == q * TWO64 + r && 0 <= r < TWO64
    ensures z % TWO64 == r
  {
  }

  /** One truncation at the end would do: the backoff is the wrapped product, capped at a minute. */
  lemma BackoffIsTheWrappedProduct(base: int, attempt: nat)
    ensures BackoffMs(base, attempt) == Min(60000, Wrap64(base * Pow2(attempt)))
  {
    var p := Pow2(attempt);
    var q := (p + TWO63) / TWO64;
    assert Wrap64(p) == p - q * TWO64;
    Distribute(base, p, q);
    WrapForgets(base * p, -(base * q));
  }

  lemma Distribute(base: int, p: int, q: int)
    ensures base * (p - q * TWO64) == base * p + -(base * q) * TWO64
  {
    assert base * (p - q * TWO64) == base * p - base * (q * TWO64);
    assert base * (q * TWO64) == (base * q) * TWO64;
  }

  /** As long as base * 2^attempt fits in an int64, the backoff is that product
      capped at a minute. */
  lemma BackoffIsCappedDoubling(base: int, attempt: nat)
    requires InInt64(base * Pow2(attempt))
    ensures BackoffMs(base, attempt) == Min(60000, base * Pow2(attempt))
  {
    BackoffIsTheWrappedProduct(base, attempt);
  }

  lemma Doubles(base: int, attempt: nat)
    requires attempt > 0
    ensures base * Pow2(attempt) == 2 * (base * Pow2(attempt - 1))
  {
  }

  /** Doubling keeps a product on its side of zero and moves it away: what fits at the
      last attempt fits at every earlier one. */
  lemma {:induction false} FitsBefore(base: int, a: nat, n: nat)
    requires a <= n && InInt64(base * Pow2(n))
    ensures InInt64(base * Pow2(a))
    decreases n
  {
    if a < n {
      Doubles(base, n);
      FitsBefore(base, a, n - 1);
    }
  }

  /** At the first attempt whose product does not fit, the wait has the wrong sign: for a
      positive base it is the product less 2^64, which is negative. */
  lemma FirstOverflow(base: int, attempt: nat)
    requires attempt > 0 && InInt64(base * Pow2(attempt - 1)) && !InInt64(base * Pow2(attempt))
    ensures base > 0 ==> BackoffMs(base, attempt) == base * Pow2(attempt) - TWO64 < 0
    ensures base < 0 ==> BackoffMs(base, attempt) == Min(60000, base * Pow2(attempt) + TWO64) >= 0
    ensures BackoffMs(base, attempt) != Min(60000, base * Pow2(attempt))
  {
    Doubles(base, attempt);
    BackoffIsTheWrappedProduct(base, attempt);
    Pow2Grows(0, attempt);
    var x := base * Pow2(attempt);
    SignOf(base, Pow2(attempt));
    if x > 0 {
      SameRemainder(x + TWO63, 1, x - TWO63);
    } else {
      SameRemainder(x + TWO63, -1, x + TWO63 + TWO64);
    }
  }

  lemma SignOf(base: int, p: nat)
    requires p > 0
    ensures base > 0 <==> base * p > 0
    ensures base < 0 <==> base * p < 0
  {
  }

  /** Exactly when the backoff is what it says, for every base an int64 holds: all attempts
      up to the n-th wait base * 2^attempt capped at a minute if and only if the n-th
      product fits in an int64. */
  lemma {:induction false} BackoffIsExactIffItFits(base: int, n: nat)
    requires InInt64(base)
    ensures (forall a: nat :: a <= n ==> BackoffMs(base, a) == Min(60000, base * Pow2(a))) <==> InInt64(base * Pow2(n))
    decreases n
  {
    hide BackoffMs;
    if InInt64(base * Pow2(n)) {
      forall a: nat | a <= n ensures BackoffMs(base, a) == Min(60000, base * Pow2(a)) {
        FitsBefore(base, a, n);
        BackoffIsCappedDoubling(base, a);
      }
    } else {
      assert n > 0;
      if InInt64(base * Pow2(n - 1)) {
        FirstOverflow(base, n);
        assert BackoffMs(base, n) != Min(60000, base * Pow2(n));
      } else {
        BackoffIsExactIffItFits(base, n - 1);
      }
    }
  }

  /** With a base that is not negative, the backoff never decreases within that bound, and
      never exceeds a minute. */
  lemma BackoffIsMonotone(base: nat, a: nat, b: nat)
    requires a <= b && base * Pow2(b) < TWO63
    ensures 0 <= BackoffMs(base, a) <= BackoffMs(base, b) <= 60000
  {
    Pow2Grows(a, b);
    ScaledOrder(base, Pow2(a), Pow2(b));
    BackoffIsCappedDoubling(base, a);
    BackoffIsCappedDoubling(base, b);
  }

  lemma ScaledOrder(c: nat, x: nat, y: nat)
    requires x <= y
    ensures 0 <= c * x <= c * y
  {
  }

  lemma Pow2Of53()
    ensures Pow2(53) == 0x20_0000_0000_0000
  {
    assert Pow2(8) == 256;
    Pow2Adds(8, 8);
    Pow2Adds(16, 16);
    Pow2Adds(32, 16);
    assert Pow2(53) == 32 * Pow2(48);
  }

  /** The default base of one second is right up to attempt 53 and negative at attempt 54. */
  lemma DefaultBackoffOverflows()
    ensures forall a: nat :: a <= 53 ==> BackoffMs(1000, a) == Min(60000, 1000 * Pow2(a))
    ensures BackoffMs(1000, 54) < 0
  {
    Pow2Of53();
    hide Pow2, BackoffMs;
    BackoffIsExactIffItFits(1000, 53);
    Doubles(1000, 54);
    FirstOverflow(1000, 54);
  }

  // ---- the steps ----

  function Without<T>(s: seq<T>, i: nat): seq<T>
    requires i < |s|
  {
    s[..i] + s[i + 1..]
  }

  /** How many entries of `es` are for job j. */
  function Count(es: seq<Entry>, j: Job): nat {
    if es == [] then 0 else Count(es[..|es| - 1], j) + if es[|es| - 1].job == j then 1 else 0
  }

  function CountDead(ds: seq<DeadLetter>, j: Job): nat {
    if ds == [] then 0 else CountDead(ds[..|ds| - 1], j) + if ds[|ds| - 1].job == j then 1 else 0
  }

  function CountJobs(js: seq<Job>, j: Job): nat {
    if js == [] then 0 else CountJobs(js[..|js| - 1], j) + if js[|js| - 1] == j then 1 else 0
  }

  /** One XADD per recipient that is neither the sender nor online. */
  function Enqueue(q: Queue, jobs: seq<Job>): Queue {
    q.(stream := q.stream + seq(|jobs|, i requires 0 <= i < |jobs| => Entry(jobs[i], 0, 0)))
  }

  /** XREADGROUP with COUNT. */
  function Deliver(q: Queue, count: nat): Queue {
    var n := Min(count, |q.stream|);
    q.(stream := q.stream[n..], pending := q.pending + q.stream[..n])
  }

  function RetryOrDlq(c: Config, q: Queue, i: nat, now: int, error: string): (Queue, Outcome)
    requires i < |q.pending|
  {
    var e := q.pending[i];
    if e.attempt + 1 >= c.pushMaxRetries
    then (q.(pending := Without(q.pending, i), dead := q.dead + [DeadLetter(e.job, error, now)]), DeadLettered)
    else (q.(pending := Without(q.pending, i),
             stream := q.stream + [Entry(e.job, e.attempt + 1, now + BackoffMs(c.pushBackoffMs, e.attempt + 1))]), Retried)
  }

  function Handle(c: Config, q: Queue, i: nat, now: int, tokens: Tokens, fcm: Fcm): (Queue, Outcome)
    requires i < |q.pending|
  {
    var e := q.pending[i];
    var acked := q.(pending := Without(q.pending, i));
    if e.availableAtMs > 0 && now < e.availableAtMs then (acked.(stream := q.stream + [e]), Postponed)
    else if e.job in q.sentKeys && now < q.sentKeys[e.job] then (acked, Skipped)
    else if tokens.LookupFailed? then (q, LeftPending)
    else if tokens.count == 0 then (acked, Discarded)
    else if fcm.NotConfigured? then RetryOrDlq(c, q, i, now, "fcm_not_configured")
    else if fcm == Answered(0) then (acked.(sentKeys := q.sentKeys[e.job := now + DEDUP_TTL_MS]), Sent)
    else RetryOrDlq(c, q, i, now, "push_failed")
  }

  datatype Event =
    | Produce(jobs: seq<Job>)
    | Read(count: nat)
    | Work(i: nat, now: int, tokens: Tokens, fcm: Fcm)

  function Step(c: Config, q: Queue, ev: Event): Queue {
    match ev
    case Produce(jobs) => Enqueue(q, jobs)
    case Read(count) => Deliver(q, count)
    case Work(i, now, tokens, fcm) => if i < |q.pending| then Handle(c, q, i, now, tokens, fcm).0 else q
  }

  const EMPTY := Queue([], [], [], map[])

  function Run(c: Config, es: seq<Event>): Queue {
    if es == [] then EMPTY else Step(c, Run(c, es[..|es| - 1]), es[|es| - 1])
  }

  /** What a handler call did: which entry it worked on and how it ended. */
  function Result(c: Config, q: Queue, ev: Event): Option<(Entry, Outcome)> {
    if ev.Work? && ev.i < |q.pending|
    then Some((q.pending[ev.i], Handle(c, q, ev.i, ev.now, ev.tokens, ev.fcm).1))
    else None
  }

  function Gain(c: Config, q: Queue, ev: Event, o: Outcome, j: Job): nat {
    var r := Result(c, q, ev);
    if r.Some? && r.value.1 == o && r.value.0.job == j then 1 else 0
  }

  /** How many handler calls on job j ended in `o`. */
  function Ended(c: Config, es: seq<Event>, o: Outcome, j: Job): nat {
    if es == [] then 0
    else Ended(c, es[..|es| - 1], o, j) + Gain(c, Run(c, es[..|es| - 1]), es[|es| - 1], o, j)
  }

  /** How often job j was put on the stream by the API. */
  function Produced(es: seq<Event>, j: Job): nat {
    if es == [] then 0
    else Produced(es[..|es| - 1], j) + if es[|es| - 1].Produce? then CountJobs(es[|es| - 1].jobs, j) else 0
  }

  // ---- conservation ----

  /** How often job j is still in Redis. */
  function Held(q: Queue, j: Job): nat {
    Count(q.stream, j) + Count(q.pending, j) + CountDead(q.dead, j)
  }

  lemma {:induction false} CountConcat(a: seq<Entry>, b: seq<Entry>, j: Job)
    ensures Count(a + b, j) == Count(a, j) + Count(b, j)
    decreases |b|
  {
    if b == [] {
      assert a + b == a;
    } else {
      assert (a + b)[..|a + b| - 1] == a + b[..|b| - 1];
      CountConcat(a, b[..|b| - 1], j);
    }
  }

  lemma CountWithout(a: seq<Entry>, i: nat, j: Job)
    requires i < |a|
    ensures Count(a, j) == Count(Without(a, i), j) + if a[i].job == j then 1 else 0
  {
    CountConcat(a[..i], a[i + 1..], j);
    CountConcat(a[..i + 1], a[i + 1..], j);
    assert a == a[..i + 1] + a[i + 1..] && a[..i + 1][..i] == a[..i];
  }

  lemma CountAdded(a: seq<Entry>, e: Entry, j: Job)
    ensures Count(a + [e], j) == Count(a, j) + if e.job == j then 1 else 0
  {
    assert (a + [e])[..|a|] == a;
  }

  predicate Leaves(o: Outcome) {
    o == Sent || o == Discarded || o == Skipped
  }

  predicate Due(e: Entry, now: int) {
    e.availableAtMs <= 0 || e.availableAtMs <= now
  }

  /** No live dedup key says that the job was sent. */
  predicate Unsent(sentKeys: map<Job, int>, j: Job, now: int) {
    j in sentKeys ==> sentKeys[j] <= now
  }

  /** Which outcome a call has, from the entry, the dedup keys, the device lookup and the answer
      of the push service: what is not due is postponed; what is due and was sent is skipped;
      else a failed lookup leaves it pending, no device discards it, success without any
      failure sends it, and anything else is a failed attempt, the last one going to the
      dead letters. */
  predicate OutcomeIsRight(c: Config, e: Entry, sentKeys: map<Job, int>, now: int, tokens: Tokens, fcm: Fcm, o: Outcome) {
    && (o == Postponed <==> !Due(e, now))
    && (o == Skipped <==> Due(e, now) && !Unsent(sentKeys, e.job, now))
    && (o == LeftPending <==> Due(e, now) && Unsent(sentKeys, e.job, now) && tokens == LookupFailed)
    && (o == Discarded <==> Due(e, now) && Unsent(sentKeys, e.job, now) && tokens == Found(0))
    && (o == Sent <==> Due(e, now) && Unsent(sentKeys, e.job, now) && tokens.Found? && tokens.count > 0 && fcm == Answered(0))
    && (o == Retried || o == DeadLettered <==>
          Due(e, now) && Unsent(sentKeys, e.job, now) && tokens.Found? && tokens.count > 0 && fcm != Answered(0))
    && (o == Retried ==> e.attempt + 1 < c.pushMaxRetries)
    && (o == DeadLettered ==> e.attempt + 1 >= c.pushMaxRetries)
  }

  /** A handler call on entry e = q.pending[i]: the right outcome, and only what the outcome
      calls for. A retry waits at the end of the stream, with one more attempt, for its backoff;
      a dead letter says why and when; a sent job is remembered for seven days. */
  predicate Handled(c: Config, q: Queue, i: nat, now: int, tokens: Tokens, fcm: Fcm, q': Queue, o: Outcome)
    requires i < |q.pending|
  {
    var e := q.pending[i];
    && OutcomeIsRight(c, e, q.sentKeys, now, tokens, fcm, o)
    && q'.sentKeys == (if o == Sent then q.sentKeys[e.job := now + 604_800_000] else q.sentKeys)
    && q'.pending == (if o == LeftPending then q.pending else Without(q.pending, i))
    && q'.stream == q.stream + (if o == Postponed then [e]
                                else if o == Retried then [Entry(e.job, e.attempt + 1, now + BackoffMs(c.pushBackoffMs, e.attempt + 1))]
                                else [])
    && q'.dead == q.dead + (if o == DeadLettered
                            then [DeadLetter(e.job, if fcm == NotConfigured then "fcm_not_configured" else "push_failed", now)] else [])
  }

  /** What a handler call does to the queue, and which outcome it has. */
  lemma HandleByOutcome(c: Config, q: Queue, i: nat, now: int, tokens: Tokens, fcm: Fcm)
    requires i < |q.pending|
    ensures Handled(c, q, i, now, tokens, fcm, Handle(c, q, i, now, tokens, fcm).0, Handle(c, q, i, now, tokens, fcm).1)
  {
  }

  lemma HandleConserves(c: Config, q: Queue, i: nat, now: int, tokens: Tokens, fcm: Fcm, j: Job)
    requires i < |q.pending|
    ensures var (q', o) := Handle(c, q, i, now, tokens, fcm);
      Held(q, j) == Held(q', j) + if Leaves(o) && q.pending[i].job == j then 1 else 0
  {
    HandleByOutcome(c, q, i, now, tokens, fcm);
    hide Handle, BackoffMs, Without;
    var (q', o) := Handle(c, q, i, now, tokens, fcm);
    CountWithout(q.pending, i, j);
    if o == Postponed || o == Retried {
      assert q'.stream == q.stream + [q'.stream[|q.stream|]];
      CountAdded(q.stream, q'.stream[|q.stream|], j);
    } else {
      assert q'.stream == q.stream;
    }
  }

  /** A failed attempt moves its job to one place: the end of the stream with one more attempt
      behind it, or, when that was the last allowed, the dead letters. */
  lemma RetryConserves(c: Config, q: Queue, i: nat, now: int, error: string, j: Job)
    requires i < |q.pending|
    ensures Held(RetryOrDlq(c, q, i, now, error).0, j) == Held(q, j)
  {
    var e := q.pending[i];
    CountWithout(q.pending, i, j);
    CountAdded(q.stream, Entry(e.job, e.attempt + 1, now + BackoffMs(c.pushBackoffMs, e.attempt + 1)), j);
    assert (q.dead + [DeadLetter(e.job, error, now)])[..|q.dead|] == q.dead;
  }

  lemma {:induction false} ProduceConserves(q: Queue, jobs: seq<Job>, j: Job)
    ensures Held(Enqueue(q, jobs), j) == Held(q, j) + CountJobs(jobs, j)
    decreases |jobs|
  {
    if jobs == [] {
      assert Enqueue(q, jobs).stream == q.stream;
    } else {
      var front, last := jobs[..|jobs| - 1], jobs[|jobs| - 1];
      ProduceConserves(q, front, j);
      assert Enqueue(q, jobs).stream == Enqueue(q, front).stream + [Entry(last, 0, 0)];
      CountAdded(Enqueue(q, front).stream, Entry(last, 0, 0), j);
    }
  }

  lemma ReadConserves(q: Queue, count: nat, j: Job)
    ensures Held(Deliver(q, count), j) == Held(q, j)
  {
    var n := Min(count, |q.stream|);
    CountConcat(q.pending, q.stream[..n], j);
    CountConcat(q.stream[..n], q.stream[n..], j);
    assert q.stream == q.stream[..n] + q.stream[n..];
  }

  lemma StepConserves(c: Config, q: Queue, ev: Event, j: Job)
    ensures Held(q, j) + (if ev.Produce? then CountJobs(ev.jobs, j) else 0)
      == Held(Step(c, q, ev), j) + Gain(c, q, ev, Sent, j) + Gain(c, q, ev, Discarded, j) + Gain(c, q, ev, Skipped, j)
  {
    hide Held;
    match ev
    case Produce(jobs) => ProduceConserves(q, jobs, j);
    case Read(count) => ReadConserves(q, count, j);
    case Work(i, now, tokens, fcm) =>
      if i < |q.pending| {
        HandleConserves(c, q, i, now, tokens, fcm, j);
      }
  }

  /** Conservation, over every run: counted with multiplicity, a job was produced as
      often as it is unread, pending or dead-lettered plus as often as it was
      sent, discarded for want of a token, or skipped as already sent. */
  lemma {:induction false} JobsAreConserved(c: Config, es: seq<Event>, j: Job)
    ensures Produced(es, j) == Held(Run(c, es), j) + Ended(c, es, Sent, j) + Ended(c, es, Discarded, j) + Ended(c, es, Skipped, j)
    decreases |es|
  {
    if es != [] {
      JobsAreConserved(c, es[..|es| - 1], j);
      StepConserves(c, Run(c, es[..|es| - 1]), es[|es| - 1], j);
    }
  }

  /** Every (message, recipient) pair is produced once: message ids are new and members distinct. */
  ghost predicate ProducedOnce(es: seq<Event>) {
    forall j :: Produced(es, j) <= 1
  }

  lemma ProducedOncePrefix(es: seq<Event>)
    requires es != [] && ProducedOnce(es)
    ensures ProducedOnce(es[..|es| - 1])
  {
    var front := es[..|es| - 1];
    forall j ensures Produced(front, j) <= 1 {
      assert Produced(front, j) <= Produced(es, j);
    }
  }

  lemma {:induction false} DedupKeysWereSent(c: Config, es: seq<Event>, j: Job)
    requires j in Run(c, es).sentKeys
    ensures Ended(c, es, Sent, j) >= 1
    decreases |es|
  {
    var before := Run(c, es[..|es| - 1]);
    if j in before.sentKeys {
      DedupKeysWereSent(c, es[..|es| - 1], j);
    }
  }

  lemma SkippedHasItsKey(c: Config, q: Queue, i: nat, now: int, tokens: Tokens, fcm: Fcm)
    requires i < |q.pending| && Handle(c, q, i, now, tokens, fcm).1 == Skipped
    ensures q.pending[i].job in q.sentKeys
  {
  }

  /** The dedup key is a second guard: with each pair produced once, it never fires. */
  lemma {:induction false} NothingIsSkipped(c: Config, es: seq<Event>, j: Job)
    requires ProducedOnce(es)
    ensures Ended(c, es, Skipped, j) == 0
    decreases |es|
  {
    if es != [] {
      var front, ev := es[..|es| - 1], es[|es| - 1];
      ProducedOncePrefix(es);
      NothingIsSkipped(c, front, j);
      var q := Run(c, front);
      if Gain(c, q, ev, Skipped, j) > 0 {
        SkippedHasItsKey(c, q, ev.i, ev.now, ev.tokens, ev.fcm);
        DedupKeysWereSent(c, front, j);
        JobsAreConserved(c, front, j);
        CountWithout(q.pending, ev.i, j);
      }
    }
  }

  /** So each produced job is, at every handler boundary, in exactly one of the
      five places, and in it once. */
  lemma EachJobIsInExactlyOnePlace(c: Config, es: seq<Event>, j: Job)
    requires ProducedOnce(es) && Produced(es, j) > 0
    ensures var q := Run(c, es);
      Count(q.stream, j) + Count(q.pending, j) + CountDead(q.dead, j) + Ended(c, es, Sent, j) + Ended(c, es, Discarded, j) == 1
  {
    JobsAreConserved(c, es, j);
    NothingIsSkipped(c, es, j);
    assert Produced(es, j) <= 1;
  }

  // ---- attempts and their timing ----

  /** FCM was asked, or would have been, and did not take the job. */
  predicate Fails(o: Outcome) {
    o == Retried || o == DeadLettered
  }

  function Failures(c: Config, es: seq<Event>, j: Job): nat {
    Ended(c, es, Retried, j) + Ended(c, es, DeadLettered, j)
  }

  function LastFailure(c: Config, es: seq<Event>, j: Job): int {
    if es == [] then 0
    else
      var r := Result(c, Run(c, es[..|es| - 1]), es[|es| - 1]);
      if r.Some? && r.value.0.job == j && Fails(r.value.1) then es[|es| - 1].now
      else LastFailure(c, es[..|es| - 1], j)
  }

  /** An entry carries the truth about its job's past. */
  ghost predicate Truthful(c: Config, es: seq<Event>, e: Entry) {
    && e.attempt == Failures(c, es, e.job)
    && e.attempt < Max(1, c.pushMaxRetries)
    && e.availableAtMs == if e.attempt == 0 then 0 else LastFailure(c, es, e.job) + BackoffMs(c.pushBackoffMs, e.attempt)
  }

  ghost predicate AllTruthful(c: Config, es: seq<Event>) {
    var q := Run(c, es);
    && (forall e :: e in q.stream ==> Truthful(c, es, e))
    && (forall e :: e in q.pending ==> Truthful(c, es, e))
    && (forall d :: d in q.dead ==> Failures(c, es, d.job) == Max(1, c.pushMaxRetries))
  }

  lemma {:induction false} NotCountedNotThere(es: seq<Entry>, j: Job)
    requires Count(es, j) == 0
    ensures forall e :: e in es ==> e.job != j
    decreases |es|
  {
    if es != [] {
      NotCountedNotThere(es[..|es| - 1], j);
    }
  }

  lemma {:induction false} NotCountedNotDead(ds: seq<DeadLetter>, j: Job)
    requires CountDead(ds, j) == 0
    ensures forall d :: d in ds ==> d.job != j
    decreases |ds|
  {
    if ds != [] {
      NotCountedNotDead(ds[..|ds| - 1], j);
    }
  }

  /** The job of the entry a handler works on is nowhere else. */
  lemma WorkedOnIsAlone(c: Config, es: seq<Event>, i: nat)
    requires ProducedOnce(es) && i < |Run(c, es).pending|
    ensures var q := Run(c, es); var j := q.pending[i].job;
      && (forall e :: e in q.stream ==> e.job != j)
      && (forall e :: e in Without(q.pending, i) ==> e.job != j)
      && (forall d :: d in q.dead ==> d.job != j)
  {
    var q := Run(c, es);
    var j := q.pending[i].job;
    JobsAreConserved(c, es, j);
    CountWithout(q.pending, i, j);
    assert Produced(es, j) <= 1;
    NotCountedNotThere(q.stream, j);
    NotCountedNotThere(Without(q.pending, i), j);
    NotCountedNotDead(q.dead, j);
  }

  /** A job not produced yet has no past. */
  lemma {:induction false} OnlyProducedJobsFail(c: Config, es: seq<Event>, j: Job)
    requires Produced(es, j) == 0
    ensures Failures(c, es, j) == 0
    decreases |es|
  {
    if es != [] {
      var front, ev := es[..|es| - 1], es[|es| - 1];
      OnlyProducedJobsFail(c, front, j);
      JobsAreConserved(c, front, j);
      if ev.Work? && ev.i < |Run(c, front).pending| {
        CountWithout(Run(c, front).pending, ev.i, j);
      }
    }
  }

  lemma {:induction false} ThereIsCounted(js: seq<Job>, j: Job)
    requires j in js
    ensures CountJobs(js, j) >= 1
    decreases |js|
  {
    if js[|js| - 1] != j {
      ThereIsCounted(js[..|js| - 1], j);
    }
  }

  /** A step that is not a handler call on this job leaves its past as it was. */
  lemma PastIsKept(c: Config, es: seq<Event>, e: Entry)
    requires es != [] && Truthful(c, es[..|es| - 1], e)
    requires var r := Result(c, Run(c, es[..|es| - 1]), es[|es| - 1]);
      r.Some? ==> r.value.0.job != e.job || !Fails(r.value.1)
    ensures Truthful(c, es, e)
  {
  }

  lemma ProduceKeepsTruth(c: Config, es: seq<Event>)
    requires es != [] && es[|es| - 1].Produce? && ProducedOnce(es) && AllTruthful(c, es[..|es| - 1])
    ensures AllTruthful(c, es)
  {
    var front, jobs := es[..|es| - 1], es[|es| - 1].jobs;
    forall e | e in Run(c, es).stream ensures Truthful(c, es, e) {
      if e in Run(c, front).stream {
        PastIsKept(c, es, e);
      } else {
        assert e.job in jobs;
        ThereIsCounted(jobs, e.job);
        assert Produced(es, e.job) <= 1;
        OnlyProducedJobsFail(c, front, e.job);
        PastIsKept(c, es, e);
      }
    }
    forall e | e in Run(c, es).pending ensures Truthful(c, es, e) {
      PastIsKept(c, es, e);
    }
  }

  lemma ReadKeepsTruth(c: Config, es: seq<Event>)
    requires es != [] && es[|es| - 1].Read? && AllTruthful(c, es[..|es| - 1])
    ensures AllTruthful(c, es)
  {
    var q := Run(c, es[..|es| - 1]);
    forall e | e in Run(c, es).stream || e in Run(c, es).pending ensures Truthful(c, es, e) {
      assert e in q.stream || e in q.pending;
      PastIsKept(c, es, e);
    }
  }

  /** A failed call on a job whose entry was truthful: the past grows by one failure, now. */
  lemma FailureIsRecorded(c: Config, es: seq<Event>, j: Job)
    requires es != []
    requires var r := Result(c, Run(c, es[..|es| - 1]), es[|es| - 1]); r.Some? && r.value.0.job == j && Fails(r.value.1)
    ensures Failures(c, es, j) == Failures(c, es[..|es| - 1], j) + 1
    ensures LastFailure(c, es, j) == es[|es| - 1].now
  {
  }

  lemma WorkKeepsTruth(c: Config, es: seq<Event>)
    requires es != [] && es[|es| - 1].Work? && ProducedOnce(es[..|es| - 1]) && AllTruthful(c, es[..|es| - 1])
    requires es[|es| - 1].i < |Run(c, es[..|es| - 1]).pending|
    ensures AllTruthful(c, es)
  {
    var front, ev := es[..|es| - 1], es[|es| - 1];
    var q, q' := Run(c, front), Run(c, es);
    var worked := q.pending[ev.i];
    var (next, o) := Handle(c, q, ev.i, ev.now, ev.tokens, ev.fcm);
    assert next == q' && Result(c, q, ev) == Some((worked, o));
    WorkedOnIsAlone(c, front, ev.i);
    HandleByOutcome(c, q, ev.i, ev.now, ev.tokens, ev.fcm);
    assert worked in q.pending && Truthful(c, front, worked);
    if Fails(o) {
      FailureIsRecorded(c, es, worked.job);
    }
    if o == Retried {
      assert Truthful(c, es, Entry(worked.job, worked.attempt + 1, ev.now + BackoffMs(c.pushBackoffMs, worked.attempt + 1)));
    }
    hide Run, Handle, Failures, LastFailure, Truthful;
    forall e | e in q'.stream ensures Truthful(c, es, e) {
      if e in q.stream || o == Postponed {
        PastIsKept(c, es, e);
      }
    }
    forall e | e in q'.pending ensures Truthful(c, es, e) {
      assert e in q.pending;
      PastIsKept(c, es, e);
    }
    forall d | d in q'.dead ensures Failures(c, es, d.job) == Max(1, c.pushMaxRetries) {
      if d in q.dead {
        OtherPastIsKept(c, es, d.job);
      } else {
        assert d == q'.dead[|q.dead|];
      }
    }
  }

  lemma OtherPastIsKept(c: Config, es: seq<Event>, j: Job)
    requires es != []
    requires var r := Result(c, Run(c, es[..|es| - 1]), es[|es| - 1]); r.Some? ==> r.value.0.job != j || !Fails(r.value.1)
    ensures Failures(c, es, j) == Failures(c, es[..|es| - 1], j)
  {
  }

  lemma {:induction false} EntriesAreTruthful(c: Config, es: seq<Event>)
    requires ProducedOnce(es)
    ensures AllTruthful(c, es)
    decreases |es|
  {
    if es != [] {
      var front, ev := es[..|es| - 1], es[|es| - 1];
      ProducedOncePrefix(es);
      EntriesAreTruthful(c, front);
      if ev.Produce? {
        ProduceKeepsTruth(c, es);
      } else if ev.Read? {
        ReadKeepsTruth(c, es);
      } else if ev.i < |Run(c, front).pending| {
        WorkKeepsTruth(c, es);
      } else {
        forall e | e in Run(c, es).stream || e in Run(c, es).pending ensures Truthful(c, es, e) {
          PastIsKept(c, es, e);
        }
      }
    }
  }

  /** A dead-lettered job failed exactly PushMaxRetries times (once when that is
      less than one), and no job ever fails more often. */
  lemma DeadLettersExhaustedTheirRetries(c: Config, es: seq<Event>, d: DeadLetter)
    requires ProducedOnce(es) && d in Run(c, es).dead
    ensures Failures(c, es, d.job) == Max(1, c.pushMaxRetries)
  {
    EntriesAreTruthful(c, es);
  }

  /** No attempt is early: when a handler call sends a job or fails to, at least the
      backoff for the job's k-th failure has passed since that failure. */
  lemma NoAttemptIsEarly(c: Config, es: seq<Event>, i: nat, now: int, tokens: Tokens, fcm: Fcm)
    requires ProducedOnce(es) && i < |Run(c, es).pending| && now >= 0
    requires var o := Handle(c, Run(c, es), i, now, tokens, fcm).1; o == Sent || Fails(o)
    ensures var j := Run(c, es).pending[i].job; var k := Failures(c, es, j);
      && k < Max(1, c.pushMaxRetries)
      && (k > 0 ==> now >= LastFailure(c, es, j) + BackoffMs(c.pushBackoffMs, k))
  {
    EntriesAreTruthful(c, es);
    assert Run(c, es).pending[i] in Run(c, es).pending;
  }
}
