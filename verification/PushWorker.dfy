/** The producer and the worker as code over a mutable queue, each step proved
    against PushQueue. */
module PushWorker {
  import opened PushQueue

  /** Who gets a job for a message: members other than the sender that are not
      online and whose XADD succeeds. */
  function Recipients(msgId: nat, members: seq<nat>, sender: nat, skip: set<nat>): seq<Job> {
    if members == [] then []
    else
      var m := members[|members| - 1];
      Recipients(msgId, members[..|members| - 1], sender, skip) + if m != sender && m !in skip then [Job(msgId, m)] else []
  }

  class Pipeline {
    const config: Config
    var stream: seq<Entry>
    var pending: seq<Entry>
    var dead: seq<DeadLetter>
    var sentKeys: map<Job, int>

    constructor (config: Config)
      ensures State() == EMPTY && this.config == config
    {
      this.config := config;
      stream, pending, dead, sentKeys := [], [], [], map[];
    }

    function State(): Queue
      reads this
    {
      Queue(stream, pending, dead, sentKeys)
    }

    method EnqueuePushJobs(msgId: nat, members: seq<nat>, sender: nat, online: set<nat>, failing: set<nat>)
      modifies this`stream
      ensures old(stream) <= stream && |stream| <= |old(stream)| + |members|
      ensures forall e :: e in stream[|old(stream)|..] <==>
                e == Entry(Job(msgId, e.job.to), 0, 0) && e.job.to in members
                && e.job.to != sender && e.job.to !in online && e.job.to !in failing
      ensures State() == Enqueue(old(State()), Recipients(msgId, members, sender, online + failing))
    {
      ghost var jobs := [];
      for i := 0 to |members|
        invariant jobs == Recipients(msgId, members[..i], sender, online + failing)
        invariant stream == Enqueue(old(State()), jobs).stream
      {
        assert members[..i + 1][..i] == members[..i];
        if members[i] != sender && members[i] !in online && members[i] !in failing {
          stream := stream + [Entry(Job(msgId, members[i]), 0, 0)];
          jobs := jobs + [Job(msgId, members[i])];
        }
      }
      assert members[..|members|] == members;
      RecipientsAre(msgId, members, sender, online + failing);
      EntriesOf(old(State()), jobs);
    }

    method ReadGroup(count: nat)
      modifies this`stream, this`pending
      ensures pending + stream == old(pending) + old(stream)
      ensures |pending| == |old(pending)| + if count < |old(stream)| then count else |old(stream)|
      ensures forall j :: Held(State(), j) == Held(old(State()), j)
      ensures State() == Deliver(old(State()), count)
    {
      forall j ensures Held(Deliver(State(), count), j) == Held(State(), j) {
        ReadConserves(State(), count, j);
      }
      hide Held;
      var n := if count < |stream| then count else |stream|;
      pending := pending + stream[..n];
      stream := stream[n..];
    }

    /** XACK. */
    method Ack(i: nat)
      requires i < |pending|
      modifies this`pending
      ensures pending == Without(old(pending), i)
    {
      pending := pending[..i] + pending[i + 1..];
    }

    method HandlePushMessage(i: nat, now: int, tokens: Tokens, fcm: Fcm) returns (outcome: Outcome)
      requires i < |pending|
      modifies this`stream, this`pending, this`dead, this`sentKeys
      // every other job is where it was, and this one in one place unless it left
      ensures Conserves(old(State()), State(), outcome, old(pending)[i].job)
      ensures Handled(config, old(State()), i, now, tokens, fcm, State(), outcome)
      ensures (State(), outcome) == Handle(config, old(State()), i, now, tokens, fcm)
    {
      CallConserves(config, State(), i, now, tokens, fcm);
      HandleByOutcome(config, State(), i, now, tokens, fcm);
      hide Conserves, BackoffMs, Handled;
      var msg := pending[i];
      if msg.availableAtMs > 0 && now < msg.availableAtMs {
        Ack(i);
        stream := stream + [msg];
        return Postponed;
      }
      if msg.job in sentKeys && now < sentKeys[msg.job] {
        Ack(i);
        return Skipped;
      }
      if tokens.LookupFailed? {
        return LeftPending;
      }
      if tokens.count == 0 {
        Ack(i);
        return Discarded;
      }
      if fcm.NotConfigured? {
        outcome := RetryOrDLQ(i, now, "fcm_not_configured");
        return;
      }
      if fcm.Answered? && fcm.failureCount == 0 {
        sentKeys := sentKeys[msg.job := now + 7 * 24 * 3600 * 1000];
        Ack(i);
        return Sent;
      }
      outcome := RetryOrDLQ(i, now, "push_failed");
    }

    method RetryOrDLQ(i: nat, now: int, errCode: string) returns (outcome: Outcome)
      requires i < |pending|
      modifies this`stream, this`pending, this`dead
      ensures Conserves(old(State()), State(), outcome, old(pending)[i].job)
      ensures |pending| == |old(pending)| - 1
      ensures outcome == if old(pending)[i].attempt + 1 >= config.pushMaxRetries then DeadLettered else Retried
      ensures outcome == DeadLettered ==>
              stream == old(stream) && dead != [] && dead[|dead| - 1] == DeadLetter(old(pending)[i].job, errCode, now)
      ensures outcome == Retried ==>
              dead == old(dead) && stream != []
              && var e := stream[|stream| - 1];
                 e.job == old(pending)[i].job && e.attempt == old(pending)[i].attempt + 1
                 && e.availableAtMs == now + BackoffMs(config.pushBackoffMs, e.attempt)
      ensures (State(), outcome) == RetryOrDlq(config, old(State()), i, now, errCode)
    {
      RetryCallConserves(config, State(), i, now, errCode);
      hide Conserves, BackoffMs;
      var msg := pending[i];
      if msg.attempt + 1 >= config.pushMaxRetries {
        dead := dead + [DeadLetter(msg.job, errCode, now)];
        Ack(i);
        return DeadLettered;
      }
      Ack(i);
      stream := stream + [Entry(msg.job, msg.attempt + 1, now + BackoffMs(config.pushBackoffMs, msg.attempt + 1))];
      outcome := Retried;
    }
  }

  /** Every job is as often unread, pending or dead as before, but for the entry's own when the
      outcome lets it leave. */
  ghost predicate Conserves(q: Queue, q': Queue, o: Outcome, worked: Job) {
    forall j :: Held(q, j) == Held(q', j) + if o in {Sent, Discarded, Skipped} && worked == j then 1 else 0
  }

  lemma CallConserves(c: Config, q: Queue, i: nat, now: int, tokens: Tokens, fcm: Fcm)
    requires i < |q.pending|
    ensures Conserves(q, Handle(c, q, i, now, tokens, fcm).0, Handle(c, q, i, now, tokens, fcm).1, q.pending[i].job)
  {
    hide Held, Handle;
    forall j
      ensures Held(q, j) == Held(Handle(c, q, i, now, tokens, fcm).0, j)
              + if Leaves(Handle(c, q, i, now, tokens, fcm).1) && q.pending[i].job == j then 1 else 0
    {
      HandleConserves(c, q, i, now, tokens, fcm, j);
    }
  }

  lemma RetryCallConserves(c: Config, q: Queue, i: nat, now: int, error: string)
    requires i < |q.pending|
    ensures Conserves(q, RetryOrDlq(c, q, i, now, error).0, RetryOrDlq(c, q, i, now, error).1, q.pending[i].job)
  {
    forall j ensures Held(RetryOrDlq(c, q, i, now, error).0, j) == Held(q, j) {
      RetryConserves(c, q, i, now, error, j);
    }
    hide Held;
  }

  // ---- the producer produces each pair once ----

  ghost predicate Distinct(xs: seq<nat>) {
    forall i, j :: 0 <= i < j < |xs| ==> xs[i] != xs[j]
  }

  lemma LastIsNew(xs: seq<nat>, x: nat)
    requires xs != [] && Distinct(xs)
    ensures Distinct(xs[..|xs| - 1]) && xs[|xs| - 1] !in xs[..|xs| - 1]
    ensures x in xs <==> x in xs[..|xs| - 1] || x == xs[|xs| - 1]
  {
    assert xs == xs[..|xs| - 1] + [xs[|xs| - 1]];
  }

  lemma JobAdded(js: seq<Job>, x: Job, j: Job)
    ensures CountJobs(js + [x], j) == CountJobs(js, j) + if x == j then 1 else 0
  {
    assert (js + [x])[..|js|] == js;
  }

  lemma {:induction false} RecipientsAre(msgId: nat, members: seq<nat>, sender: nat, skip: set<nat>)
    ensures |Recipients(msgId, members, sender, skip)| <= |members|
    ensures forall j :: j in Recipients(msgId, members, sender, skip)
                        <==> j.msgId == msgId && j.to in members && j.to != sender && j.to !in skip
    decreases |members|
  {
    if members != [] {
      RecipientsAre(msgId, members[..|members| - 1], sender, skip);
      assert members == members[..|members| - 1] + [members[|members| - 1]];
    }
  }

  /** The entries a production appends are the jobs', untried and due at once. */
  lemma EntriesOf(q: Queue, jobs: seq<Job>)
    ensures var after := Enqueue(q, jobs).stream;
      && q.stream <= after && |after| == |q.stream| + |jobs|
      && forall e :: e in after[|q.stream|..] <==> e == Entry(e.job, 0, 0) && e.job in jobs
  {
    var added := Enqueue(q, jobs).stream[|q.stream|..];
    forall j | j in jobs ensures Entry(j, 0, 0) in added {
      var k :| 0 <= k < |jobs| && jobs[k] == j;
      assert added[k] == Entry(j, 0, 0);
    }
  }

  lemma {:induction false} RecipientsAreDistinct(msgId: nat, members: seq<nat>, sender: nat, skip: set<nat>, j: Job)
    requires Distinct(members)
    ensures CountJobs(Recipients(msgId, members, sender, skip), j)
         == if j.msgId == msgId && j.to in members && j.to != sender && j.to !in skip then 1 else 0
    decreases |members|
  {
    if members != [] {
      var front, m := members[..|members| - 1], members[|members| - 1];
      LastIsNew(members, j.to);
      RecipientsAreDistinct(msgId, front, sender, skip, j);
      JobAdded(Recipients(msgId, front, sender, skip), Job(msgId, m), j);
      assert m == sender || m in skip ==> Recipients(msgId, members, sender, skip) == Recipients(msgId, front, sender, skip);
    }
  }

  /** The jobs of event k are those of message `ids[k]`. */
  ghost predicate FromMessages(es: seq<Event>, ids: seq<nat>) {
    && |ids| == |es|
    && Distinct(ids)
    && forall k, j :: 0 <= k < |es| && es[k].Produce? ==> CountJobs(es[k].jobs, j) <= if j.msgId == ids[k] then 1 else 0
  }

  lemma {:induction false} ProducedByItsMessage(es: seq<Event>, ids: seq<nat>, j: Job)
    requires FromMessages(es, ids)
    ensures Produced(es, j) <= if j.msgId in ids then 1 else 0
    decreases |es|
  {
    if es != [] {
      var n := |es| - 1;
      assert Distinct(ids[..n]);
      ProducedByItsMessage(es[..n], ids[..n], j);
      assert ids == ids[..n] + [ids[n]];
      if j.msgId in ids[..n] {
        assert j.msgId != ids[n];
      }
    }
  }

  /** With fresh message ids and distinct thread members, no pair is ever produced twice. */
  lemma ApiProducesOnce(es: seq<Event>, ids: seq<nat>)
    requires FromMessages(es, ids)
    ensures ProducedOnce(es)
  {
    forall j ensures Produced(es, j) <= 1 {
      ProducedByItsMessage(es, ids, j);
    }
  }
}
