/** The matcher's stored functions and the worker as code over mutable tables,
    each proved against the statements of MatchTables. */
module MatchEngine {
  import opened Prelude
  import opened MatchTables

  class Database {
    var profiles: map<Id, Profile>
    var trips: map<Id, TripCard>
    var requests: map<Id, Request>
    var sessions: seq<Session>

    constructor (profiles: map<Id, Profile>, trips: map<Id, TripCard>)
      ensures Tables() == Db(profiles, trips, map[], [])
    {
      this.profiles, this.trips, this.requests, this.sessions := profiles, trips, map[], [];
    }

    function Tables(): Db
      reads this
    {
      Db(profiles, trips, requests, sessions)
    }

    method TryMatch(now: int, id: Id) returns (out: Option<Session>)
      modifies this`requests, this`sessions
      ensures Tried(old(Tables()), now, id, Tables(), out)
      ensures MatchTables.TryMatch(old(Tables()), now, id, Tables(), out)
    {
      // expire stale waiting requests
      requests := map x | x in requests ::
        var r := requests[x];
        if r.status.Waiting? && r.expiresAt < now then r.(status := Expired(now)) else r;
      ghost var expired := ExpireStale(old(Tables()), now);
      assert Tables() == expired;

      // load A if it is still fresh
      if !Fresh(Tables(), now, id) {
        TryMeans(old(Tables()), now, id, Tables(), None);
        return None;
      }

      // find B
      var found := Candidates(Tables(), now, id);
      if found == {} {
        TryMeans(old(Tables()), now, id, Tables(), None);
        return None;
      }
      MostRecentExists(Tables(), found);
      var b :| b in found && forall c :: c in found ==> AtLeastAsRecent(Tables(), b, c);
      assert MostRecent(expired, b, found);

      var session := SessionOf(Tables(), id, b);
      sessions := sessions + [session];
      requests := requests[id := requests[id].(status := Matched(now))];
      requests := requests[b := requests[b].(status := Matched(now))];
      assert Tables() == Paired(expired, now, id, b);
      out := Some(session);
      TryMeans(old(Tables()), now, id, Tables(), out);
    }

    method StartMatch(now: int, profile: Id, trip: Id, prefs: Prefs, id: Id) returns (out: Option<Session>)
      requires id !in requests
      modifies this`requests, this`sessions
      ensures Started(old(Tables()), now, profile, trip, prefs, id, Tables(), out)
      ensures MatchTables.StartMatch(old(Tables()), now, profile, trip, prefs, id, Tables(), out)
    {
      hide Tried, MatchTables.TryMatch;
      // the insert's foreign keys; a failing statement rolls the whole call back
      if profile !in profiles || trip !in trips {
        return None;
      }
      var closed := CancelActiveMatchRequests(now, profile);
      requests := requests[id := Request(profile, trip, prefs, Waiting, now, now, now + LEASE)];
      out := TryMatch(now, id);
      StartMeans(old(Tables()), now, profile, trip, prefs, id, Tables(), out);
    }

    /** Returns the number of rows it closed. */
    method CancelActiveMatchRequests(now: int, profile: Id) returns (affected: nat)
      modifies this`requests
      ensures requests.Keys == old(requests).Keys
      ensures forall r :: r in requests ==>
        requests[r] == if old(requests)[r].status == Waiting && old(requests)[r].profile == profile
                       then old(requests)[r].(status := Cancelled(now)) else old(requests)[r]
      ensures Tables() == CloseProfile(old(Tables()), now, profile)
      ensures affected == |set id | id in old(requests) && old(requests)[id] != requests[id]|
    {
      var hit := set id | id in requests && requests[id].status.Waiting? && requests[id].profile == profile;
      affected := |hit|;
      requests := map id | id in requests :: if id in hit then requests[id].(status := Cancelled(now)) else requests[id];
      assert hit == set id | id in old(requests) && old(requests)[id] != requests[id];
    }

    method CancelMatch(now: int, id: Id)
      modifies this`requests
      // the request waits no longer; a closed one, and every other row, is as it was
      ensures requests.Keys == old(requests).Keys
      ensures forall r :: r in requests && (r != id || !old(requests)[r].status.Waiting?) ==> requests[r] == old(requests)[r]
      ensures id in requests ==> !Fresh(Tables(), now, id) && SameTerms(old(requests)[id], requests[id])
      ensures id in requests && old(requests)[id].status.Waiting? ==> requests[id].status == Cancelled(now)
      // cancelling keeps the table invariant and opens no compatible pair
      ensures Inv(old(Tables())) ==> Inv(Tables())
      ensures forall before, open :: before <= now && PairsWithin(old(Tables()), before, open) ==> PairsWithin(Tables(), now, open)
      ensures Tables() == CloseRequest(old(Tables()), now, id)
    {
      CancelKeeps(Tables(), now, id);
      if id in requests && requests[id].status.Waiting? {
        requests := requests[id := requests[id].(status := Cancelled(now))];
      }
    }

    /** Returns the touched row, or none when the request no longer waits or its lease has run out. */
    method TouchMatchRequest(now: int, id: Id, profile: Id) returns (row: Option<Request>)
      modifies this`requests
      ensures Tables() == Touch(old(Tables()), now, id, profile)
      ensures row.Some? <==> id in old(requests) && old(requests)[id].profile == profile && WaitsAt(old(requests)[id], now)
      ensures row.Some? ==>
        row.value == old(requests)[id].(lastSeen := now, expiresAt := now + 60_000_000) && requests == old(requests)[id := row.value]
      ensures row.None? ==> requests == old(requests)
    {
      if id in requests && requests[id].profile == profile && requests[id].status.Waiting? && requests[id].expiresAt >= now {
        requests := requests[id := requests[id].(lastSeen := now, expiresAt := now + LEASE)];
        row := Some(requests[id]);
      } else {
        row := None;
      }
    }

    /** The worker's scan: the `limit` most recent fresh requests, most recent first. */
    method FetchWaitingRequests(now: int, limit: nat) returns (ids: seq<Id>)
      ensures forall i :: 0 <= i < |ids| ==> ids[i] in requests && Fresh(Tables(), now, ids[i])
      ensures forall i, j :: 0 <= i < j < |ids| ==> ids[i] != ids[j] && AtLeastAsRecent(Tables(), ids[i], ids[j])
      ensures |ids| == Min(limit, |FreshIds(Tables(), now)|)
      ensures |FreshIds(Tables(), now)| <= limit ==> forall id :: Fresh(Tables(), now, id) ==> id in ids
      ensures forall id :: Fresh(Tables(), now, id) && id !in ids ==>
        forall i :: 0 <= i < |ids| ==> AtLeastAsRecent(Tables(), ids[i], id)
    {
      ids := [];
      var rest := FreshIds(Tables(), now);
      while |ids| < limit && rest != {}
        invariant |ids| <= limit
        invariant rest <= FreshIds(Tables(), now) && |ids| + |rest| == |FreshIds(Tables(), now)|
        invariant forall id :: Fresh(Tables(), now, id) <==> id in rest || id in ids
        invariant forall i :: 0 <= i < |ids| ==> ids[i] !in rest && ids[i] in requests
        invariant forall i, j :: 0 <= i < j < |ids| ==> ids[i] != ids[j] && AtLeastAsRecent(Tables(), ids[i], ids[j])
        invariant forall i, id :: 0 <= i < |ids| && id in rest ==> AtLeastAsRecent(Tables(), ids[i], id)
        decreases |rest|
      {
        MostRecentExists(Tables(), rest);
        var next :| next in rest && forall c :: c in rest ==> AtLeastAsRecent(Tables(), next, c);
        ids := ids + [next];
        rest := rest - {next};
      }
    }

    /** One pass of the worker: fetch a batch at `clock[0]`, then try each request
        in turn, the i-th at `clock[i + 1]`. When the batch holds every fresh
        request, no compatible fresh pair is left waiting. */
    method RunOnce(limit: nat, clock: seq<int>) returns (matched: nat)
      requires |clock| == limit + 1 && forall i, j :: 0 <= i <= j <= limit ==> clock[i] <= clock[j]
      modifies this`requests, this`sessions
      ensures |sessions| == |old(sessions)| + matched && old(sessions) <= sessions
      ensures |FreshIds(old(Tables()), clock[0])| <= limit ==> Maximal(Tables(), clock[limit])
    {
      var waiting := FetchWaitingRequests(clock[0], limit);
      ghost var open := FreshIds(Tables(), clock[0]);
      matched := 0;
      for k := 0 to |waiting|
        invariant PairsWithin(Tables(), clock[k], open)
        invariant forall id :: id in open ==> id in FreshIds(old(Tables()), clock[0]) && id !in waiting[..k]
        invariant |sessions| == |old(sessions)| + matched && old(sessions) <= sessions
      {
        ghost var before := Tables();
        var found := TryMatch(clock[k + 1], waiting[k]);
        StepKeepsPairsWithin(before, At(clock[k + 1], Try(waiting[k])), Tables(), clock[k], open);
        open := open - {waiting[k]};
        if found.Some? {
          matched := matched + 1;
        }
      }
      assert forall id :: id in open ==> Fresh(old(Tables()), clock[0], id);
      if |FreshIds(old(Tables()), clock[0])| <= limit {
        assert open == {};
        assert PairsWithin(Tables(), clock[|waiting|], {});
      }
    }
  }

  lemma CancelKeeps(d: Db, now: int, id: Id)
    ensures Inv(d) ==> Inv(CloseRequest(d, now, id))
    ensures forall before, open :: before <= now && PairsWithin(d, before, open) ==> PairsWithin(CloseRequest(d, now, id), now, open)
  {
    var d' := CloseRequest(d, now, id);
    var e := At(now, Cancel(id));
    assert Next(d, e, d');
    if Inv(d) {
      StepKeepsInv(d, e, d');
    }
    forall before, open | before <= now && PairsWithin(d, before, open) ensures PairsWithin(d', now, open) {
      StepKeepsPairsWithin(d, e, d', before, open);
    }
  }
}
