/** The traveller matcher: the tables behind `start_match`, `try_match`,
    `touch_match_request`, `cancel_match` and `cancel_active_match_requests`,
    each call being one transaction at one instant `now`. */
module MatchTables {
  import opened Prelude

  type Id = nat

  /** Sixty seconds, in the microseconds of a timestamptz. */
  const LEASE := 60_000_000

  /** A closed request remembers when it was closed. */
  datatype Status = Waiting | Matched(at: int) | Cancelled(at: int) | Expired(at: int)

  datatype Profile = Profile(gender: Option<string>, age: Option<int>)

  datatype TripRow = TripRow(city: string, start: int, end: int)

  /** daterange() raises an error on a reversed interval, so cards are ordered. */
  type TripCard = t: TripRow | t.start <= t.end witness TripRow("", 0, 0)

  datatype Prefs = Prefs(gender: Option<string>, ageMin: Option<int>, ageMax: Option<int>)

  datatype Request = Request(profile: Id, trip: Id, prefs: Prefs, status: Status,
                             createdAt: int, lastSeen: int, expiresAt: int)

  datatype Session = Session(profileA: Id, profileB: Id, requestA: Id, requestB: Id, tripA: Id, tripB: Id)

  datatype Db = Db(profiles: map<Id, Profile>, trips: map<Id, TripCard>,
                   requests: map<Id, Request>, sessions: seq<Session>)

  predicate Fresh(d: Db, now: int, id: Id) {
    id in d.requests && d.requests[id].status.Waiting? && d.requests[id].expiresAt >= now
  }

  function FreshIds(d: Db, now: int): set<Id> {
    set id | id in d.requests && Fresh(d, now, id)
  }

  /** The WHERE clause of one direction: a comparison with NULL does not hold,
      except for an unknown age, which is let through. */
  predicate Accepts(prefs: Prefs, p: Profile) {
    && (prefs.gender.None? || prefs.gender.value == "any" || (p.gender.Some? && prefs.gender.value == p.gender.value))
    && (prefs.ageMin.None? || p.age.None? || p.age.value >= prefs.ageMin.value)
    && (prefs.ageMax.None? || p.age.None? || p.age.value <= prefs.ageMax.value)
  }

  /** `daterange(a, '[]') && daterange(b, '[]')` on ordered cards. */
  predicate Overlap(s: TripCard, t: TripCard) {
    s.start <= t.end && t.start <= s.end
  }

  predicate OnDay(t: TripCard, day: int) {
    t.start <= day <= t.end
  }

  /** The range operator means what a traveller reads: some day lies in both trips. */
  lemma OverlapIsASharedDay(s: TripCard, t: TripCard)
    ensures Overlap(s, t) <==> exists day :: OnDay(s, day) && OnDay(t, day)
  {
    if Overlap(s, t) {
      var day := Max(s.start, t.start);
      assert OnDay(s, day) && OnDay(t, day);
    }
  }

  predicate Joined(d: Db, id: Id) {
    id in d.requests && d.requests[id].profile in d.profiles && d.requests[id].trip in d.trips
  }

  /** Candidate `b` of request `a`: the join and the WHERE clause of try_match. */
  predicate Compatible(d: Db, a: Id, b: Id) {
    && Joined(d, a) && Joined(d, b)
    && a != b
    && var ra, rb := d.requests[a], d.requests[b];
    && ra.profile != rb.profile
    && d.trips[ra.trip].city == d.trips[rb.trip].city
    && Overlap(d.trips[rb.trip], d.trips[ra.trip])
    && Accepts(ra.prefs, d.profiles[rb.profile])
    && Accepts(rb.prefs, d.profiles[ra.profile])
  }

  lemma CompatibleIsMutual(d: Db, a: Id, b: Id)
    ensures Compatible(d, a, b) <==> Compatible(d, b, a)
  {
  }

  function Candidates(d: Db, now: int, a: Id): set<Id> {
    set b | b in d.requests && Fresh(d, now, b) && Compatible(d, a, b)
  }

  /** ORDER BY last_seen_at DESC, created_at DESC. */
  predicate AtLeastAsRecent(d: Db, a: Id, b: Id)
    requires a in d.requests && b in d.requests
  {
    var ra, rb := d.requests[a], d.requests[b];
    ra.lastSeen > rb.lastSeen || (ra.lastSeen == rb.lastSeen && ra.createdAt >= rb.createdAt)
  }

  ghost predicate MostRecent(d: Db, a: Id, among: set<Id>)
    requires among <= d.requests.Keys
  {
    a in among && forall b :: b in among ==> AtLeastAsRecent(d, a, b)
  }

  lemma {:induction false} MostRecentExists(d: Db, among: set<Id>)
    requires among != {} && among <= d.requests.Keys
    ensures exists a :: MostRecent(d, a, among)
    decreases |among|
  {
    var x :| x in among;
    var rest := among - {x};
    if rest == {} {
      assert among == {x};
      assert MostRecent(d, x, among);
    } else {
      MostRecentExists(d, rest);
      var y :| MostRecent(d, y, rest);
      if AtLeastAsRecent(d, y, x) {
        assert MostRecent(d, y, among);
      } else {
        assert forall b :: b in among ==> b == x || b in rest;
        assert MostRecent(d, x, among);
      }
    }
  }

  // ---- the statements, as functions of the tables ----

  function ExpireStale(d: Db, now: int): Db {
    d.(requests := map id | id in d.requests ::
      var r := d.requests[id];
      if r.status.Waiting? && r.expiresAt < now then r.(status := Expired(now)) else r)
  }

  function CloseProfile(d: Db, now: int, profile: Id): Db {
    d.(requests := map id | id in d.requests ::
      var r := d.requests[id];
      if r.status.Waiting? && r.profile == profile then r.(status := Cancelled(now)) else r)
  }

  function CloseRequest(d: Db, now: int, id: Id): Db {
    if id in d.requests && d.requests[id].status.Waiting?
    then d.(requests := d.requests[id := d.requests[id].(status := Cancelled(now))])
    else d
  }

  predicate Touchable(d: Db, now: int, id: Id, profile: Id) {
    Fresh(d, now, id) && d.requests[id].profile == profile
  }

  function Touch(d: Db, now: int, id: Id, profile: Id): Db {
    if Touchable(d, now, id, profile)
    then d.(requests := d.requests[id := d.requests[id].(lastSeen := now, expiresAt := now + LEASE)])
    else d
  }

  function NewRequest(now: int, profile: Id, trip: Id, prefs: Prefs): Request {
    Request(profile, trip, prefs, Waiting, now, now, now + LEASE)
  }

  function SessionOf(d: Db, a: Id, b: Id): Session
    requires a in d.requests && b in d.requests
  {
    Session(d.requests[a].profile, d.requests[b].profile, a, b, d.requests[a].trip, d.requests[b].trip)
  }

  function Paired(d: Db, now: int, a: Id, b: Id): Db
    requires a in d.requests && b in d.requests
  {
    d.(requests := d.requests[a := d.requests[a].(status := Matched(now))]
                             [b := d.requests[b].(status := Matched(now))],
       sessions := d.sessions + [SessionOf(d, a, b)])
  }

  /** What one call of try_match may do; ties in the ORDER BY are free. */
  ghost predicate TryMatch(d: Db, now: int, id: Id, d': Db, out: Option<Session>) {
    var e := ExpireStale(d, now);
    var found := Candidates(e, now, id);
    if !Fresh(e, now, id) || found == {} then
      d' == e && out == None
    else
      exists b :: MostRecent(e, b, found) && d' == Paired(e, now, id, b) && out == Some(SessionOf(e, id, b))
  }

  /** start_match: `id` is the generated uuid. The foreign keys refuse an unknown profile or card. */
  ghost predicate StartMatch(d: Db, now: int, profile: Id, trip: Id, prefs: Prefs, id: Id, d': Db, out: Option<Session>) {
    if profile !in d.profiles || trip !in d.trips then
      d' == d && out == None
    else
      var c := CloseProfile(d, now, profile);
      TryMatch(c.(requests := c.requests[id := NewRequest(now, profile, trip, prefs)]), now, id, d', out)
  }

  // ---- whom a match may join, row by row ----

  /** The other traveller is one this request asked for: of the wished gender unless there is
      no wish or it is "any", and, as far as the age is known, not too young and not too old. */
  predicate Suits(wish: Prefs, other: Profile) {
    && (wish.gender == None || wish.gender == Some("any") || wish.gender == other.gender)
    && (other.age.Some? && wish.ageMin.Some? ==> wish.ageMin.value <= other.age.value)
    && (other.age.Some? && wish.ageMax.Some? ==> other.age.value <= wish.ageMax.value)
  }

  /** Two requests of different travellers to one city, with a day in common, each asking for
      someone like the other. */
  ghost predicate MayMeet(d: Db, a: Id, b: Id) {
    && Joined(d, a) && Joined(d, b)
    && var ra, rb := d.requests[a], d.requests[b];
    var pa, pb, ta, tb := d.profiles[ra.profile], d.profiles[rb.profile], d.trips[ra.trip], d.trips[rb.trip];
    && ra.profile != rb.profile
    && ta.city == tb.city && (exists day :: OnDay(ta, day) && OnDay(tb, day))
    && Suits(ra.prefs, pb) && Suits(rb.prefs, pa)
  }

  predicate WaitsAt(r: Request, now: int) {
    r.status == Waiting && now <= r.expiresAt
  }

  lemma CandidatesMayMeet(d: Db, now: int, a: Id, b: Id)
    ensures b in Candidates(d, now, a) <==> MayMeet(d, a, b) && WaitsAt(d.requests[b], now)
  {
    if Joined(d, a) && Joined(d, b) {
      OverlapIsASharedDay(d.trips[d.requests[b].trip], d.trips[d.requests[a].trip]);
    }
  }

  /** A row after a try at `now`: matched if the session names it, expired if its lease ran
      out, else as it was. */
  predicate RowTried(r: Request, r': Request, now: int, named: bool) {
    r' == if named then r.(status := Matched(now))
          else if r.status == Waiting && r.expiresAt < now then r.(status := Expired(now)) else r
  }

  /** Seen earlier, or at the same time and not created later. */
  predicate SeenNoLater(r: Request, s: Request) {
    r.lastSeen < s.lastSeen || (r.lastSeen == s.lastSeen && r.createdAt <= s.createdAt)
  }

  /** What a try does, over the rows: a session joins the request with one it may meet, both
      still waiting; without one, no request that waits could have been joined. Every row
      ends as its lease and the session say, and nothing else changes. */
  ghost predicate Tried(d: Db, now: int, id: Id, d': Db, out: Option<Session>) {
    && d'.profiles == d.profiles && d'.trips == d.trips && d'.requests.Keys == d.requests.Keys
    && (forall r :: r in d.requests ==>
          RowTried(d.requests[r], d'.requests[r], now, out.Some? && (r == id || r == out.value.requestB)))
    && (out.Some? ==>
          var b := out.value.requestB;
          && MayMeet(d, id, b) && WaitsAt(d.requests[id], now) && WaitsAt(d.requests[b], now)
          && (forall c :: MayMeet(d, id, c) && WaitsAt(d.requests[c], now) ==> SeenNoLater(d.requests[c], d.requests[b]))
          && out.value == Session(d.requests[id].profile, d.requests[b].profile, id, b, d.requests[id].trip, d.requests[b].trip)
          && d'.sessions == d.sessions + [out.value])
    && (out.None? ==>
          && d'.sessions == d.sessions
          && (id in d.requests && WaitsAt(d.requests[id], now) ==>
                forall b :: MayMeet(d, id, b) ==> !WaitsAt(d.requests[b], now)))
  }

  lemma ExpiryKeepsMeetings(d: Db, now: int, a: Id, b: Id)
    ensures MayMeet(ExpireStale(d, now), a, b) <==> MayMeet(d, a, b)
  {
  }

  lemma FoundAre(d: Db, now: int, id: Id, b: Id)
    ensures b in Candidates(ExpireStale(d, now), now, id) <==> MayMeet(d, id, b) && WaitsAt(d.requests[b], now)
  {
    CandidatesMayMeet(ExpireStale(d, now), now, id, b);
    ExpiryKeepsMeetings(d, now, id, b);
    hide Candidates, Suits;
  }

  lemma MatchedMeans(d: Db, now: int, id: Id, b: Id)
    requires Fresh(ExpireStale(d, now), now, id) && MostRecent(ExpireStale(d, now), b, Candidates(ExpireStale(d, now), now, id))
    requires b in d.requests
    ensures Tried(d, now, id, Paired(ExpireStale(d, now), now, id, b), Some(SessionOf(ExpireStale(d, now), id, b)))
  {
    var e := ExpireStale(d, now);
    FoundAre(d, now, id, b);
    forall c | MayMeet(d, id, c) && WaitsAt(d.requests[c], now) ensures SeenNoLater(d.requests[c], d.requests[b]) {
      FoundAre(d, now, id, c);
      assert AtLeastAsRecent(e, b, c);
    }
    hide MayMeet, Candidates, Compatible, MostRecent;
  }

  lemma UnmatchedMeans(d: Db, now: int, id: Id)
    requires !Fresh(ExpireStale(d, now), now, id) || Candidates(ExpireStale(d, now), now, id) == {}
    ensures Tried(d, now, id, ExpireStale(d, now), None)
  {
    forall b | MayMeet(d, id, b) && WaitsAt(d.requests[b], now) ensures Candidates(ExpireStale(d, now), now, id) != {} {
      FoundAre(d, now, id, b);
    }
    hide MayMeet, Candidates, Compatible;
  }

  lemma TryMeans(d: Db, now: int, id: Id, d': Db, out: Option<Session>)
    requires TryMatch(d, now, id, d', out)
    ensures Tried(d, now, id, d', out)
  {
    hide Tried, ExpireStale, Compatible;
    var e := ExpireStale(d, now);
    var found := Candidates(e, now, id);
    if Fresh(e, now, id) && found != {} {
      var b :| MostRecent(e, b, found) && d' == Paired(e, now, id, b) && out == Some(SessionOf(e, id, b));
      ExpiryKeepsRows(d, now);
      MatchedMeans(d, now, id, b);
    } else {
      UnmatchedMeans(d, now, id);
    }
  }

  lemma ExpiryKeepsRows(d: Db, now: int)
    ensures ExpireStale(d, now).requests.Keys == d.requests.Keys
  {
  }

  /** What start_match does before it tries: the profile's waiting requests are cancelled, and
      one new request waits, as asked, seen now and leased for sixty seconds. */
  ghost predicate Restarted(d: Db, now: int, profile: Id, trip: Id, prefs: Prefs, id: Id, c: Db) {
    && c.profiles == d.profiles && c.trips == d.trips && c.sessions == d.sessions
    && c.requests.Keys == d.requests.Keys + {id}
    && c.requests[id] == Request(profile, trip, prefs, Waiting, now, now, now + 60_000_000)
    && ClosedFor(d, now, profile, c, id)
  }

  /** Every row but `id`: cancelled at `now` if it waited for the profile, else as it was. */
  ghost predicate ClosedFor(d: Db, now: int, profile: Id, c: Db, id: Id) {
    forall r :: r in d.requests && r != id ==>
      r in c.requests
      && c.requests[r] == if d.requests[r].status == Waiting && d.requests[r].profile == profile
                          then d.requests[r].(status := Cancelled(now)) else d.requests[r]
  }

  ghost predicate Started(d: Db, now: int, profile: Id, trip: Id, prefs: Prefs, id: Id, d': Db, out: Option<Session>) {
    if profile in d.profiles && trip in d.trips
    then exists c :: Restarted(d, now, profile, trip, prefs, id, c) && Tried(c, now, id, d', out)
    else d' == d && out == None
  }

  lemma InsertRestarts(d: Db, now: int, profile: Id, trip: Id, prefs: Prefs, id: Id)
    requires id !in d.requests
    ensures var e := CloseProfile(d, now, profile);
      Restarted(d, now, profile, trip, prefs, id, e.(requests := e.requests[id := NewRequest(now, profile, trip, prefs)]))
  {
  }

  lemma StartMeans(d: Db, now: int, profile: Id, trip: Id, prefs: Prefs, id: Id, d': Db, out: Option<Session>)
    requires id !in d.requests && StartMatch(d, now, profile, trip, prefs, id, d', out)
    ensures Started(d, now, profile, trip, prefs, id, d', out)
  {
    hide TryMatch, Tried, Restarted;
    if profile in d.profiles && trip in d.trips {
      var e := CloseProfile(d, now, profile);
      var c := e.(requests := e.requests[id := NewRequest(now, profile, trip, prefs)]);
      TryMeans(c, now, id, d', out);
      InsertRestarts(d, now, profile, trip, prefs, id);
    }
  }

  // ---- runs ----

  datatype Event =
    | Start(profile: Id, trip: Id, prefs: Prefs, id: Id)
    | Try(id: Id)
    | Heartbeat(id: Id, profile: Id)
    | Cancel(id: Id)
    | CancelActive(profile: Id)
    | Edit(profiles: map<Id, Profile>, trips: map<Id, TripCard>)

  datatype Timed = At(now: int, ev: Event)

  /** One transaction. Edit stands for the profile and trip-card writers, which
      may change rows but leave no dangling reference. */
  ghost predicate Next(d: Db, e: Timed, d': Db) {
    match e.ev
    case Start(profile, trip, prefs, id) =>
      id !in d.requests && exists out :: StartMatch(d, e.now, profile, trip, prefs, id, d', out)
    case Try(id) => exists out :: TryMatch(d, e.now, id, d', out)
    case Heartbeat(id, profile) => d' == Touch(d, e.now, id, profile)
    case Cancel(id) => d' == CloseRequest(d, e.now, id)
    case CancelActive(profile) => d' == CloseProfile(d, e.now, profile)
    case Edit(profiles, trips) =>
      d.profiles.Keys <= profiles.Keys && d.trips.Keys <= trips.Keys && d' == d.(profiles := profiles, trips := trips)
  }

  /** `ds` are the table states before, between and after the transactions `es`,
      the first of which happens no earlier than `from`. */
  ghost predicate Run(ds: seq<Db>, es: seq<Timed>, from: int) {
    && |ds| == |es| + 1
    && (forall i :: 0 <= i < |es| ==> Next(ds[i], es[i], ds[i + 1]))
    && (forall i :: 0 <= i < |es| ==> from <= es[i].now)
    && (forall i, j :: 0 <= i <= j < |es| ==> es[i].now <= es[j].now)
  }

  function EndTime(es: seq<Timed>, from: int): int {
    if es == [] then from else es[|es| - 1].now
  }

  lemma RunPrefix(ds: seq<Db>, es: seq<Timed>, from: int)
    requires Run(ds, es, from) && |es| > 0
    ensures Run(ds[..|es|], es[..|es| - 1], from)
    ensures EndTime(es[..|es| - 1], from) <= EndTime(es, from)
    ensures Next(ds[|es| - 1], es[|es| - 1], ds[|es|])
  {
  }

  ghost predicate NoEdits(es: seq<Timed>) {
    forall i :: 0 <= i < |es| ==> !es[i].ev.Edit?
  }

  // ---- maximality ----

  /** Every compatible fresh pair has both its requests in `open`. */
  ghost predicate PairsWithin(d: Db, now: int, open: set<Id>) {
    forall a, b :: Compatible(d, a, b) && Fresh(d, now, a) && Fresh(d, now, b) ==> a in open && b in open
  }

  /** No two fresh waiting requests could have been matched with each other. */
  ghost predicate Maximal(d: Db, now: int) {
    forall a, b :: Fresh(d, now, a) && Fresh(d, now, b) ==> !Compatible(d, a, b)
  }

  /** Every compatible fresh pair is inside `open` or contains `id`. */
  ghost predicate PairsWithinOr(d: Db, now: int, open: set<Id>, id: Id) {
    forall a, b :: Compatible(d, a, b) && Fresh(d, now, a) && Fresh(d, now, b) ==>
      a == id || b == id || (a in open && b in open)
  }

  /** A try on `id` settles every pair `id` belongs to. */
  lemma TrySettles(d: Db, now: int, id: Id, d': Db, out: Option<Session>, open: set<Id>)
    requires TryMatch(d, now, id, d', out) && PairsWithinOr(d, now, open, id)
    ensures PairsWithin(d', now, open - {id})
  {
    var e := ExpireStale(d, now);
    var found := Candidates(e, now, id);
    forall a, b | Compatible(d', a, b) && Fresh(d', now, a) && Fresh(d', now, b)
      ensures a in open - {id} && b in open - {id}
    {
      assert Compatible(d, a, b) && Fresh(d, now, a) && Fresh(d, now, b);
      assert Compatible(e, a, b) && Fresh(e, now, a) && Fresh(e, now, b);
      CompatibleIsMutual(e, a, b);
      if Fresh(e, now, id) && found == {} {
        assert a == id ==> b in found;
        assert b == id ==> a in found;
      }
    }
  }

  /** start_match inserts one request into tables that otherwise only lost fresh ones. */
  lemma InsertOpensOnlyItsOwnPairs(d: Db, before: int, now: int, profile: Id, trip: Id, prefs: Prefs, id: Id, open: set<Id>)
    requires before <= now && PairsWithin(d, before, open)
    ensures var c := CloseProfile(d, now, profile);
      PairsWithinOr(c.(requests := c.requests[id := NewRequest(now, profile, trip, prefs)]), now, open, id)
  {
    var c := CloseProfile(d, now, profile);
    var c' := c.(requests := c.requests[id := NewRequest(now, profile, trip, prefs)]);
    forall a, b | Compatible(c', a, b) && Fresh(c', now, a) && Fresh(c', now, b) && a != id && b != id
      ensures a in open && b in open
    {
      assert Compatible(d, a, b) && Fresh(d, before, a) && Fresh(d, before, b);
    }
  }

  /** One transaction: the set of requests that may still be in an unmatched
      pair never grows, and a try removes its request. This is maximality and
      the worker sweep in one step. */
  lemma StepKeepsPairsWithin(d: Db, e: Timed, d': Db, before: int, open: set<Id>)
    requires Next(d, e, d') && !e.ev.Edit? && before <= e.now
    requires PairsWithin(d, before, open)
    ensures PairsWithin(d', e.now, if e.ev.Try? then open - {e.ev.id} else open)
  {
    match e.ev
    case Start(profile, trip, prefs, id) =>
      var out :| StartMatch(d, e.now, profile, trip, prefs, id, d', out);
      if profile in d.profiles && trip in d.trips {
        var c := CloseProfile(d, e.now, profile);
        var c' := c.(requests := c.requests[id := NewRequest(e.now, profile, trip, prefs)]);
        InsertOpensOnlyItsOwnPairs(d, before, e.now, profile, trip, prefs, id, open);
        TrySettles(c', e.now, id, d', out, open);
      } else {
        FreshShrinks(d, d', before, e.now, open);
      }
    case Try(id) =>
      TryKeepsPairsWithin(d, e.now, id, d', before, open);
    case _ =>
      FreshShrinks(d, d', before, e.now, open);
  }

  lemma TryKeepsPairsWithin(d: Db, now: int, id: Id, d': Db, before: int, open: set<Id>)
    requires (exists out :: TryMatch(d, now, id, d', out)) && before <= now && PairsWithin(d, before, open)
    ensures PairsWithin(d', now, open - {id})
  {
    var out :| TryMatch(d, now, id, d', out);
    hide TryMatch, Compatible;
    TrySettles(d, now, id, d', out, open);
  }

  /** What a request asks for. */
  predicate SameTerms(r: Request, r': Request) {
    r.profile == r'.profile && r.trip == r'.trip && r.prefs == r'.prefs
  }

  /** A transaction that adds no fresh request and leaves what requests ask for alone opens no pair. */
  lemma FreshShrinks(d: Db, d': Db, before: int, now: int, open: set<Id>)
    requires before <= now && PairsWithin(d, before, open)
    requires d'.profiles == d.profiles && d'.trips == d.trips
    requires forall id :: Fresh(d', now, id) ==> Fresh(d, before, id)
    requires forall id :: id in d'.requests ==> id in d.requests && SameTerms(d.requests[id], d'.requests[id])
    ensures PairsWithin(d', now, open)
  {
    forall a, b | Compatible(d', a, b) && Fresh(d', now, a) && Fresh(d', now, b)
      ensures a in open && b in open
    {
      assert Compatible(d, a, b);
    }
  }

  /** The requests of `open` that the run did not try. */
  function Untried(open: set<Id>, es: seq<Timed>): set<Id> {
    if es == [] then open
    else
      var last := es[|es| - 1].ev;
      var rest := Untried(open, es[..|es| - 1]);
      if last.Try? then rest - {last.id} else rest
  }

  lemma {:induction false} UntriedMeaning(open: set<Id>, es: seq<Timed>, id: Id)
    ensures id in Untried(open, es) <==> id in open && forall i :: 0 <= i < |es| ==> es[i].ev != Try(id)
    decreases |es|
  {
    if es != [] {
      UntriedMeaning(open, es[..|es| - 1], id);
    }
  }

  lemma {:induction false} RunKeepsPairsWithin(ds: seq<Db>, es: seq<Timed>, from: int, open: set<Id>)
    requires Run(ds, es, from) && NoEdits(es) && PairsWithin(ds[0], from, open)
    ensures PairsWithin(ds[|es|], EndTime(es, from), Untried(open, es))
    decreases |es|
  {
    if es != [] {
      RunPrefix(ds, es, from);
      var k := |es| - 1;
      RunKeepsPairsWithin(ds[..|es|], es[..k], from, open);
      StepKeepsPairsWithin(ds[k], es[k], ds[|es|], EndTime(es[..k], from), Untried(open, es[..k]));
    }
  }

  /** Maximality: with profiles and cards fixed, in every state of every run, and
      at every instant since its last transaction, no compatible fresh pair is
      left waiting, if none was at the start. */
  lemma MaximalityIsKept(ds: seq<Db>, es: seq<Timed>, from: int, now: int)
    requires Run(ds, es, from) && NoEdits(es) && Maximal(ds[0], from)
    requires EndTime(es, from) <= now
    ensures Maximal(ds[|es|], now)
  {
    RunKeepsPairsWithin(ds, es, from, {});
    forall id ensures id !in Untried({}, es) {
      UntriedMeaning({}, es, id);
    }
    assert PairsWithin(ds[|es|], EndTime(es, from), {});
  }

  /** The sweep: from any tables, a run in which every request that was fresh at
      the start gets tried ends maximal, whatever calls of start_match, heartbeats,
      cancellations and further tries happen in between. */
  lemma SweepRestoresMaximality(ds: seq<Db>, es: seq<Timed>, from: int)
    requires Run(ds, es, from) && NoEdits(es)
    requires forall id :: Fresh(ds[0], from, id) ==> exists i :: 0 <= i < |es| && es[i].ev == Try(id)
    ensures Maximal(ds[|es|], EndTime(es, from))
  {
    var open := FreshIds(ds[0], from);
    RunKeepsPairsWithin(ds, es, from, open);
    forall id ensures id !in Untried(open, es) {
      UntriedMeaning(open, es, id);
    }
    assert PairsWithin(ds[|es|], EndTime(es, from), {});
  }

  // ---- single use of a request ----

  predicate Uses(s: Session, id: Id) {
    s.requestA == id || s.requestB == id
  }

  /** A session names two different requests of two different profiles. */
  ghost predicate GoodSession(d: Db, s: Session) {
    && s.requestA in d.requests && s.requestB in d.requests
    && s.requestA != s.requestB
    && s.profileA == d.requests[s.requestA].profile && s.profileB == d.requests[s.requestB].profile
    && s.tripA == d.requests[s.requestA].trip && s.tripB == d.requests[s.requestB].trip
    && s.profileA != s.profileB
  }

  ghost predicate UsedBy(d: Db, i: nat, id: Id) {
    i < |d.sessions| && Uses(d.sessions[i], id)
  }

  predicate BothWaitForOne(r: Request, s: Request) {
    r.status.Waiting? && s.status.Waiting? && r.profile == s.profile
  }

  ghost predicate Inv(d: Db) {
    // foreign keys
    && (forall id :: id in d.requests ==> Joined(d, id))
    // match_requests_one_waiting_per_profile
    && (forall a, b :: a in d.requests && b in d.requests && BothWaitForOne(d.requests[a], d.requests[b]) ==> a == b)
    // a lease is sixty seconds from the last heartbeat
    && (forall id :: id in d.requests ==> d.requests[id].expiresAt == d.requests[id].lastSeen + LEASE)
    // sessions
    && (forall s :: s in d.sessions ==> GoodSession(d, s))
    && (forall i, j, id :: UsedBy(d, i, id) && UsedBy(d, j, id) ==> i == j)
    && (forall id :: id in d.requests ==> (d.requests[id].status.Matched? <==> exists i :: UsedBy(d, i, id)))
  }

  /** A statement that opens, closes or matches nothing keeps the invariant. */
  ghost predicate Quiet(d: Db, d': Db) {
    && d'.sessions == d.sessions
    && d.profiles.Keys <= d'.profiles.Keys && d.trips.Keys <= d'.trips.Keys
    && d'.requests.Keys == d.requests.Keys
    && forall id :: id in d.requests ==>
         var r, r' := d.requests[id], d'.requests[id];
         && r'.profile == r.profile && r'.trip == r.trip
         && (r'.expiresAt - r'.lastSeen == LEASE || r'.expiresAt - r'.lastSeen == r.expiresAt - r.lastSeen)
         && (r'.status.Waiting? ==> r.status.Waiting?)
         && (r'.status.Matched? <==> r.status.Matched?)
  }

  lemma QuietKeepsInv(d: Db, d': Db)
    requires Inv(d) && Quiet(d, d')
    ensures Inv(d')
  {
    assert forall i, x :: UsedBy(d', i, x) <==> UsedBy(d, i, x);
    forall s | s in d'.sessions ensures GoodSession(d', s) {
      assert GoodSession(d, s);
    }
  }

  lemma TryKeepsInv(d: Db, now: int, id: Id, d': Db, out: Option<Session>)
    requires Inv(d) && TryMatch(d, now, id, d', out)
    ensures Inv(d')
  {
    var e := ExpireStale(d, now);
    QuietKeepsInv(d, e);
    var found := Candidates(e, now, id);
    if Fresh(e, now, id) && found != {} {
      var b :| MostRecent(e, b, found) && d' == Paired(e, now, id, b) && out == Some(SessionOf(e, id, b));
      assert b in found;
      PairKeepsInv(e, now, id, b);
    }
  }

  lemma InsertKeepsInv(d: Db, now: int, profile: Id, trip: Id, prefs: Prefs, id: Id)
    requires Inv(d) && id !in d.requests && profile in d.profiles && trip in d.trips
    requires forall x :: x in d.requests && d.requests[x].profile == profile ==> !d.requests[x].status.Waiting?
    ensures Inv(d.(requests := d.requests[id := NewRequest(now, profile, trip, prefs)]))
  {
    var d' := d.(requests := d.requests[id := NewRequest(now, profile, trip, prefs)]);
    forall i: nat, x ensures UsedBy(d', i, x) <==> UsedBy(d, i, x) {
    }
    forall s | s in d'.sessions ensures GoodSession(d', s) && !Uses(s, id) {
      assert GoodSession(d, s);
    }
    forall i: nat ensures !UsedBy(d', i, id) {
      if i < |d'.sessions| {
        assert d'.sessions[i] in d'.sessions;
      }
    }
  }

  lemma PairKeepsInv(e: Db, now: int, a: Id, b: Id)
    requires Inv(e) && Compatible(e, a, b)
    requires e.requests[a].status.Waiting? && e.requests[b].status.Waiting?
    ensures Inv(Paired(e, now, a, b))
  {
    var p := Paired(e, now, a, b);
    var n := |e.sessions|;
    forall i: nat, x ensures UsedBy(p, i, x) <==> UsedBy(e, i, x) || (i == n && (x == a || x == b)) {
    }
    assert forall i :: !UsedBy(e, i, a) && !UsedBy(e, i, b);
    assert UsedBy(p, n, a) && UsedBy(p, n, b);
    forall s | s in p.sessions ensures GoodSession(p, s) {
      if s in e.sessions {
        assert GoodSession(e, s);
      }
    }
    forall x | x in p.requests ensures p.requests[x].status.Matched? <==> exists i :: UsedBy(p, i, x) {
      if x != a && x != b {
        assert forall i: nat :: UsedBy(p, i, x) <==> UsedBy(e, i, x);
      }
    }
  }

  /** start_match never meets the one-waiting-per-profile index: it has closed the profile's rows first. */
  lemma StartKeepsInv(d: Db, now: int, profile: Id, trip: Id, prefs: Prefs, id: Id, d': Db, out: Option<Session>)
    requires Inv(d) && id !in d.requests && StartMatch(d, now, profile, trip, prefs, id, d', out)
    ensures Inv(d')
  {
    if profile in d.profiles && trip in d.trips {
      var c := CloseProfile(d, now, profile);
      QuietKeepsInv(d, c);
      InsertKeepsInv(c, now, profile, trip, prefs, id);
      TryKeepsInv(c.(requests := c.requests[id := NewRequest(now, profile, trip, prefs)]), now, id, d', out);
    }
  }

  lemma OthersAreQuiet(d: Db, e: Timed, d': Db)
    requires Next(d, e, d') && !e.ev.Start? && !e.ev.Try?
    ensures Quiet(d, d')
  {
  }

  /** Every transaction, profile and card edits included, keeps the table invariant. */
  lemma StepKeepsInv(d: Db, e: Timed, d': Db)
    requires Inv(d) && Next(d, e, d')
    ensures Inv(d')
  {
    match e.ev
    case Start(profile, trip, prefs, id) =>
      var out :| StartMatch(d, e.now, profile, trip, prefs, id, d', out);
      StartKeepsInv(d, e.now, profile, trip, prefs, id, d', out);
    case Try(id) =>
      var out :| TryMatch(d, e.now, id, d', out);
      TryKeepsInv(d, e.now, id, d', out);
    case _ =>
      assert Quiet(d, d') by { OthersAreQuiet(d, e, d'); }
      QuietKeepsInv(d, d');
  }

  lemma {:induction false} RunKeepsInv(ds: seq<Db>, es: seq<Timed>, from: int)
    requires Run(ds, es, from) && Inv(ds[0])
    ensures Inv(ds[|es|])
    decreases |es|
  {
    if es != [] {
      RunPrefix(ds, es, from);
      hide Run, Next, Inv;
      RunKeepsInv(ds[..|es|], es[..|es| - 1], from);
      StepKeepsInv(ds[|es| - 1], es[|es| - 1], ds[|es|]);
    }
  }

  /** Single use, over every run from empty tables: no request is named twice by
      the sessions, counting both slots of both sessions, and a request is
      matched exactly when some session names it. */
  lemma RequestsAreUsedOnce(ds: seq<Db>, es: seq<Timed>, from: int)
    requires Run(ds, es, from) && ds[0].requests == map[] && ds[0].sessions == []
    ensures forall i, j, id :: UsedBy(ds[|es|], i, id) && UsedBy(ds[|es|], j, id) ==> i == j
    ensures forall s :: s in ds[|es|].sessions ==> s.requestA != s.requestB && s.profileA != s.profileB
    ensures forall id :: id in ds[|es|].requests ==>
      (ds[|es|].requests[id].status.Matched? <==> exists i :: UsedBy(ds[|es|], i, id))
  {
    RunKeepsInv(ds, es, from);
    assert forall s :: s in ds[|es|].sessions ==> GoodSession(ds[|es|], s);
  }

  ghost predicate NoneMoreRecent(d: Db, now: int, d': Db, s: Session)
    requires s.requestB in d.requests
  {
    forall c :: Fresh(d, now, c) && Compatible(d', s.requestA, c) ==> AtLeastAsRecent(d, s.requestB, c)
  }

  lemma TryTakesTheMostRecent(d: Db, now: int, id: Id, d': Db, out: Option<Session>)
    requires TryMatch(d, now, id, d', out) && out.Some?
    ensures out.value.requestB in d.requests && NoneMoreRecent(d, now, d', out.value)
  {
    var e := ExpireStale(d, now);
    var found := Candidates(e, now, id);
    var b :| MostRecent(e, b, found) && d' == Paired(e, now, id, b) && out == Some(SessionOf(e, id, b));
    forall c | Fresh(d, now, c) && Compatible(d', id, c) ensures AtLeastAsRecent(d, b, c) {
      assert Fresh(e, now, c) && Compatible(e, id, c);
      assert c in found;
      assert AtLeastAsRecent(e, b, c);
    }
  }

  /** start_match closes only rows of the profile itself, which are no candidates. */
  lemma StartTakesTheMostRecent(d: Db, now: int, profile: Id, trip: Id, prefs: Prefs, id: Id, d': Db, out: Option<Session>)
    requires id !in d.requests && profile in d.profiles && trip in d.trips
    requires StartMatch(d, now, profile, trip, prefs, id, d', out) && out.Some?
    ensures out.value.requestB in d.requests && NoneMoreRecent(d, now, d', out.value)
  {
    var c0 := CloseProfile(d, now, profile);
    var t := c0.(requests := c0.requests[id := NewRequest(now, profile, trip, prefs)]);
    TryTakesTheMostRecent(t, now, id, d', out);
    forall c | Fresh(d, now, c) && Compatible(d', out.value.requestA, c) ensures AtLeastAsRecent(d, out.value.requestB, c) {
      assert Fresh(t, now, c);
    }
  }

  lemma TryMakes(d: Db, now: int, id: Id, d': Db, out: Option<Session>)
    requires TryMatch(d, now, id, d', out) && out.Some?
    ensures MadeBy(d, At(now, Try(id)), d', out.value)
  {
    TryTakesTheMostRecent(d, now, id, d', out);
    hide NoneMoreRecent;
  }

  lemma StartMakes(d: Db, now: int, profile: Id, trip: Id, prefs: Prefs, id: Id, d': Db, out: Option<Session>)
    requires id !in d.requests && profile in d.profiles && trip in d.trips
    requires StartMatch(d, now, profile, trip, prefs, id, d', out) && out.Some?
    ensures MadeBy(d, At(now, Start(profile, trip, prefs, id)), d', out.value)
  {
    StartTakesTheMostRecent(d, now, profile, trip, prefs, id, d', out);
    hide NoneMoreRecent;
  }

  lemma NoMatchNoSession(d: Db, now: int, id: Id, d': Db)
    requires TryMatch(d, now, id, d', None)
    ensures d'.sessions == d.sessions
  {
  }

  /** The session the step appended joined two requests that were fresh and
      compatible in the tables the step worked on, and no candidate had been seen
      more recently than the one chosen. */
  ghost predicate MadeBy(d: Db, e: Timed, d': Db, s: Session) {
    && d'.sessions == d.sessions + [s]
    && Compatible(d', s.requestA, s.requestB)
    && d'.profiles == d.profiles && d'.trips == d.trips
    && (forall id :: Uses(s, id) && id in d.requests ==> Fresh(d, e.now, id))
    && s.requestB in d.requests && NoneMoreRecent(d, e.now, d', s)
    && (s.requestA in d.requests || (e.ev.Start? && e.ev.id == s.requestA))
  }

  lemma StepMakesAtMostOneSession(d: Db, e: Timed, d': Db)
    requires Next(d, e, d')
    ensures d'.sessions == d.sessions || exists s :: MadeBy(d, e, d', s)
  {
    match e.ev
    case Start(profile, trip, prefs, id) =>
      var out :| StartMatch(d, e.now, profile, trip, prefs, id, d', out);
      hide TryMatch, MadeBy;
      if profile in d.profiles && trip in d.trips {
        if out.Some? {
          StartMakes(d, e.now, profile, trip, prefs, id, d', out);
        } else {
          var c := CloseProfile(d, e.now, profile);
          NoMatchNoSession(c.(requests := c.requests[id := NewRequest(e.now, profile, trip, prefs)]), e.now, id, d');
        }
      }
    case Try(id) =>
      var out :| TryMatch(d, e.now, id, d', out);
      hide TryMatch, MadeBy;
      if out.Some? {
        TryMakes(d, e.now, id, d', out);
      } else {
        NoMatchNoSession(d, e.now, id, d');
      }
    case _ =>
  }

  lemma StepSessions(d: Db, e: Timed, d': Db)
    requires Next(d, e, d')
    ensures forall s :: MadeBy(d, e, d', s) ==> d'.sessions == d.sessions + [s]
  {
    hide Next;
  }

  /** Session i of the last state was there before the last transaction, or is the one it made. */
  lemma LastTransaction(ds: seq<Db>, es: seq<Timed>, from: int, i: nat)
    requires Run(ds, es, from) && es != [] && i < |ds[|es|].sessions|
    ensures |ds| == |es| + 1 && Run(ds[..|es|], es[..|es| - 1], from)
    ensures var d, d' := ds[|es| - 1], ds[|es|];
      if i < |d.sessions| then i < |d'.sessions| && d'.sessions[i] == d.sessions[i]
      else |d.sessions| == i && MadeBy(d, es[|es| - 1], d', d'.sessions[i])
  {
    hide Next, MadeBy;
    var n := |es| - 1;
    RunPrefix(ds, es, from);
    StepMakesAtMostOneSession(ds[n], es[n], ds[n + 1]);
    StepSessions(ds[n], es[n], ds[n + 1]);
  }

  /** Over every run, each session was made by one transaction (event k) out of two
      requests that were fresh and mutually compatible then. */
  lemma {:induction false} SessionsAreSound(ds: seq<Db>, es: seq<Timed>, from: int, i: nat) returns (k: nat)
    requires |ds| == |es| + 1 && Run(ds, es, from) && ds[0].sessions == [] && i < |ds[|es|].sessions|
    ensures k < |es| && |ds[k].sessions| == i && MadeBy(ds[k], es[k], ds[k + 1], ds[|es|].sessions[i])
    decreases |es|
  {
    hide Run, MadeBy;
    LastTransaction(ds, es, from, i);
    k := |es| - 1;
    if i < |ds[k].sessions| {
      k := SessionsAreSound(ds[..|es|], es[..k], from, i);
    }
  }

  // ---- leases ----

  /** How one row may move in a transaction at `now`; `beat` says that it was its owner's heartbeat. */
  predicate Moves(r: Request, r': Request, now: int, beat: bool) {
    && r'.profile == r.profile
    && (!r.status.Waiting? ==> r' == r)
    && (r.status.Waiting? && r'.status.Expired? ==> r.expiresAt < now)
    && (r'.status.Waiting? ==> r'.lastSeen == if beat && now <= r.expiresAt then now else r.lastSeen)
    && (r.expiresAt == r.lastSeen + LEASE ==> r'.expiresAt == r'.lastSeen + LEASE)
  }

  lemma TryMovesRow(d: Db, now: int, n: Id, d': Db, out: Option<Session>, id: Id)
    requires TryMatch(d, now, n, d', out) && id in d.requests
    ensures id in d'.requests && Moves(d.requests[id], d'.requests[id], now, false)
    ensures d.requests[id].status.Waiting? && d.requests[id].expiresAt < now ==> d'.requests[id].status == Expired(now)
  {
    var e := ExpireStale(d, now);
    var found := Candidates(e, now, n);
    if Fresh(e, now, n) && found != {} {
      var b :| MostRecent(e, b, found) && d' == Paired(e, now, n, b) && out == Some(SessionOf(e, n, b));
      assert b in found;
    }
  }

  /** Cancelled, expired and matched are never left and no row is dropped; a
      waiting row expires only when its lease has run out, and then any try expires it. */
  lemma StepMovesRow(d: Db, e: Timed, d': Db, id: Id)
    requires Next(d, e, d') && id in d.requests
    ensures id in d'.requests
    ensures Moves(d.requests[id], d'.requests[id], e.now, e.ev == Heartbeat(id, d.requests[id].profile))
    ensures e.ev.Try? && d.requests[id].status.Waiting? && d.requests[id].expiresAt < e.now
            ==> d'.requests[id].status == Expired(e.now)
  {
    match e.ev
    case Start(profile, trip, prefs, n) =>
      var out :| StartMatch(d, e.now, profile, trip, prefs, n, d', out);
      if profile in d.profiles && trip in d.trips {
        var c := CloseProfile(d, e.now, profile);
        TryMovesRow(c.(requests := c.requests[n := NewRequest(e.now, profile, trip, prefs)]), e.now, n, d', out, id);
      }
    case Try(n) =>
      var out :| TryMatch(d, e.now, n, d', out);
      TryMovesRow(d, e.now, n, d', out, id);
    case _ =>
  }

  lemma {:induction false} ClosedIsFinal(ds: seq<Db>, es: seq<Timed>, from: int, id: Id)
    requires Run(ds, es, from) && id in ds[0].requests && !ds[0].requests[id].status.Waiting?
    ensures id in ds[|es|].requests && ds[|es|].requests[id] == ds[0].requests[id]
    decreases |es|
  {
    if es != [] {
      RunPrefix(ds, es, from);
      ClosedIsFinal(ds[..|es|], es[..|es| - 1], from, id);
      StepMovesRow(ds[|es| - 1], es[|es| - 1], ds[|es|], id);
    }
  }

  /** When `id` was last touched by its owner, reading only the calls made. */
  function LastTouch(es: seq<Timed>, id: Id, owner: Id, first: int): int {
    if es == [] then first
    else if es[|es| - 1].ev == Heartbeat(id, owner) then es[|es| - 1].now
    else LastTouch(es[..|es| - 1], id, owner, first)
  }

  /** No transaction happens more than a lease after the latest touch before it. */
  ghost predicate KeptAlive(es: seq<Timed>, id: Id, owner: Id, first: int) {
    forall k :: 0 <= k < |es| ==> es[k].now <= LastTouch(es[..k], id, owner, first) + LEASE
  }

  lemma KeptAlivePrefix(es: seq<Timed>, id: Id, owner: Id, first: int)
    requires es != [] && KeptAlive(es, id, owner, first)
    ensures KeptAlive(es[..|es| - 1], id, owner, first)
    ensures es[|es| - 1].now <= LastTouch(es[..|es| - 1], id, owner, first) + LEASE
  {
    var front := es[..|es| - 1];
    forall j | 0 <= j < |front| ensures front[j].now <= LastTouch(front[..j], id, owner, first) + LEASE {
      assert front[..j] == es[..j];
    }
  }

  /** Lease safety: a waiting request whose heartbeats are never more than sixty
      seconds apart is never expired, and while it waits its row shows the latest heartbeat. */
  lemma {:induction false} HeartbeatsPreventExpiry(ds: seq<Db>, es: seq<Timed>, from: int, id: Id, r0: Request)
    requires Run(ds, es, from) && id in ds[0].requests && ds[0].requests[id] == r0
    requires r0.status.Waiting? && r0.expiresAt == r0.lastSeen + LEASE
    requires KeptAlive(es, id, r0.profile, r0.lastSeen)
    ensures id in ds[|es|].requests
    ensures var r := ds[|es|].requests[id];
      && !r.status.Expired? && r.profile == r0.profile && r.expiresAt == r.lastSeen + LEASE
      && (r.status.Waiting? ==> r.lastSeen == LastTouch(es, id, r0.profile, r0.lastSeen))
    decreases |es|
  {
    if es != [] {
      var k := |es| - 1;
      RunPrefix(ds, es, from);
      KeptAlivePrefix(es, id, r0.profile, r0.lastSeen);
      hide Run, Next, KeptAlive;
      HeartbeatsPreventExpiry(ds[..|es|], es[..k], from, id, r0);
      StepMovesRow(ds[k], es[k], ds[|es|], id);
    }
  }
}
