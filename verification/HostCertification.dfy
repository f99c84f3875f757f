/** Host certification: the writers of the table, the approval gate, and the
    sixty-second cache in front of it. A gate check that misses the cache reads
    the table in one step and writes the cache in a later one, so anything may
    happen in between. */
module HostCertification {
  import opened Prelude

  type User = string

  datatype CertStatus = Draft | Submitted | Reviewing | Approved | Rejected

  datatype Doc = Doc(assetId: string, objectKey: string, docType: string)

  datatype Cert = Cert(status: CertStatus, docs: seq<Doc>, rejectReason: Option<string>)

  datatype Asset = Asset(objectKey: string, owner: User, scope: string, visibility: string, status: string)

  /** What the gate reads: the row's status, or none without a row. */
  type Reading = Option<CertStatus>

  datatype CacheEntry = CacheEntry(reading: Reading, expiresAt: int)

  /** `checks` are the gate checks between their query and their cache write. */
  datatype World = World(certs: map<User, Cert>, assets: map<string, Asset>,
                         cache: map<User, CacheEntry>, checks: map<nat, (User, Reading)>)

  const CACHE_TTL_MS := 60_000

  datatype Reply = Ok | NotFound | InvalidStatus | InvalidRequest | MissingDocuments | InvalidDocument | ForbiddenDocument

  // ---- documents ----

  function CheckDoc(assets: map<string, Asset>, user: User, d: Doc): Reply {
    if d.assetId !in assets then InvalidDocument
    else
      var a := assets[d.assetId];
      if a.owner != user then ForbiddenDocument
      else if a.scope != "kyc" || a.visibility != "private" then InvalidDocument
      else if a.status != "" && a.status != "active" then InvalidDocument
      else if a.objectKey != "" && a.objectKey != d.objectKey then InvalidDocument
      else Ok
  }

  function CheckDocs(assets: map<string, Asset>, user: User, docs: seq<Doc>): Reply {
    if docs == [] then Ok
    else if CheckDoc(assets, user, docs[0]) != Ok then CheckDoc(assets, user, docs[0])
    else CheckDocs(assets, user, docs[1..])
  }

  predicate HasLicense(docs: seq<Doc>) {
    exists d :: d in docs && d.docType == "license"
  }

  function ValidateDocuments(assets: map<string, Asset>, user: User, docs: seq<Doc>): Reply {
    if docs == [] || !HasLicense(docs) then MissingDocuments else CheckDocs(assets, user, docs)
  }

  /** The document's asset is stored, the user's own, private to the check, active, and under the
      document's key if it has one. */
  predicate Acceptable(assets: map<string, Asset>, user: User, d: Doc) {
    && d.assetId in assets
    && var a := assets[d.assetId];
    && a.owner == user && a.scope == "kyc" && a.visibility == "private"
    && (a.status == "" || a.status == "active") && (a.objectKey == "" || a.objectKey == d.objectKey)
  }

  /** The document's asset is stored and another user's. */
  predicate Foreign(assets: map<string, Asset>, user: User, d: Doc) {
    d.assetId in assets && assets[d.assetId].owner != user
  }

  /** The first document that is not acceptable, if any. */
  function FirstBad(assets: map<string, Asset>, user: User, docs: seq<Doc>): (r: Option<nat>)
    ensures r.Some? ==> r.value < |docs| && !Acceptable(assets, user, docs[r.value])
                        && forall i :: 0 <= i < r.value ==> Acceptable(assets, user, docs[i])
    ensures r.None? ==> forall d :: d in docs ==> Acceptable(assets, user, d)
  {
    if docs == [] then None
    else if !Acceptable(assets, user, docs[0]) then Some(0)
    else
      var r := FirstBad(assets, user, docs[1..]);
      if r.None? then None else Some(r.value + 1)
  }

  lemma {:induction false} DocsFailFirst(assets: map<string, Asset>, user: User, docs: seq<Doc>)
    ensures var bad := FirstBad(assets, user, docs);
      CheckDocs(assets, user, docs)
      == if bad.None? then Ok else if Foreign(assets, user, docs[bad.value]) then ForbiddenDocument else InvalidDocument
  {
    if docs != [] {
      DocsFailFirst(assets, user, docs[1..]);
    }
  }

  /** What a document list must be: it holds a license, and every document is acceptable; the
      answer to any other list says which of the two fails and, by the first document that is
      not acceptable, whether it is another user's. */
  predicate Verdicts(assets: map<string, Asset>, user: User, docs: seq<Doc>, reply: Reply) {
    && (reply == Ok <==> (exists d :: d in docs && d.docType == "license") && forall d :: d in docs ==> Acceptable(assets, user, d))
    && (reply == MissingDocuments <==> forall d :: d in docs ==> d.docType != "license")
    && (reply == ForbiddenDocument ==> exists i :: 0 <= i < |docs| && Foreign(assets, user, docs[i]) && AllBefore(assets, user, docs, i))
    && (reply == InvalidDocument ==> exists i :: 0 <= i < |docs| && !Acceptable(assets, user, docs[i])
                                                 && !Foreign(assets, user, docs[i]) && AllBefore(assets, user, docs, i))
    && reply in {Ok, MissingDocuments, ForbiddenDocument, InvalidDocument}
  }

  predicate AllBefore(assets: map<string, Asset>, user: User, docs: seq<Doc>, i: int)
    requires 0 <= i < |docs|
  {
    forall j :: 0 <= j < i ==> Acceptable(assets, user, docs[j])
  }

  lemma DocumentsMean(assets: map<string, Asset>, user: User, docs: seq<Doc>)
    ensures Verdicts(assets, user, docs, ValidateDocuments(assets, user, docs))
  {
    DocsFailFirst(assets, user, docs);
    hide CheckDocs, Acceptable, Foreign;
    ForeignIsBad(assets, user, docs);
    var bad := FirstBad(assets, user, docs);
    if bad.Some? {
      assert AllBefore(assets, user, docs, bad.value);
      assert docs[bad.value] in docs;
    }
    hide FirstBad;
  }

  lemma ForeignIsBad(assets: map<string, Asset>, user: User, docs: seq<Doc>)
    ensures forall d :: d in docs && Foreign(assets, user, d) ==> !Acceptable(assets, user, d)
  {
  }

  // ---- writers ----

  predicate Editable(status: CertStatus, autoApprove: bool) {
    status == Draft || status == Rejected || (autoApprove && status == Submitted)
  }

  predicate Pending(status: CertStatus) {
    status == Submitted || status == Reviewing
  }

  function SaveDraft(w: World, user: User, docs: Option<seq<Doc>>, autoApprove: bool): (r: (World, Reply))
    ensures r.0 == w.(certs := r.0.certs)
    ensures forall u :: ReadingOf(w, u) == Some(Approved) ==> ReadingOf(r.0, u) == Some(Approved)
  {
    if user !in w.certs then
      (w.(certs := w.certs[user := Cert(Draft, if docs.Some? then docs.value else [], None)]), Ok)
    else if !Editable(w.certs[user].status, autoApprove) then (w, InvalidStatus)
    else (w.(certs := w.certs[user := Cert(Draft, if docs.Some? then docs.value else w.certs[user].docs, None)]), Ok)
  }

  function Submit(w: World, user: User, autoApprove: bool): (r: (World, Reply))
    ensures r.0 == w.(certs := r.0.certs)
    ensures forall u :: ReadingOf(w, u) == Some(Approved) ==> ReadingOf(r.0, u) == Some(Approved)
  {
    if user !in w.certs then (w, NotFound)
    else if !Editable(w.certs[user].status, autoApprove) then (w, InvalidStatus)
    else
      var verdict := ValidateDocuments(w.assets, user, w.certs[user].docs);
      if verdict != Ok then (w, verdict)
      else (w.(certs := w.certs[user := Cert(if autoApprove then Approved else Submitted, w.certs[user].docs, None)]), Ok)
  }

  datatype Action = MarkReviewing | Approve | Reject(reason: string)

  function Review(w: World, user: User, action: Action): (r: (World, Reply))
    ensures r.0 == w.(certs := r.0.certs)
    ensures forall u :: ReadingOf(w, u) == Some(Approved) ==> ReadingOf(r.0, u) == Some(Approved)
  {
    if user !in w.certs then (w, NotFound)
    else
      var cert := w.certs[user];
      match action
      case MarkReviewing =>
        if cert.status != Submitted then (w, InvalidStatus) else (w.(certs := w.certs[user := cert.(status := Reviewing)]), Ok)
      case Approve =>
        if !Pending(cert.status) then (w, InvalidStatus)
        else (w.(certs := w.certs[user := cert.(status := Approved, rejectReason := None)]), Ok)
      case Reject(reason) =>
        if !Pending(cert.status) then (w, InvalidStatus)
        else if reason == "" then (w, InvalidRequest)
        else (w.(certs := w.certs[user := cert.(status := Rejected, rejectReason := Some(reason))]), Ok)
  }

  /** The admin console's PATCH: a second writer of the decision. */
  function Decide(w: World, user: User, approve: bool, reason: string): (r: (World, Reply))
    ensures r.0 == w.(certs := r.0.certs)
    ensures forall u :: ReadingOf(w, u) == Some(Approved) ==> ReadingOf(r.0, u) == Some(Approved)
  {
    if reason == "" then (w, InvalidRequest)
    else if user !in w.certs then (w, NotFound)
    else if !Pending(w.certs[user].status) then (w, InvalidStatus)
    else
      (w.(certs := w.certs[user := w.certs[user].(status := if approve then Approved else Rejected,
                                                  rejectReason := if approve then None else Some(reason))]), Ok)
  }

  // ---- the gate ----

  function ReadingOf(w: World, user: User): Reading {
    if user in w.certs then Some(w.certs[user].status) else None
  }

  predicate Cached(w: World, now: int, user: User) {
    user in w.cache && w.cache[user].expiresAt > now
  }

  datatype Verdict = Pass | Refuse | Unauthorized | MustRead

  function Judge(reading: Reading): Verdict {
    if reading == Some(Approved) then Pass else Refuse
  }

  function BeginCheck(w: World, now: int, ticket: nat, user: User): (World, Verdict) {
    if user == "" then (w, Unauthorized)
    else if Cached(w, now, user) then (w, Judge(w.cache[user].reading))
    else (w.(checks := w.checks[ticket := (user, ReadingOf(w, user))]), MustRead)
  }

  function EndCheck(w: World, now: int, ticket: nat): (World, Verdict)
    requires ticket in w.checks
  {
    var (user, reading) := w.checks[ticket];
    (w.(checks := w.checks - {ticket}, cache := w.cache[user := CacheEntry(reading, now + CACHE_TTL_MS)]), Judge(reading))
  }

  function ClearCache(w: World, user: User): World {
    w.(cache := w.cache - {user})
  }

  // ---- runs ----

  /** `local` says that this process ran the handler, whose success clears its own
      cache; another process writes the same table and leaves this cache alone. */
  datatype Event =
    | Save(user: User, docs: Option<seq<Doc>>, autoApprove: bool, local: bool)
    | Send(user: User, autoApprove: bool, local: bool)
    | ReviewBy(user: User, action: Action, local: bool)
    | DecideBy(user: User, approve: bool, reason: string, local: bool)
    | Begin(ticket: nat, user: User)
    | End(ticket: nat)
    | AssetsChange(assets: map<string, Asset>)

  datatype Timed = At(now: int, ev: Event)

  function Written(r: (World, Reply), user: User, local: bool): World {
    if local && r.1 == Ok then ClearCache(r.0, user) else r.0
  }

  function Step(w: World, e: Timed): World {
    match e.ev
    case Save(user, docs, auto, local) => Written(SaveDraft(w, user, docs, auto), user, local)
    case Send(user, auto, local) => Written(Submit(w, user, auto), user, local)
    case ReviewBy(user, action, local) => Written(Review(w, user, action), user, local)
    case DecideBy(user, approve, reason, local) => Written(Decide(w, user, approve, reason), user, local)
    case Begin(ticket, user) => if ticket in w.checks then w else BeginCheck(w, e.now, ticket, user).0
    case End(ticket) => if ticket in w.checks then EndCheck(w, e.now, ticket).0 else w
    case AssetsChange(assets) => w.(assets := assets)
  }

  const EMPTY := World(map[], map[], map[], map[])

  function Run(es: seq<Timed>): World {
    if es == [] then EMPTY else Step(Run(es[..|es| - 1]), es[|es| - 1])
  }

  // ---- the table ----

  /** Every certification that left the draft state carries a license document. */
  ghost predicate Licensed(w: World) {
    forall u :: u in w.certs && w.certs[u].status != Draft ==> exists d :: d in w.certs[u].docs && d.docType == "license"
  }

  lemma WritersKeepLicensed(w: World, user: User, docs: Option<seq<Doc>>, auto: bool, action: Action, approve: bool, reason: string)
    requires Licensed(w)
    ensures Licensed(SaveDraft(w, user, docs, auto).0) && Licensed(Submit(w, user, auto).0)
    ensures Licensed(Review(w, user, action).0) && Licensed(Decide(w, user, approve, reason).0)
  {
    hide CheckDocs;
  }

  lemma StepKeepsLicensed(w: World, e: Timed)
    requires Licensed(w)
    ensures Licensed(Step(w, e))
  {
    hide SaveDraft, Submit, Review, Decide, HasLicense;
    match e.ev
    case Save(user, docs, auto, _) => WritersKeepLicensed(w, user, docs, auto, Approve, true, "");
    case Send(user, auto, _) => WritersKeepLicensed(w, user, None, auto, Approve, true, "");
    case ReviewBy(user, action, _) => WritersKeepLicensed(w, user, None, false, action, true, "");
    case DecideBy(user, approve, reason, _) => WritersKeepLicensed(w, user, None, false, Approve, approve, reason);
    case _ =>
  }

  lemma {:induction false} NonDraftsAreLicensed(es: seq<Timed>)
    ensures Licensed(Run(es))
    decreases |es|
  {
    hide Step;
    if es != [] {
      NonDraftsAreLicensed(es[..|es| - 1]);
      StepKeepsLicensed(Run(es[..|es| - 1]), es[|es| - 1]);
    }
  }

  lemma StepKeepsApproval(w: World, e: Timed, user: User)
    requires ReadingOf(w, user) == Some(Approved)
    ensures ReadingOf(Step(w, e), user) == Some(Approved)
  {
    hide SaveDraft, Submit, Review, Decide;
  }

  /** Approved is absorbing: no writer leaves it, whatever the auto-approve flag did meanwhile. */
  lemma {:induction false} ApprovalIsForever(es: seq<Timed>, k: nat, user: User)
    requires k <= |es| && ReadingOf(Run(es[..k]), user) == Some(Approved)
    ensures ReadingOf(Run(es), user) == Some(Approved)
    decreases |es|
  {
    if k < |es| {
      assert es[..|es| - 1][..k] == es[..k];
      ApprovalIsForever(es[..|es| - 1], k, user);
      StepKeepsApproval(Run(es[..|es| - 1]), es[|es| - 1], user);
    } else {
      assert es[..k] == es;
    }
  }

  /** The status changes any writer may make; `none` is a missing row. */
  predicate CertMove(before: Reading, after: Reading) {
    match after
    case None => before == None
    case Some(Draft) => before != Some(Reviewing) && before != Some(Approved)
    case Some(Submitted) => before == Some(Draft) || before == Some(Rejected) || before == Some(Submitted)
    case Some(Reviewing) => before == Some(Submitted)
    case Some(Approved) => before != None
    case Some(Rejected) => before == Some(Submitted) || before == Some(Reviewing)
  }

  lemma SaveMoves(w: World, u: User, docs: Option<seq<Doc>>, auto: bool, user: User)
    ensures var before, after := ReadingOf(w, user), ReadingOf(SaveDraft(w, u, docs, auto).0, user);
      after != before ==> u == user && after == Some(Draft) && CertMove(before, after)
  {
  }

  lemma SubmitMoves(w: World, u: User, auto: bool, user: User)
    ensures var before, after := ReadingOf(w, user), ReadingOf(Submit(w, u, auto).0, user);
      after != before ==>
        u == user && user in w.certs && CertMove(before, after) && after == Some(if auto then Approved else Submitted)
        && ValidateDocuments(w.assets, user, w.certs[user].docs) == Ok
  {
    hide ValidateDocuments;
  }

  lemma ReviewMoves(w: World, u: User, action: Action, user: User)
    ensures var before, after := ReadingOf(w, user), ReadingOf(Review(w, u, action).0, user);
      after != before ==> u == user && CertMove(before, after) && after != Some(Submitted)
  {
  }

  lemma DecideMoves(w: World, u: User, approve: bool, reason: string, user: User)
    ensures var before, after := ReadingOf(w, user), ReadingOf(Decide(w, u, approve, reason).0, user);
      after != before ==> u == user && CertMove(before, after) && after != Some(Submitted)
  {
  }

  /** One step moves at most the certification it names, along the table; a host not yet
      submitted becomes approved only by a valid submission under the automatic flag. */
  lemma CertificationMoves(w: World, e: Timed, user: User)
    ensures var before, after := ReadingOf(w, user), ReadingOf(Step(w, e), user);
      && (after != before ==> CertMove(before, after) && (e.ev.Save? || e.ev.Send? || e.ev.ReviewBy? || e.ev.DecideBy?) && e.ev.user == user)
      && (after == Some(Approved) && before != Some(Approved) && !e.ev.ReviewBy? && !e.ev.DecideBy? ==>
            e.ev.Send? && e.ev.autoApprove && ValidateDocuments(w.assets, user, w.certs[user].docs) == Ok)
      && (after == Some(Submitted) && before != after ==> ValidateDocuments(w.assets, user, w.certs[user].docs) == Ok)
  {
    hide ValidateDocuments, SaveDraft, Submit, Review, Decide;
    match e.ev
    case Save(u, docs, auto, _) => SaveMoves(w, u, docs, auto, user);
    case Send(u, auto, _) => SubmitMoves(w, u, auto, user);
    case ReviewBy(u, action, _) => ReviewMoves(w, u, action, user);
    case DecideBy(u, approve, reason, _) => DecideMoves(w, u, approve, reason, user);
    case _ =>
  }

  // ---- the cache ----

  /** Event r opened the check that read `reading` for `user`. */
  ghost predicate ReadAt(es: seq<Timed>, r: int, user: User, ticket: nat, reading: Reading) {
    0 <= r < |es| && es[r].ev == Begin(ticket, user) && reading == ReadingOf(Run(es[..r]), user)
  }

  lemma ReadAtLater(es: seq<Timed>, e: Timed, r: int, user: User, ticket: nat, reading: Reading)
    requires ReadAt(es, r, user, ticket, reading)
    ensures ReadAt(es + [e], r, user, ticket, reading)
  {
    assert (es + [e])[..r] == es[..r];
  }

  /** A check is opened only by a Begin, which records the reading of that moment. */
  lemma StepOnChecks(w: World, e: Timed, ticket: nat)
    requires ticket in Step(w, e).checks
    ensures (ticket in w.checks && w.checks[ticket] == Step(w, e).checks[ticket])
         || (e.ev.Begin? && e.ev.ticket == ticket && Step(w, e).checks[ticket] == (e.ev.user, ReadingOf(w, e.ev.user)))
  {
    hide SaveDraft, Submit, Review, Decide;
  }

  /** A cache entry is written only by an End, out of the check it closes. */
  lemma StepOnCache(w: World, e: Timed, user: User)
    requires user in Step(w, e).cache
    ensures (user in w.cache && w.cache[user] == Step(w, e).cache[user])
         || (e.ev.End? && e.ev.ticket in w.checks && w.checks[e.ev.ticket].0 == user
             && Step(w, e).cache[user] == CacheEntry(w.checks[e.ev.ticket].1, e.now + CACHE_TTL_MS))
  {
    hide SaveDraft, Submit, Review, Decide;
  }

  lemma {:induction false} OpenReadsHaveOrigins(es: seq<Timed>, ticket: nat) returns (r: int)
    requires ticket in Run(es).checks
    ensures ReadAt(es, r, Run(es).checks[ticket].0, ticket, Run(es).checks[ticket].1)
    decreases |es|
  {
    var front, e := es[..|es| - 1], es[|es| - 1];
    assert es == front + [e];
    StepOnChecks(Run(front), e, ticket);
    hide Step;
    var (user, reading) := Run(es).checks[ticket];
    if ticket in Run(front).checks && Run(front).checks[ticket] == (user, reading) {
      r := OpenReadsHaveOrigins(front, ticket);
      ReadAtLater(front, e, r, user, ticket, reading);
    } else {
      r := |front|;
    }
  }

  /** Every cache entry was written by one check: event r read the table, event k
      wrote what r had read, and the entry expires sixty seconds after k. If the user was not
      cached at some moment `clear`, the write came later. */
  lemma {:induction false} CacheEntriesHaveOrigins(es: seq<Timed>, user: User, clear: nat) returns (r: int, k: int, ticket: nat)
    requires user in Run(es).cache && clear <= |es| && user !in Run(es[..clear]).cache
    ensures 0 <= r < k < |es| && clear <= k && es[k].ev == End(ticket)
    ensures ReadAt(es, r, user, ticket, Run(es).cache[user].reading)
    ensures Run(es).cache[user].expiresAt == es[k].now + 60_000
    decreases |es|
  {
    assert es[..|es|] == es;
    var front, e := es[..|es| - 1], es[|es| - 1];
    assert es == front + [e] && front[..clear] == es[..clear];
    assert clear == |front| ==> front[..clear] == front;
    StepOnCache(Run(front), e, user);
    hide Step;
    var entry := Run(es).cache[user];
    if user in Run(front).cache && Run(front).cache[user] == entry {
      r, k, ticket := CacheEntriesHaveOrigins(front, user, clear);
    } else {
      ticket, k := e.ev.ticket, |front|;
      r := OpenReadsHaveOrigins(front, ticket);
    }
    ReadAtLater(front, e, r, user, ticket, entry.reading);
  }

  /** Soundness: a cached approval is true of the table now, even when its cache write
      came long after its read and past other writers and cache clears. */
  lemma CachedApprovalIsTrue(es: seq<Timed>, user: User)
    requires user in Run(es).cache && Run(es).cache[user].reading == Some(Approved)
    ensures ReadingOf(Run(es), user) == Some(Approved)
  {
    var r, k, ticket := CacheEntriesHaveOrigins(es, user, 0);
    ApprovalIsForever(es, r, user);
  }

  predicate IsApproved(w: World, user: User) {
    user in w.certs && w.certs[user].status == Approved
  }

  /** So the gate lets only approved hosts through: a pass from the cache, or from
      the end of a read however old, is true at that very instant. */
  lemma GateIsSound(es: seq<Timed>, now: int, ticket: nat, user: User)
    ensures BeginCheck(Run(es), now, ticket, user).1 == Pass ==> IsApproved(Run(es), user)
    ensures ticket in Run(es).checks && EndCheck(Run(es), now, ticket).1 == Pass ==> IsApproved(Run(es), Run(es).checks[ticket].0)
  {
    if BeginCheck(Run(es), now, ticket, user).1 == Pass {
      CachedApprovalIsTrue(es, user);
    }
    if ticket in Run(es).checks && EndCheck(Run(es), now, ticket).1 == Pass {
      var r := OpenReadsHaveOrigins(es, ticket);
      ApprovalIsForever(es, r, Run(es).checks[ticket].0);
    }
  }

  /** Staleness: a refusal from the cache was true when it was read (event r), and
      its cache write (event k) is less than sixty seconds old. If the host has
      been approved since event m, the read began before that. */
  lemma CachedRefusalIsRecent(es: seq<Timed>, now: int, ticket: nat, user: User, m: nat) returns (r: int, k: int, from: nat)
    requires BeginCheck(Run(es), now, ticket, user).1 == Refuse
    requires m <= |es|
    ensures 0 <= r < k < |es| && es[k].ev == End(from) && ReadAt(es, r, user, from, Run(es).cache[user].reading)
    ensures ReadingOf(Run(es[..r]), user) != Some(Approved)
    ensures es[k].now > now - 60_000
    ensures ReadingOf(Run(es[..m]), user) == Some(Approved) ==> r < m
  {
    r, k, from := CacheEntriesHaveOrigins(es, user, 0);
    if ReadingOf(Run(es[..m]), user) == Some(Approved) && m <= r {
      assert es[..r][..m] == es[..m];
      ApprovalIsForever(es[..r], m, user);
    }
  }

  /** Whatever the cache or an open check holds as approved is approved in the table. */
  ghost predicate Trusted(w: World) {
    && (forall u :: u in w.cache && w.cache[u].reading == Some(Approved) ==> ReadingOf(w, u) == Some(Approved))
    && (forall t :: t in w.checks && w.checks[t].1 == Some(Approved) ==> ReadingOf(w, w.checks[t].0) == Some(Approved))
  }

  /** Every reachable world can be trusted. */
  lemma RunsAreTrusted(es: seq<Timed>)
    ensures Trusted(Run(es))
  {
    var w := Run(es);
    hide Run;
    forall u | u in w.cache && w.cache[u].reading == Some(Approved) ensures ReadingOf(w, u) == Some(Approved) {
      CachedApprovalIsTrue(es, u);
    }
    forall t | t in w.checks && w.checks[t].1 == Some(Approved) ensures ReadingOf(w, w.checks[t].0) == Some(Approved) {
      var r := OpenReadsHaveOrigins(es, t);
      ApprovalIsForever(es, r, w.checks[t].0);
    }
  }

  /** A writer that leaves approvals alone keeps the trust. */
  lemma WritersKeepTrust(w: World, r: (World, Reply), user: User, local: bool)
    requires Trusted(w) && r.0 == w.(certs := r.0.certs)
    requires forall u :: ReadingOf(w, u) == Some(Approved) ==> ReadingOf(r.0, u) == Some(Approved)
    ensures Trusted(Written(r, user, local))
  {
  }

  /** The two invariants of the world. */
  ghost predicate Keeps(w: World, after: World) {
    (Licensed(w) ==> Licensed(after)) && (Trusted(w) ==> Trusted(after))
  }

  /** Who may be reviewed to what. */
  predicate Reviewable(before: CertStatus, action: Action) {
    match action
    case MarkReviewing => before == Submitted
    case Approve => before in {Submitted, Reviewing}
    case Reject(reason) => before in {Submitted, Reviewing} && reason != ""
  }

  function ReviewedTo(action: Action): CertStatus {
    match action
    case MarkReviewing => Reviewing
    case Approve => Approved
    case Reject(_) => Rejected
  }

  /** Only the user's certification changed. */
  ghost predicate OthersKept(w: World, after: World, user: User) {
    && after.assets == w.assets && after.checks == w.checks
    && forall u :: u != user ==>
         (u in after.certs <==> u in w.certs) && (u in w.certs ==> after.certs[u] == w.certs[u])
         && (u in after.cache <==> u in w.cache) && (u in w.cache ==> after.cache[u] == w.cache[u])
  }

  /** A handler of this process that succeeded leaves the certification in `status` and drops
      the cached reading, and touches nobody else; one that refused changes nothing. */
  ghost predicate Settled(w: World, after: World, user: User, reply: Reply, status: CertStatus) {
    if reply != Ok then after == w
    else
      && user in after.certs && after.certs[user].status == status && user !in after.cache
      && OthersKept(w, after, user)
  }

  predicate IsLocal(ev: Event) {
    match ev
    case Save(_, _, _, local) => local
    case Send(_, _, local) => local
    case ReviewBy(_, _, local) => local
    case DecideBy(_, _, _, local) => local
    case _ => false
  }

  /** Event a is a handler of this process that makes the host approved. */
  ghost predicate ApprovesHere(es: seq<Timed>, a: nat, user: User) {
    && a < |es| && IsLocal(es[a].ev)
    && ReadingOf(Run(es[..a]), user) != Some(Approved) && ReadingOf(Run(es[..a + 1]), user) == Some(Approved)
  }

  lemma LocalApprovalClears(w: World, e: Timed, user: User)
    requires IsLocal(e.ev) && ReadingOf(w, user) != Some(Approved) && ReadingOf(Step(w, e), user) == Some(Approved)
    ensures user !in Step(w, e).cache
  {
    hide ValidateDocuments;
  }

  /** The exact account of a stale refusal: after an approval by this process, which clears its
      cache, a refusal from the cache can only come from a check that was open across the
      approval, its read before and its write after, less than sixty seconds ago. */
  lemma StaleRefusalStraddlesTheApproval(es: seq<Timed>, now: int, ticket: nat, user: User, a: nat) returns (r: int, k: int, from: nat)
    requires BeginCheck(Run(es), now, ticket, user).1 == Refuse && ApprovesHere(es, a, user)
    ensures 0 <= r < a < k < |es| && es[k].ev == End(from) && ReadAt(es, r, user, from, Run(es).cache[user].reading)
    ensures es[k].now > now - 60_000
  {
    assert es[..a + 1][..a] == es[..a] && es[..a + 1][a] == es[a];
    LocalApprovalClears(Run(es[..a]), es[a], user);
    hide Step;
    r, k, from := CacheEntriesHaveOrigins(es, user, a + 1);
    if a < r {
      assert es[..r][..a + 1] == es[..a + 1];
      ApprovalIsForever(es[..r], a + 1, user);
    }
  }
}
