/** The certification handlers and the approval middleware as code over the shared
    table and this process's cache, each proved against HostCertification. */
module HostCertService {
  import opened Prelude
  import opened HostCertification

  class Service {
    var certs: map<User, Cert>
    var assets: map<string, Asset>
    var cache: map<User, CacheEntry>
    var checks: map<nat, (User, Reading)>

    constructor ()
      ensures State() == EMPTY
    {
      certs, assets, cache, checks := map[], map[], map[], map[];
    }

    function State(): World
      reads this
    {
      World(certs, assets, cache, checks)
    }

    method ClearApprovedHostCache(user: User)
      modifies this`cache
      ensures user !in cache && OthersKept(old(State()), State(), user)
      // the next check of this user reads the table
      ensures forall now, ticket :: user != "" ==> BeginCheck(State(), now, ticket, user).1 == MustRead
      ensures Trusted(old(State())) ==> Trusted(State())
      ensures cache == old(cache) - {user}
    {
      cache := cache - {user};
    }

    method PutDraft(user: User, docs: Option<seq<Doc>>, autoApprove: bool) returns (reply: Reply)
      modifies this`certs, this`cache
      ensures reply == Ok <==>
              user !in old(certs) || old(certs)[user].status in {Draft, Rejected} || (autoApprove && old(certs)[user].status == Submitted)
      ensures Settled(old(State()), State(), user, reply, Draft)
      ensures reply == Ok ==>
              certs[user] == Cert(Draft, if docs.Some? then docs.value else if user in old(certs) then old(certs)[user].docs else [], None)
      ensures Keeps(old(State()), State())
      ensures reply == SaveDraft(old(State()), user, docs, autoApprove).1
      ensures State() == Written(SaveDraft(old(State()), user, docs, autoApprove), user, true)
    {
      hide Settled, Keeps;
      DraftMeans(State(), user, docs, autoApprove);
      if user !in certs {
        certs := certs[user := Cert(Draft, if docs.Some? then docs.value else [], None)];
      } else {
        var existing := certs[user];
        if existing.status != Draft && existing.status != Rejected {
          if !(autoApprove && existing.status == Submitted) {
            return InvalidStatus;
          }
        }
        certs := certs[user := Cert(Draft, if docs.Some? then docs.value else existing.docs, None)];
      }
      ClearApprovedHostCache(user);
      reply := Ok;
    }

    method Validate(user: User, docs: seq<Doc>) returns (reply: Reply)
      ensures Verdicts(assets, user, docs, reply)
      ensures reply == ValidateDocuments(assets, user, docs)
    {
      hide Verdicts;
      DocumentsMean(assets, user, docs);
      if |docs| == 0 {
        return MissingDocuments;
      }
      var docTypes := set d | d in docs :: d.docType;
      if "license" !in docTypes {
        return MissingDocuments;
      }
      for i := 0 to |docs|
        invariant CheckDocs(assets, user, docs) == CheckDocs(assets, user, docs[i..])
      {
        var doc := docs[i];
        assert docs[i..][0] == doc && docs[i..][1..] == docs[i + 1..];
        if doc.assetId !in assets {
          return InvalidDocument;
        }
        var asset := assets[doc.assetId];
        if asset.owner != user {
          return ForbiddenDocument;
        }
        if asset.scope != "kyc" || asset.visibility != "private" {
          return InvalidDocument;
        }
        if asset.status != "" && asset.status != "active" {
          return InvalidDocument;
        }
        if asset.objectKey != "" && asset.objectKey != doc.objectKey {
          return InvalidDocument;
        }
      }
      reply := Ok;
    }

    method PostSubmit(user: User, autoApprove: bool) returns (reply: Reply)
      modifies this`certs, this`cache
      ensures reply == Ok <==>
              && user in old(certs)
              && (old(certs)[user].status in {Draft, Rejected} || (autoApprove && old(certs)[user].status == Submitted))
              && Verdicts(assets, user, old(certs)[user].docs, Ok)
      ensures reply == NotFound <==> user !in old(certs)
      ensures Settled(old(State()), State(), user, reply, if autoApprove then Approved else Submitted)
      ensures reply == Ok ==> certs[user] == Cert(if autoApprove then Approved else Submitted, old(certs)[user].docs, None)
      ensures Keeps(old(State()), State())
      ensures reply == Submit(old(State()), user, autoApprove).1
      ensures State() == Written(Submit(old(State()), user, autoApprove), user, true)
    {
      hide Settled, Keeps, ValidateDocuments;
      SubmitMeans(State(), user, autoApprove);
      if user !in certs {
        return NotFound;
      }
      var existing := certs[user];
      if existing.status != Draft && existing.status != Rejected {
        if !(autoApprove && existing.status == Submitted) {
          return InvalidStatus;
        }
      }
      var verdict := Validate(user, existing.docs);
      if verdict != Ok {
        assert State() == Written(Submit(old(State()), user, autoApprove), user, true);
        return verdict;
      }
      certs := certs[user := existing.(status := Submitted, rejectReason := None)];
      if autoApprove {
        certs := certs[user := certs[user].(status := Approved, rejectReason := None)];
      }
      ClearApprovedHostCache(user);
      reply := Ok;
      assert certs == Submit(old(State()), user, autoApprove).0.certs;
      assert State() == Written(Submit(old(State()), user, autoApprove), user, true);
    }

    method PostReview(user: User, action: Action) returns (reply: Reply)
      modifies this`certs, this`cache
      ensures reply == Ok <==> user in old(certs) && Reviewable(old(certs)[user].status, action)
      ensures Settled(old(State()), State(), user, reply, ReviewedTo(action))
      ensures reply == Ok ==>
              certs[user] == Cert(ReviewedTo(action), old(certs)[user].docs,
                                  if action.Approve? then None else if action.Reject? then Some(action.reason) else old(certs)[user].rejectReason)
      ensures reply == NotFound <==> user !in old(certs)
      ensures Keeps(old(State()), State())
      ensures reply == Review(old(State()), user, action).1
      ensures State() == Written(Review(old(State()), user, action), user, true)
    {
      hide Settled, Keeps;
      ReviewMeans(State(), user, action);
      if user !in certs {
        return NotFound;
      }
      var existing := certs[user];
      if action.MarkReviewing? {
        if existing.status != Submitted {
          return InvalidStatus;
        }
        certs := certs[user := existing.(status := Reviewing)];
      } else if action.Approve? {
        if existing.status != Submitted && existing.status != Reviewing {
          return InvalidStatus;
        }
        certs := certs[user := existing.(status := Approved, rejectReason := None)];
      } else {
        if existing.status != Submitted && existing.status != Reviewing {
          return InvalidStatus;
        }
        if action.reason == "" {
          return InvalidRequest;
        }
        certs := certs[user := existing.(status := Rejected, rejectReason := Some(action.reason))];
      }
      ClearApprovedHostCache(user);
      reply := Ok;
    }

    method PatchDecision(user: User, approve: bool, reason: string) returns (reply: Reply)
      modifies this`certs, this`cache
      ensures reply == Ok <==> reason != "" && user in old(certs) && old(certs)[user].status in {Submitted, Reviewing}
      ensures Settled(old(State()), State(), user, reply, if approve then Approved else Rejected)
      ensures reply == Ok ==>
              certs[user] == Cert(if approve then Approved else Rejected, old(certs)[user].docs, if approve then None else Some(reason))
      ensures reply == InvalidRequest <==> reason == ""
      ensures Keeps(old(State()), State())
      ensures reply == Decide(old(State()), user, approve, reason).1
      ensures State() == Written(Decide(old(State()), user, approve, reason), user, true)
    {
      hide Settled, Keeps;
      DecideMeans(State(), user, approve, reason);
      if reason == "" {
        return InvalidRequest;
      }
      if user !in certs {
        return NotFound;
      }
      var before := certs[user];
      if before.status != Submitted && before.status != Reviewing {
        return InvalidStatus;
      }
      certs := certs[user := before.(status := if approve then Approved else Rejected,
                                     rejectReason := if !approve then Some(reason) else None)];
      ClearApprovedHostCache(user);
      reply := Ok;
    }

    /** requireApprovedHost up to its query. */
    method BeginRequire(now: int, ticket: nat, user: User) returns (verdict: Verdict)
      modifies this`checks
      ensures verdict == Unauthorized <==> user == ""
      ensures user != "" ==> (verdict == MustRead <==> !(user in old(cache) && old(cache)[user].expiresAt > now))
      // a verdict from the cache is true of the table when it passes
      ensures Trusted(old(State())) && verdict == Pass ==> IsApproved(State(), user)
      ensures verdict != MustRead ==> checks == old(checks)
      ensures verdict == MustRead ==>
              ticket in checks && checks[ticket] == (user, ReadingOf(State(), user))
              && forall t :: t != ticket ==> (t in checks <==> t in old(checks)) && (t in checks ==> checks[t] == old(checks)[t])
      ensures Trusted(old(State())) ==> Trusted(State())
      ensures (State(), verdict) == BeginCheck(old(State()), now, ticket, user)
    {
      if user == "" {
        return Unauthorized;
      }
      if user in cache && cache[user].expiresAt > now {
        if cache[user].reading == Some(Approved) {
          return Pass;
        }
        return Refuse;
      }
      checks := checks[ticket := (user, if user in certs then Some(certs[user].status) else None)];
      verdict := MustRead;
    }

    /** requireApprovedHost from the query's answer on. */
    method EndRequire(now: int, ticket: nat) returns (verdict: Verdict)
      requires ticket in checks
      modifies this`checks, this`cache
      ensures verdict == Pass || verdict == Refuse
      // a pass is true of the table, however long ago the query was answered
      ensures Trusted(old(State())) && verdict == Pass ==> IsApproved(State(), old(checks)[ticket].0)
      // for sixty seconds the user's checks get this verdict without reading, and then read
      ensures forall later, t :: old(checks)[ticket].0 != "" ==>
                BeginCheck(State(), later, t, old(checks)[ticket].0).1 == if later < now + 60_000 then verdict else MustRead
      ensures ticket !in checks && forall t :: t != ticket ==> (t in checks <==> t in old(checks)) && (t in checks ==> checks[t] == old(checks)[t])
      ensures Trusted(old(State())) ==> Trusted(State())
      ensures (State(), verdict) == EndCheck(old(State()), now, ticket)
    {
      var (user, reading) := checks[ticket];
      checks := checks - {ticket};
      cache := cache[user := CacheEntry(reading, now + 60_000)];
      verdict := if reading != Some(Approved) then Refuse else Pass;
    }
  }

  /** What a draft, a submission and the two kinds of decision mean for the handler's caller. */
  lemma DraftMeans(w: World, user: User, docs: Option<seq<Doc>>, autoApprove: bool)
    ensures var r := SaveDraft(w, user, docs, autoApprove); var after := Written(r, user, true);
      && (r.1 == Ok <==> user !in w.certs || w.certs[user].status in {Draft, Rejected} || (autoApprove && w.certs[user].status == Submitted))
      && Settled(w, after, user, r.1, Draft)
      && (r.1 == Ok ==>
            after.certs[user] == Cert(Draft, if docs.Some? then docs.value else if user in w.certs then w.certs[user].docs else [], None))
      && Keeps(w, after)
  {
    StepKeeps(w, At(0, Save(user, docs, autoApprove, true)), SaveDraft(w, user, docs, autoApprove), user);
  }

  lemma SubmitMeans(w: World, user: User, autoApprove: bool)
    ensures var r := Submit(w, user, autoApprove); var after := Written(r, user, true);
      && (r.1 == Ok <==>
            && user in w.certs
            && (w.certs[user].status in {Draft, Rejected} || (autoApprove && w.certs[user].status == Submitted))
            && Verdicts(w.assets, user, w.certs[user].docs, Ok))
      && Settled(w, after, user, r.1, if autoApprove then Approved else Submitted)
      && (r.1 == Ok ==> after.certs[user] == Cert(if autoApprove then Approved else Submitted, w.certs[user].docs, None))
      && Keeps(w, after)
  {
    StepKeeps(w, At(0, Send(user, autoApprove, true)), Submit(w, user, autoApprove), user);
    if user in w.certs {
      DocumentsMean(w.assets, user, w.certs[user].docs);
      OnlyOneVerdict(w.assets, user, w.certs[user].docs, ValidateDocuments(w.assets, user, w.certs[user].docs));
    }
    hide ValidateDocuments, Verdicts;
  }

  lemma ReviewMeans(w: World, user: User, action: Action)
    ensures var r := Review(w, user, action); var after := Written(r, user, true);
      && (r.1 == Ok <==> user in w.certs && Reviewable(w.certs[user].status, action))
      && Settled(w, after, user, r.1, ReviewedTo(action))
      && (r.1 == Ok ==>
            after.certs[user] == Cert(ReviewedTo(action), w.certs[user].docs,
                                      if action.Approve? then None else if action.Reject? then Some(action.reason) else w.certs[user].rejectReason))
      && Keeps(w, after)
  {
    StepKeeps(w, At(0, ReviewBy(user, action, true)), Review(w, user, action), user);
  }

  lemma DecideMeans(w: World, user: User, approve: bool, reason: string)
    ensures var r := Decide(w, user, approve, reason); var after := Written(r, user, true);
      && (r.1 == Ok <==> reason != "" && user in w.certs && w.certs[user].status in {Submitted, Reviewing})
      && Settled(w, after, user, r.1, if approve then Approved else Rejected)
      && (r.1 == Ok ==>
            after.certs[user] == Cert(if approve then Approved else Rejected, w.certs[user].docs, if approve then None else Some(reason)))
      && Keeps(w, after)
  {
    StepKeeps(w, At(0, DecideBy(user, approve, reason, true)), Decide(w, user, approve, reason), user);
  }

  lemma OnlyOneVerdict(assets: map<string, Asset>, user: User, docs: seq<Doc>, reply: Reply)
    requires Verdicts(assets, user, docs, reply)
    ensures reply == Ok <==> Verdicts(assets, user, docs, Ok)
  {
  }

  lemma StepKeeps(w: World, e: Timed, r: (World, Reply), user: User)
    requires Step(w, e) == Written(r, user, true) && r.0 == w.(certs := r.0.certs)
    requires forall u :: ReadingOf(w, u) == Some(Approved) ==> ReadingOf(r.0, u) == Some(Approved)
    ensures Keeps(w, Written(r, user, true))
  {
    hide Step, Licensed, Trusted;
    if Licensed(w) {
      StepKeepsLicensed(w, e);
    }
    if Trusted(w) {
      WritersKeepTrust(w, r, user, true);
    }
  }
}
