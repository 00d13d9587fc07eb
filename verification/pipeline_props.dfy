/** What the write handlers promise: what an accepted write stores, that a refused one
    leaves the store alone, that the store stays well formed, and how a replayed request
    is answered. */
module PipelineProofs {
  import opened Text
  import opened Kinds
  import opened Validation
  import opened Content
  import Sanitizer
  import opened Http
  import opened Storage
  import opened Guards
  import opened Pipeline

  /** Posts and reports never change, and rows are only appended, at most one. */
  predicate AppendOnly(db: Db, d: Db) {
    d.posts == db.posts && d.reports == db.reports && d.nextPostId == db.nextPostId
    && (d.rows == db.rows || (|d.rows| == |db.rows| + 1 && d.rows[..|db.rows|] == db.rows))
  }

  /** The row stored by an admitted write: the finished draft under the next id and time. */
  function Stored(db: Db, row: Row, w: World): Row {
    row.(id := db.nextRowId, createdAt := w.nowSecs)
  }

  // ---------------------------------------------------------------------------
  // The commit

  /** A commit answered 200 appended the row and moved a present key to the new id. */
  lemma CommitAccepted(db: Db, row: Row, key: string, w: World, cookie: Option<string>)
    requires Commit(db, row, key, w, cookie).1.Response? && Commit(db, row, key, w, cookie).1.status == 200
    requires key in db.settings
    ensures var (d, resp) := Commit(db, row, key, w, cookie);
      d.rows == db.rows + [Stored(db, row, w)] && d.nextRowId == db.nextRowId + 1
      && d.posts == db.posts && d.reports == db.reports && d.nextPostId == db.nextPostId
      && d.settings == db.settings[key := NatToString(db.nextRowId)]
      && resp == Response(200, CreatedReply(db.nextRowId, row.state), cookie)
  {
  }

  lemma CommitAppendOnly(db: Db, row: Row, key: string, w: World, cookie: Option<string>)
    ensures AppendOnly(db, Commit(db, row, key, w, cookie).0)
  {
    if !w.insertFails {
      var added := AddRow(db, row, w.nowSecs);
      assert added.rows[..|db.rows|] == db.rows;
    }
  }

  // ---------------------------------------------------------------------------
  // Admission (Workers create, Express create and reply)

  /** An admitted write passed every check, stored exactly one row — the finished draft
      under the named post, the next id and the current time — and finalised its key. */
  lemma AdmitAccepted(db: Db, plan: Plan, parent: Option<int>, w: World)
    requires Admit(db, plan, parent, w).1.Response? && Admit(db, plan, parent, w).1.status == 200
    ensures PostBySlug(db.posts, plan.slug).Some? && PostBySlug(db.posts, plan.slug).value.id != 0
    ensures !Guards.RateLimited(db.rows, plan.ipHash, plan.visitorId, w) && KeyOf(plan) !in db.settings
    ensures parent.Some? ==> ParentMatches(db.rows, parent.value, PostBySlug(db.posts, plan.slug).value.id)
    ensures var row := Stored(db, Finished(db, plan, PostBySlug(db.posts, plan.slug).value.id, parent, w), w);
      var (d, resp) := Admit(db, plan, parent, w);
      d.rows == db.rows + [row] && d.posts == db.posts && d.reports == db.reports
      && d.settings == db.settings[KeyOf(plan) := NatToString(row.id)]
      && resp == Response(200, CreatedReply(row.id, row.state), plan.cookie)
  {
    var post := PostBySlug(db.posts, plan.slug);
    var (db1, reservation) := Reserve(db, KeyOf(plan), w.reserveFails);
    assert reservation == Reserved;
    CommitAccepted(db1, Finished(db1, plan, post.value.id, parent, w), KeyOf(plan), w, plan.cookie);
  }

  /** A missing post, a rate limit or a conflicting key is answered without writing; a
      reply whose parent does not match is refused after its key was reserved. */
  lemma AdmitRefusals(db: Db, plan: Plan, parent: Option<int>, w: World)
    ensures var (d, resp) := Admit(db, plan, parent, w);
      resp.status in {404, 429, 409} ==> d == db
    ensures var (d, resp) := Admit(db, plan, parent, w);
      resp.status == 400 ==>
        (parent.Some? && KeyOf(plan) !in db.settings && d == db.(settings := db.settings[KeyOf(plan) := ReservedMark]))
    ensures var resp := Admit(db, plan, parent, w).1;
      resp.Response? && resp.payload == ErrorReply(InvalidInput, Some("parent mismatch")) ==> resp.status == 400
  {
  }

  /** Reserving or finalising a key touches only the settings, which `Valid` ignores. */
  lemma SettingsKeepValid(db: Db, settings: map<string, string>)
    requires Valid(db)
    ensures Valid(db.(settings := settings)) && AppendOnly(db, db.(settings := settings))
  {
  }

  /** A commit of a row of a stored post, whose parent is a stored row of that post, keeps
      the store well formed. */
  lemma CommitKeepsValid(db: Db, row: Row, key: string, w: World, cookie: Option<string>)
    requires Valid(db) && HasPost(db.posts, row.postId) && ParentStored(db.rows, row)
    ensures Valid(Commit(db, row, key, w, cookie).0) && AppendOnly(db, Commit(db, row, key, w, cookie).0)
  {
    CommitAppendOnly(db, row, key, w, cookie);
    if !w.insertFails {
      AddRowKeepsValid(db, row, w.nowSecs);
      var added := AddRow(db, row, w.nowSecs);
      SettingsKeepValid(added, UpdateSetting(added.settings, key, NatToString(db.nextRowId)));
    }
  }

  /** A reservation changes only the settings, so it keeps the store well formed. */
  lemma ReserveKeepsValid(db: Db, key: string, fails: bool)
    requires Valid(db)
    ensures var d := Reserve(db, key, fails).0;
      Valid(d) && AppendOnly(db, d) && d.rows == db.rows && d.posts == db.posts
  {
    SettingsKeepValid(db, Reserve(db, key, fails).0.settings);
  }

  /** The commit at the end of an admission keeps the store well formed: its post is
      stored and a reply's parent matched it. */
  lemma FinishedCommitKeepsValid(db: Db, plan: Plan, postId: nat, parent: Option<int>, w: World)
    requires Valid(db) && HasPost(db.posts, postId)
    requires parent.Some? ==> ParentMatches(db.rows, parent.value, postId)
    ensures var d := Commit(db, Finished(db, plan, postId, parent, w), KeyOf(plan), w, plan.cookie).0;
      Valid(d) && AppendOnly(db, d)
  {
    var row := Finished(db, plan, postId, parent, w);
    if parent.Some? {
      var found := RowById(db.rows, parent.value).value;
      var j :| 0 <= j < |db.rows| && db.rows[j] == found;
    }
    CommitKeepsValid(db, row, KeyOf(plan), w, plan.cookie);
  }

  /** Admission keeps the store well formed and only ever appends. */
  lemma AdmitKeepsValid(db: Db, plan: Plan, parent: Option<int>, w: World)
    requires Valid(db)
    ensures Valid(Admit(db, plan, parent, w).0) && AppendOnly(db, Admit(db, plan, parent, w).0)
  {
    AdmitStores(db, plan, parent, w);
    ReserveKeepsValid(db, KeyOf(plan), w.reserveFails);
    var db1 := Reserve(db, KeyOf(plan), w.reserveFails).0;
    var d := Admit(db, plan, parent, w).0;
    if d != db && d != db1 {
      FinishedCommitKeepsValid(db1, plan, PostBySlug(db.posts, plan.slug).value.id, parent, w);
    }
  }

  /** What admission leaves in the store: nothing, the reservation, or the commit of the
      finished row under a stored post and, for a reply, a matching parent. */
  lemma AdmitStores(db: Db, plan: Plan, parent: Option<int>, w: World)
    ensures var d := Admit(db, plan, parent, w).0;
      var (db1, reservation) := Reserve(db, KeyOf(plan), w.reserveFails);
      var post := PostBySlug(db.posts, plan.slug);
      d == db || d == db1
      || (reservation == Reserved && post.Some? && HasPost(db1.posts, post.value.id)
          && (parent.Some? ==> ParentMatches(db1.rows, parent.value, post.value.id))
          && d == Commit(db1, Finished(db1, plan, post.value.id, parent, w), KeyOf(plan), w, plan.cookie).0)
  {
  }

  /** Replaying an admitted write — same visitor and key, same post, not rate limited —
      answers 409 with the first row's id and writes nothing. */
  lemma AdmitReplayConflicts(db: Db, plan: Plan, parent: Option<int>, w: World, plan2: Plan, parent2: Option<int>, w2: World)
    requires Valid(db)
    requires Admit(db, plan, parent, w).1.Response? && Admit(db, plan, parent, w).1.status == 200
    requires plan2.visitorId == plan.visitorId && plan2.idempotencyKey == plan.idempotencyKey && plan2.slug == plan.slug
    requires !Guards.RateLimited(Admit(db, plan, parent, w).0.rows, plan2.ipHash, plan2.visitorId, w2)
    ensures var d := Admit(db, plan, parent, w).0;
      Admit(d, plan2, parent2, w2) == (d, Response(409, ConflictReply(Some(db.nextRowId)), plan2.cookie))
  {
    AdmitAccepted(db, plan, parent, w);
    var d := Admit(db, plan, parent, w).0;
    FinalizedKeyReportsId(d, KeyOf(plan), db.nextRowId, w2.reserveFails);
  }

  /** A row appended with the latest time so far becomes its visitor's latest. */
  lemma LatestIsNewest(rows: seq<Row>, r: Row, now: int)
    requires r.createdAt == now
    requires forall i :: 0 <= i < |rows| ==> rows[i].createdAt <= now
    ensures LatestByVisitor(rows + [r], r.visitorId) == Some(now)
  {
    var all := rows + [r];
    var latest := LatestByVisitor(all, r.visitorId);
    assert all[|rows|] == r;
    assert latest.Some? && now <= latest.value;
    var i :| 0 <= i < |all| && all[i].visitorId == r.visitorId && all[i].createdAt == latest.value;
    if i < |rows| {
      assert all[i] == rows[i];
    }
    assert latest.value <= now;
  }

  /** Replaying an admitted write from the same visitor within 15 seconds is refused by
      the per-visitor rule before the key is consulted: 429, not 409. */
  lemma AdmitQuickReplayLimited(db: Db, plan: Plan, parent: Option<int>, w: World, plan2: Plan, parent2: Option<int>, w2: World)
    requires Admit(db, plan, parent, w).1.Response? && Admit(db, plan, parent, w).1.status == 200
    requires forall i :: 0 <= i < |db.rows| ==> db.rows[i].createdAt <= w.nowSecs
    requires plan2.visitorId == plan.visitorId && plan2.slug == plan.slug && plan.draft.visitorId == plan.visitorId
    requires w2.parseMs(w.nowSecs) == Some(1000 * w.nowSecs) && w2.nowMs < 1000 * w.nowSecs + VisitorGapMs
    ensures var d := Admit(db, plan, parent, w).0;
      Admit(d, plan2, parent2, w2) == (d, Fail(429, RateLimited, None, plan2.cookie))
  {
    AdmitAccepted(db, plan, parent, w);
    var post := PostBySlug(db.posts, plan.slug).value;
    var row := Stored(db, Finished(db, plan, post.id, parent, w), w);
    LatestIsNewest(db.rows, row, w.nowSecs);
    VisitorGap(db.rows + [row], plan.visitorId, w2, w.nowSecs);
  }

  /** When the row is stored but the key cannot be finalised, the key stays reserved and
      every later reservation of it conflicts without an id. */
  lemma AdmitFinalizeFailure(db: Db, plan: Plan, parent: Option<int>, w: World, f: bool)
    requires w.finalizeFails
    requires |Admit(db, plan, parent, w).0.rows| > |db.rows|
    ensures var (d, resp) := Admit(db, plan, parent, w);
      resp == Fail(500, InternalError, None, plan.cookie) && |d.rows| == |db.rows| + 1
      && KeyOf(plan) in d.settings && d.settings[KeyOf(plan)] == ReservedMark
      && Reserve(d, KeyOf(plan), f) == (d, Conflicted(None))
  {
    var (db1, reservation) := Reserve(db, KeyOf(plan), w.reserveFails);
    assert reservation == Reserved;
    SecondReserveConflicts(db, KeyOf(plan), w.reserveFails, f);
  }

  // ---------------------------------------------------------------------------
  // Admission of a Workers reply

  /** An admitted reply is stored under its parent's post, with its parent's id, and keeps
      the draft's state: there is no repeat hold. */
  lemma AdmitReplyAccepted(db: Db, plan: Plan, parentId: int, w: World)
    requires AdmitReply(db, plan, parentId, w).1.Response? && AdmitReply(db, plan, parentId, w).1.status == 200
    ensures RowById(db.rows, parentId).Some? && plan.complete
    ensures var parent := RowById(db.rows, parentId).value;
      PostBySlug(db.posts, plan.slug) == Some(PostBySlug(db.posts, plan.slug).value)
      && PostBySlug(db.posts, plan.slug).value.id == parent.postId
    ensures var parent := RowById(db.rows, parentId).value;
      var row := Stored(db, plan.draft.(postId := parent.postId, parentId := Some(parentId)), w);
      var (d, resp) := AdmitReply(db, plan, parentId, w);
      d.rows == db.rows + [row] && row.state == plan.draft.state && ParentStored(db.rows, row)
      && d.settings == db.settings[KeyOf(plan) := NatToString(row.id)]
      && resp == Response(200, CreatedReply(row.id, row.state), plan.cookie)
  {
    var parent := RowById(db.rows, parentId).value;
    var (db1, reservation) := Reserve(db, KeyOf(plan), w.reserveFails);
    assert reservation == Reserved;
    var row := plan.draft.(postId := parent.postId, parentId := Some(parentId));
    CommitAccepted(db1, row, KeyOf(plan), w, plan.cookie);
    var j :| 0 <= j < |db.rows| && db.rows[j] == parent;
  }

  /** The reply path looks the parent up first: a missing parent is 404, with nothing
      written, whatever the rate rules and the idempotency key would say. */
  lemma AdmitReplyParentFirst(db: Db, plan: Plan, parentId: int, w: World)
    requires RowById(db.rows, parentId).None?
    ensures AdmitReply(db, plan, parentId, w) == (db, Fail(404, NotFound, None, plan.cookie))
  {
  }

  /** A reply without a quote or selector envelope reserves its key and then fails at the
      insert: 500, no row, and the key stays reserved. */
  lemma AdmitReplyIncompleteBurnsKey(db: Db, plan: Plan, parentId: int, w: World)
    requires !plan.complete
    ensures var (d, resp) := AdmitReply(db, plan, parentId, w);
      resp.status == 500 ==> d == db.(settings := db.settings[KeyOf(plan) := ReservedMark])
    ensures AdmitReply(db, plan, parentId, w).1.status != 200
  {
  }

  lemma AdmitReplyKeepsValid(db: Db, plan: Plan, parentId: int, w: World)
    requires Valid(db)
    ensures Valid(AdmitReply(db, plan, parentId, w).0) && AppendOnly(db, AdmitReply(db, plan, parentId, w).0)
  {
    AdmitReplyStores(db, plan, parentId, w);
    ReserveKeepsValid(db, KeyOf(plan), w.reserveFails);
    var db1 := Reserve(db, KeyOf(plan), w.reserveFails).0;
    var d := AdmitReply(db, plan, parentId, w).0;
    if d != db && d != db1 {
      ReplyCommitKeepsValid(db1, plan, parentId, w);
    }
  }

  /** What the reply path leaves in the store: nothing, the reservation, or the commit of
      the reply under its stored parent's post. */
  lemma AdmitReplyStores(db: Db, plan: Plan, parentId: int, w: World)
    ensures var d := AdmitReply(db, plan, parentId, w).0;
      var (db1, reservation) := Reserve(db, KeyOf(plan), w.reserveFails);
      d == db || d == db1
      || (reservation == Reserved && RowById(db.rows, parentId).Some?
          && HasPost(db.posts, RowById(db.rows, parentId).value.postId)
          && d == Commit(db1, plan.draft.(postId := RowById(db.rows, parentId).value.postId, parentId := Some(parentId)),
                         KeyOf(plan), w, plan.cookie).0)
  {
  }

  /** The commit of a reply under a stored parent keeps the store well formed. */
  lemma ReplyCommitKeepsValid(db: Db, plan: Plan, parentId: int, w: World)
    requires Valid(db) && RowById(db.rows, parentId).Some?
    requires HasPost(db.posts, RowById(db.rows, parentId).value.postId)
    ensures var row := plan.draft.(postId := RowById(db.rows, parentId).value.postId, parentId := Some(parentId));
      var d := Commit(db, row, KeyOf(plan), w, plan.cookie).0;
      Valid(d) && AppendOnly(db, d)
  {
    var parent := RowById(db.rows, parentId).value;
    var row := plan.draft.(postId := parent.postId, parentId := Some(parentId));
    var j :| 0 <= j < |db.rows| && db.rows[j] == parent;
    CommitKeepsValid(db, row, KeyOf(plan), w, plan.cookie);
  }

  // ---------------------------------------------------------------------------
  // The handlers

  /** Past its gate, the Express handler is the admission of its plan. */
  lemma ServerIsAdmit(db: Db, opts: ServerOptions, req: Request, w: World, isReply: bool)
    requires ServerGate(opts, req, w, isReply).Go?
    ensures var b := ServerGate(opts, req, w, isReply).body;
      b.bodyHtml.Some? && b.postSlug.Some? && b.idempotencyKey.Some? && b.quote.Some? && b.selectors.Some?
      && (isReply ==> b.parentId.Some?)
      && CreateOrReplyServer(db, opts, req, w, isReply)
         == Admit(db, ServerPlan(b, req, opts, w), if isReply then Some(b.parentId.value) else None, w)
  {
  }

  /** Past its gate, a Workers reply with a body is the admission of its plan. */
  lemma ReplyIsAdmit(db: Db, env: WorkersEnv, req: Request, w: World)
    requires ReplyGate(env, req, w).Go? && ReplyGate(env, req, w).body.bodyHtml.Some?
    ensures var b := ReplyGate(env, req, w).body;
      b.postSlug.Some? && b.idempotencyKey.Some? && b.parentId.Some?
      && ReplyWorkers(db, env, req, w) == AdmitReply(db, WorkersPlan(b, req, env, w, false), b.parentId.value, w)
  {
  }

  /** No gate answers 200: an accepted write got past its gate. */
  lemma CreateGateNeverAccepts(env: WorkersEnv, req: Request, w: World)
    ensures CreateGate(env, req, w).Stop? ==> CreateGate(env, req, w).response.Crash? || CreateGate(env, req, w).response.status != 200
  {
  }

  lemma ReplyGateNeverAccepts(env: WorkersEnv, req: Request, w: World)
    ensures ReplyGate(env, req, w).Stop? ==> ReplyGate(env, req, w).response.Crash? || ReplyGate(env, req, w).response.status != 200
  {
  }

  lemma ServerGateNeverAccepts(opts: ServerOptions, req: Request, w: World, isReply: bool)
    ensures ServerGate(opts, req, w, isReply).Stop? ==>
      ServerGate(opts, req, w, isReply).response.Crash? || ServerGate(opts, req, w, isReply).response.status != 200
  {
  }

  /** Past its gate, the Workers create is the admission of its plan. */
  lemma CreateIsAdmit(db: Db, env: WorkersEnv, req: Request, w: World)
    requires CreateGate(env, req, w).Go?
    ensures var b := CreateGate(env, req, w).body;
      b.bodyHtml.Some? && b.postSlug.Some? && b.idempotencyKey.Some?
      && CreateWorkers(db, env, req, w) == Admit(db, WorkersPlan(b, req, env, w, true), None, w)
  {
  }

  /** An accepted Workers create stores the sanitised body under the named post, held
      exactly when long, link-heavy or a recent repeat. */
  lemma CreateWorkersAccepted(db: Db, env: WorkersEnv, req: Request, w: World)
    requires CreateWorkers(db, env, req, w).1.Response? && CreateWorkers(db, env, req, w).1.status == 200
    ensures CreateGate(env, req, w).Go?
    ensures var b := CreateGate(env, req, w).body;
      req.body == Some(Object(b)) && CreateChecks(b).None? && w.turnstile == Passed
      && PostBySlug(db.posts, b.postSlug.value).Some?
    ensures var b := CreateGate(env, req, w).body;
      var (d, resp) := CreateWorkers(db, env, req, w);
      var html := b.bodyHtml.value;
      |d.rows| == |db.rows| + 1 && d.rows[..|db.rows|] == db.rows
      && var row := d.rows[|db.rows|];
      row.id == db.nextRowId && row.createdAt == w.nowSecs && row.parentId.None?
      && row.postId == PostBySlug(db.posts, b.postSlug.value).value.id
      && row.bodyHtml == Sanitizer.SanitizeHtml(Prefix(html, BodyHtmlMaxLength))
      && row.quote == b.quote.value && row.selectors == b.selectors.value
      && (row.state == Pending <==>
            (|html| > ModerationTextLengthThreshold || UrlCount(html) > ModerationUrlThreshold
             || RepeatCount(db.rows, b.quote.value, w.nowSecs) > 0))
      && resp.payload == CreatedReply(row.id, row.state)
      && d.settings == db.settings[IdemKey(VisitOf(req.cookie, w, true).visitorId, b.idempotencyKey.value) := NatToString(row.id)]
  {
    CreateGateNeverAccepts(env, req, w);
    CreateIsAdmit(db, env, req, w);
    var b := CreateGate(env, req, w).body;
    var plan := WorkersPlan(b, req, env, w, true);
    AdmitAccepted(db, plan, None, w);
    var d := CreateWorkers(db, env, req, w).0;
    assert d.rows[..|db.rows|] == db.rows;
  }

  /** Replaying an accepted Workers create — same body, same visitor, not rate limited —
      answers 409 with the first annotation's id and writes nothing. */
  lemma CreateWorkersReplayConflicts(db: Db, env: WorkersEnv, req: Request, w: World, req2: Request, w2: World)
    requires Valid(db)
    requires CreateWorkers(db, env, req, w).1.Response? && CreateWorkers(db, env, req, w).1.status == 200
    requires req2.body == req.body && CreateGate(env, req2, w2).Go?
    requires VisitOf(req2.cookie, w2, true).visitorId == VisitOf(req.cookie, w, true).visitorId
    requires !Guards.RateLimited(CreateWorkers(db, env, req, w).0.rows,
                                 IpHashFor(w2.mac, WorkersSalt(env), GetIpWorkers(req2.cfConnectingIp, req2.forwardedFor), w2.today),
                                 VisitOf(req2.cookie, w2, true).visitorId, w2)
    ensures var d := CreateWorkers(db, env, req, w).0;
      CreateWorkers(d, env, req2, w2)
      == (d, Response(409, ConflictReply(Some(db.nextRowId)), VisitOf(req2.cookie, w2, true).cookie))
  {
    CreateGateNeverAccepts(env, req, w);
    CreateIsAdmit(db, env, req, w);
    var d := CreateWorkers(db, env, req, w).0;
    CreateIsAdmit(d, env, req2, w2);
    var b := CreateGate(env, req, w).body;
    assert CreateGate(env, req2, w2).body == b;
    var plan := WorkersPlan(b, req, env, w, true);
    var plan2 := WorkersPlan(b, req2, env, w2, true);
    AdmitReplayConflicts(db, plan, None, w, plan2, None, w2);
  }

  /** Replaying an accepted Workers create from the same visitor within 15 seconds is
      answered 429 by the per-visitor rule, before the key is looked at. */
  lemma CreateWorkersQuickReplayLimited(db: Db, env: WorkersEnv, req: Request, w: World, req2: Request, w2: World)
    requires CreateWorkers(db, env, req, w).1.Response? && CreateWorkers(db, env, req, w).1.status == 200
    requires forall i :: 0 <= i < |db.rows| ==> db.rows[i].createdAt <= w.nowSecs
    requires req2.body == req.body && CreateGate(env, req2, w2).Go?
    requires VisitOf(req2.cookie, w2, true).visitorId == VisitOf(req.cookie, w, true).visitorId
    requires w2.parseMs(w.nowSecs) == Some(1000 * w.nowSecs) && w2.nowMs < 1000 * w.nowSecs + VisitorGapMs
    ensures var d := CreateWorkers(db, env, req, w).0;
      CreateWorkers(d, env, req2, w2) == (d, Fail(429, RateLimited, None, VisitOf(req2.cookie, w2, true).cookie))
  {
    CreateGateNeverAccepts(env, req, w);
    CreateIsAdmit(db, env, req, w);
    var d := CreateWorkers(db, env, req, w).0;
    CreateIsAdmit(d, env, req2, w2);
    var b := CreateGate(env, req, w).body;
    assert CreateGate(env, req2, w2).body == b;
    var plan := WorkersPlan(b, req, env, w, true);
    var plan2 := WorkersPlan(b, req2, env, w2, true);
    AdmitQuickReplayLimited(db, plan, None, w, plan2, None, w2);
  }

  /** An accepted Workers reply is stored under its parent's post and keeps the prepared
      state. */
  lemma ReplyWorkersAccepted(db: Db, env: WorkersEnv, req: Request, w: World)
    requires ReplyWorkers(db, env, req, w).1.Response? && ReplyWorkers(db, env, req, w).1.status == 200
    ensures ReplyGate(env, req, w).Go?
    ensures var b := ReplyGate(env, req, w).body;
      b.bodyHtml.Some? && b.quote.Some? && b.selectors.Some? && RowById(db.rows, b.parentId.value).Some?
    ensures var b := ReplyGate(env, req, w).body;
      var parent := RowById(db.rows, b.parentId.value).value;
      var (d, resp) := ReplyWorkers(db, env, req, w);
      var html := b.bodyHtml.value;
      |d.rows| == |db.rows| + 1 && d.rows[..|db.rows|] == db.rows
      && var row := d.rows[|db.rows|];
      row.id == db.nextRowId && row.parentId == b.parentId && row.postId == parent.postId
      && row.bodyHtml == Sanitizer.SanitizeHtml(Prefix(html, BodyHtmlMaxLength)) && row.quote == b.quote.value
      && (row.state == Pending <==> |html| > ModerationTextLengthThreshold || UrlCount(html) > ModerationUrlThreshold)
      && resp.payload == CreatedReply(row.id, row.state)
  {
    ReplyGateNeverAccepts(env, req, w);
    var b := ReplyGate(env, req, w).body;
    ReplyIsAdmit(db, env, req, w);
    var plan := WorkersPlan(b, req, env, w, false);
    AdmitReplyAccepted(db, plan, b.parentId.value, w);
    var d := ReplyWorkers(db, env, req, w).0;
    assert d.rows[..|db.rows|] == db.rows;
  }

  /** An accepted Express write: for a reply, the parent is a stored row of the same post. */
  lemma ServerAccepted(db: Db, opts: ServerOptions, req: Request, w: World, isReply: bool)
    requires CreateOrReplyServer(db, opts, req, w, isReply).1.Response?
    requires CreateOrReplyServer(db, opts, req, w, isReply).1.status == 200
    ensures ServerGate(opts, req, w, isReply).Go?
    ensures var b := ServerGate(opts, req, w, isReply).body;
      PostBySlug(db.posts, b.postSlug.value).Some?
    ensures var b := ServerGate(opts, req, w, isReply).body;
      var (d, resp) := CreateOrReplyServer(db, opts, req, w, isReply);
      var html := b.bodyHtml.value;
      |d.rows| == |db.rows| + 1 && d.rows[..|db.rows|] == db.rows
      && var row := d.rows[|db.rows|];
      row.id == db.nextRowId && row.postId == PostBySlug(db.posts, b.postSlug.value).value.id
      && (isReply ==> row.parentId == b.parentId && ParentStored(db.rows, row))
      && (!isReply ==> row.parentId.None?)
      && row.bodyHtml == Sanitizer.SanitizeHtml(Prefix(html, BodyHtmlMaxLength))
      && (row.state == Pending <==>
            (|html| > 2000 || UrlCount(html) > 3 || RepeatCount(db.rows, b.quote.value, w.nowSecs) > 0))
      && resp.payload == CreatedReply(row.id, row.state)
  {
    ServerGateNeverAccepts(opts, req, w, isReply);
    ServerIsAdmit(db, opts, req, w, isReply);
    var b := ServerGate(opts, req, w, isReply).body;
    var plan := ServerPlan(b, req, opts, w);
    var parent := if isReply then Some(b.parentId.value) else None;
    AdmitAccepted(db, plan, parent, w);
    var d := CreateOrReplyServer(db, opts, req, w, isReply).0;
    assert d.rows[..|db.rows|] == db.rows;
    if isReply {
      ParentMatchIsStored(db.rows, b.parentId.value, d.rows[|db.rows|]);
    }
  }

  /** A parent that matched the post is a stored parent of the row. */
  lemma ParentMatchIsStored(rows: seq<Row>, parentId: int, row: Row)
    requires ParentMatches(rows, parentId, row.postId) && row.parentId == Some(parentId)
    ensures ParentStored(rows, row)
  {
    var found := RowById(rows, parentId).value;
    var j :| 0 <= j < |rows| && rows[j] == found;
  }

  /** Every handler keeps the store well formed and only ever appends. */
  lemma CreateWorkersKeepsValid(db: Db, env: WorkersEnv, req: Request, w: World)
    requires Valid(db)
    ensures Valid(CreateWorkers(db, env, req, w).0) && AppendOnly(db, CreateWorkers(db, env, req, w).0)
  {
    if CreateGate(env, req, w).Go? {
      CreateIsAdmit(db, env, req, w);
      AdmitKeepsValid(db, WorkersPlan(CreateGate(env, req, w).body, req, env, w, true), None, w);
    }
  }

  lemma ReplyWorkersKeepsValid(db: Db, env: WorkersEnv, req: Request, w: World)
    requires Valid(db)
    ensures Valid(ReplyWorkers(db, env, req, w).0) && AppendOnly(db, ReplyWorkers(db, env, req, w).0)
  {
    if ReplyGate(env, req, w).Go? && ReplyGate(env, req, w).body.bodyHtml.Some? {
      ReplyIsAdmit(db, env, req, w);
      var b := ReplyGate(env, req, w).body;
      AdmitReplyKeepsValid(db, WorkersPlan(b, req, env, w, false), b.parentId.value, w);
    }
  }

  lemma ServerKeepsValid(db: Db, opts: ServerOptions, req: Request, w: World, isReply: bool)
    requires Valid(db)
    ensures Valid(CreateOrReplyServer(db, opts, req, w, isReply).0)
      && AppendOnly(db, CreateOrReplyServer(db, opts, req, w, isReply).0)
  {
    if ServerGate(opts, req, w, isReply).Go? {
      ServerIsAdmit(db, opts, req, w, isReply);
      var b := ServerGate(opts, req, w, isReply).body;
      AdmitKeepsValid(db, ServerPlan(b, req, opts, w), if isReply then Some(b.parentId.value) else None, w);
    }
  }

  /** Express reserves the key before it checks a reply's parent: a mismatched parent is
      refused with the key left reserved, so the corrected request resent under the same
      key conflicts. */
  lemma ServerParentMismatchBurnsKey(db: Db, opts: ServerOptions, req: Request, w: World, f: bool)
    requires CreateOrReplyServer(db, opts, req, w, true).1.Response?
    requires CreateOrReplyServer(db, opts, req, w, true).1.payload == ErrorReply(InvalidInput, Some("parent mismatch"))
    ensures ServerGate(opts, req, w, true).Go?
    ensures var key := IdemKey(VisitOf(req.cookie, w, false).visitorId, ServerGate(opts, req, w, true).body.idempotencyKey.value);
      var d := CreateOrReplyServer(db, opts, req, w, true).0;
      key !in db.settings && d == db.(settings := db.settings[key := ReservedMark])
      && Reserve(d, key, f) == (d, Conflicted(None))
  {
    if ServerGate(opts, req, w, true).Stop? {
      GateNeverMismatches(opts, req, w, true);
    }
    ServerIsAdmit(db, opts, req, w, true);
    var b := ServerGate(opts, req, w, true).body;
    var plan := ServerPlan(b, req, opts, w);
    AdmitRefusals(db, plan, Some(b.parentId.value), w);
    SecondReserveConflicts(db, KeyOf(plan), w.reserveFails, f);
  }

  /** The Express gate never answers with the parent-mismatch error. */
  lemma GateNeverMismatches(opts: ServerOptions, req: Request, w: World, isReply: bool)
    requires ServerGate(opts, req, w, isReply).Stop?
    ensures ServerGate(opts, req, w, isReply).response != Response(400, ErrorReply(InvalidInput, Some("parent mismatch")), None)
  {
    var input := if req.body.Some? then req.body.value else Null;
    var f := ValidateServer(input, isReply);
    assert f.Some? && f.value.message.Some? ==> f.value.message.value == "missing parent_id";
    assert "missing parent_id" != "parent mismatch";
  }

  /** Past both gates, with the same visitor cookie, salt and client address, the Workers
      create and the Express create do exactly the same thing. */
  lemma CreateRuntimesAgree(db: Db, env: WorkersEnv, opts: ServerOptions, req: Request, w: World)
    requires CreateGate(env, req, w).Go? && ServerGate(opts, req, w, false).Go?
    requires WorkersSalt(env) == opts.salt
    requires GetIpWorkers(req.cfConnectingIp, req.forwardedFor) == GetIpExpress(req.forwardedFor, req.remoteAddress)
    requires Truthy(GetCookie(req.cookie, VisitorCookie, w.decode))
    ensures CreateWorkers(db, env, req, w) == CreateOrReplyServer(db, opts, req, w, false)
  {
    CreateIsAdmit(db, env, req, w);
    ServerIsAdmit(db, opts, req, w, false);
    var b := CreateGate(env, req, w).body;
    assert ServerGate(opts, req, w, false).body == b;
    PlansAgree(b, req, env, opts, w);
  }

  /** With the same visitor cookie, salt and client address, both runtimes plan the same
      row. */
  lemma PlansAgree(b: Body, req: Request, env: WorkersEnv, opts: ServerOptions, w: World)
    requires b.bodyHtml.Some? && b.postSlug.Some? && b.idempotencyKey.Some? && b.quote.Some? && b.selectors.Some?
    requires WorkersSalt(env) == opts.salt
    requires GetIpWorkers(req.cfConnectingIp, req.forwardedFor) == GetIpExpress(req.forwardedFor, req.remoteAddress)
    requires Truthy(GetCookie(req.cookie, VisitorCookie, w.decode))
    ensures WorkersPlan(b, req, env, w, true) == ServerPlan(b, req, opts, w)
  {
    FlagsAgreeWithPrepare(b.bodyHtml.value, b.idempotencyKey.value, b.kind);
  }
}
