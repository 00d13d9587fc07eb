/** The annotation write pipeline in both runtimes: the Workers create and reply handlers
    (functions/api/annotations/create.ts, reply.ts) and the Express `handleCreateOrReply`
    (src/server/routes/annotations.ts). Each handler is a method that works on a `Store`
    in place and is proved equal to a function of the snapshot it started from. */
module Pipeline {
  import opened Text
  import opened Kinds
  import opened Validation
  import opened Content
  import Sanitizer
  import opened Http
  import opened Storage
  import opened Guards

  /** The headers a handler reads, and the parsed JSON body (None when it does not parse). */
  datatype Request = Request(
    origin: Option<string>,
    referer: Option<string>,
    cookie: Option<string>,
    cfConnectingIp: Option<string>,
    forwardedFor: Option<string>,
    remoteAddress: Option<string>,
    body: Option<JsonValue>)

  /** The Workers bindings: `ORIGIN_HOST`, `TURNSTILE_SECRET`, `SALT_IP_HASH`. */
  datatype WorkersEnv = WorkersEnv(originHost: Option<string>, turnstileSecret: Option<string>, salt: Option<string>)

  /** The options of the Express router. */
  datatype ServerOptions = ServerOptions(originHost: string, salt: string)

  datatype Payload =
    | ErrorReply(code: ErrorCode, message: Option<string>)
    | ConflictReply(existing: Option<nat>)
    | CreatedReply(id: nat, state: State)
    | RowsReply(rows: seq<Row>)
    | OkReply
    | AcceptedReply
    | PostReply(created: bool, postId: nat)

  /** A JSON response with its `set-cookie` line, if any; `Crash` is an exception that no
      handler catches. */
  datatype Response = Response(status: nat, payload: Payload, setCookie: Option<string>) | Crash

  function Fail(status: nat, code: ErrorCode, message: Option<string>, cookie: Option<string>): Response {
    Response(status, ErrorReply(code, message), cookie)
  }

  /** The outcome of the checks that run before the store is touched. */
  datatype Gate = Stop(response: Response) | Go(body: Body)

  /** The fields of a parsed value: a primitive has none. */
  function FieldsOf(v: JsonValue): Body {
    if v.Object? then v.body else Body(None, None, None, None, None, None, None, None, None)
  }

  const VisitorCookie := "visitor_id"
  const VisitorMaxAge := 60 * 60 * 24 * 365

  /** The visitor id and the cookie line minted with it when the request had none. */
  datatype Visit = Visit(visitorId: string, cookie: Option<string>)

  function VisitOf(header: Option<string>, w: World, workers: bool): (v: Visit)
    ensures Truthy(GetCookie(header, VisitorCookie, w.decode)) ==> v == Visit(GetCookie(header, VisitorCookie, w.decode).value, None)
    ensures !Truthy(GetCookie(header, VisitorCookie, w.decode)) ==> v.visitorId == w.uuid && v.cookie.Some?
  {
    var fromCookie := GetCookie(header, VisitorCookie, w.decode);
    if Truthy(fromCookie) then Visit(fromCookie.value, None)
    else
      var parts := if workers then WorkersCookieParts(VisitorCookie, w.encode(w.uuid), Some(VisitorMaxAge))
                   else ExpressCookieParts(VisitorCookie, w.encode(w.uuid), Some(VisitorMaxAge));
      Visit(w.uuid, Some(JoinParts(parts)))
  }

  /** Everything a write handler computes before it touches the store: the visitor, the
      post it names, the client's idempotency key, the address fingerprint and the row it would
      insert (post, parent, id and time still unset). `complete` says the body has the
      quote and selector envelope an insert binds; `hold` says the repeat hold applies. */
  datatype Plan = Plan(
    visitorId: string,
    cookie: Option<string>,
    slug: string,
    idempotencyKey: string,
    ipHash: string,
    draft: Row,
    complete: bool,
    hold: bool)

  /** The settings key of the plan's reservation. */
  function KeyOf(plan: Plan): string {
    IdemKey(plan.visitorId, plan.idempotencyKey)
  }

  function DraftRow(b: Body, sanitized: string, state: State, visitorId: string, ipHash: string, signals: Signals): (r: Row)
    ensures b.quote.Some? ==> r.quote == b.quote.value
    ensures b.selectors.Some? ==> r.selectors == b.selectors.value
    ensures r.ipHash.None? <==> ipHash == []
  {
    Row(0, 0, None, b.displayName, sanitized,
        if b.selectors.Some? then b.selectors.value else Envelope("", "", None),
        if b.quote.Some? then b.quote.value else "",
        state, visitorId, if ipHash == [] then None else Some(ipHash), signals, 0)
  }

  /** Insert the row, then finalise the key to the new id. An insert that throws answers
      500 and leaves the key reserved; so does a failing finalise, after the row is in. */
  function Commit(db: Db, row: Row, idemKey: string, w: World, cookie: Option<string>): (r: (Db, Response))
  {
    if w.insertFails then (db, Fail(500, InternalError, None, cookie))
    else
      var id := db.nextRowId;
      var added := AddRow(db, row, w.nowSecs);
      if w.finalizeFails then (added, Fail(500, InternalError, None, cookie))
      else (added.(settings := UpdateSetting(added.settings, idemKey, NatToString(id))),
            Response(200, CreatedReply(id, row.state), cookie))
  }

  method CommitRow(st: Store, row: Row, idemKey: string, w: World, cookie: Option<string>) returns (resp: Response)
    modifies st
    ensures (st.Snapshot(), resp) == Commit(old(st.Snapshot()), row, idemKey, w, cookie)
  {
    if w.insertFails {
      return Fail(500, InternalError, None, cookie);
    }
    var id := st.InsertRow(row, w.nowSecs);
    if w.finalizeFails {
      return Fail(500, InternalError, None, cookie);
    }
    st.PutSetting(idemKey, NatToString(id));
    resp := Response(200, CreatedReply(id, row.state), cookie);
  }

  /** The row of an admitted write: its post and parent, and the repeat hold on its state. */
  function Finished(db: Db, plan: Plan, postId: nat, parentId: Option<int>, w: World): (r: Row)
    ensures r.postId == postId && r.parentId == parentId
    ensures plan.hold ==> (r.state == Pending <==> plan.draft.state == Pending || RepeatCount(db.rows, plan.draft.quote, w.nowSecs) > 0)
    ensures !plan.hold ==> r.state == plan.draft.state
    ensures r.(state := plan.draft.state, postId := 0, parentId := None) == plan.draft.(postId := 0, parentId := None)
  {
    var state := if plan.hold then ApplyRepeatHold(plan.draft.state, RepeatCount(db.rows, plan.draft.quote, w.nowSecs))
                 else plan.draft.state;
    plan.draft.(postId := postId, parentId := parentId, state := state)
  }

  /** The store steps shared by the Workers create handler and `handleCreateOrReply`: the
      post, the two rate rules, the reservation, for a reply the parent (after the key is
      reserved), the repeat hold and the commit. */
  function Admit(db: Db, plan: Plan, parent: Option<int>, w: World): (r: (Db, Response)) {
    var post := PostBySlug(db.posts, plan.slug);
    if post.None? || post.value.id == 0 then (db, Fail(404, NotFound, None, plan.cookie))
    else if Guards.RateLimited(db.rows, plan.ipHash, plan.visitorId, w) then (db, Fail(429, RateLimited, None, plan.cookie))
    else
      var (db1, reservation) := Reserve(db, KeyOf(plan), w.reserveFails);
      if reservation.Conflicted? then (db1, Response(409, ConflictReply(reservation.id), plan.cookie))
      else if parent.Some? && !ParentMatches(db1.rows, parent.value, post.value.id) then
        (db1, Fail(400, InvalidInput, Some("parent mismatch"), plan.cookie))
      else Commit(db1, Finished(db1, plan, post.value.id, parent, w), KeyOf(plan), w, plan.cookie)
  }

  /** The parent is a stored row (with a truthy id) of the given post. */
  predicate ParentMatches(rows: seq<Row>, parentId: int, postId: nat) {
    var parent := RowById(rows, parentId);
    parent.Some? && parent.value.id != 0 && parent.value.postId == postId
  }

  method AdmitRow(st: Store, plan: Plan, parent: Option<int>, w: World) returns (resp: Response)
    modifies st
    ensures (st.Snapshot(), resp) == Admit(old(st.Snapshot()), plan, parent, w)
  {
    var post := PostBySlug(st.posts, plan.slug);
    if post.None? || post.value.id == 0 {
      return Fail(404, NotFound, None, plan.cookie);
    }
    if Guards.RateLimited(st.rows, plan.ipHash, plan.visitorId, w) {
      return Fail(429, RateLimited, None, plan.cookie);
    }
    var reservation := ReserveIdempotency(st, plan.visitorId, plan.idempotencyKey, w.reserveFails);
    if reservation.Conflicted? {
      return Response(409, ConflictReply(reservation.id), plan.cookie);
    }
    if parent.Some? {
      var found := RowById(st.rows, parent.value);
      if found.None? || found.value.id == 0 || found.value.postId != post.value.id {
        return Fail(400, InvalidInput, Some("parent mismatch"), plan.cookie);
      }
    }
    var row := plan.draft.(postId := post.value.id, parentId := parent);
    if plan.hold && RepeatCount(st.rows, plan.draft.quote, w.nowSecs) > 0 {
      row := row.(state := Pending);
    }
    resp := CommitRow(st, row, KeyOf(plan), w, plan.cookie);
  }

  /** The store steps of the Workers reply handler: the parent first, then its post, the
      rate rules and the reservation; an incomplete body fails at the insert. No repeat
      hold. */
  function AdmitReply(db: Db, plan: Plan, parentId: int, w: World): (r: (Db, Response)) {
    var parent := RowById(db.rows, parentId);
    if parent.None? || parent.value.id == 0 then (db, Fail(404, NotFound, None, plan.cookie))
    else
      var post := PostBySlug(db.posts, plan.slug);
      if post.None? || post.value.id == 0 || post.value.id != parent.value.postId then
        (db, Fail(400, InvalidInput, Some("post mismatch"), plan.cookie))
      else if Guards.RateLimited(db.rows, plan.ipHash, plan.visitorId, w) then (db, Fail(429, RateLimited, None, plan.cookie))
      else
        var (db1, reservation) := Reserve(db, KeyOf(plan), w.reserveFails);
        if reservation.Conflicted? then (db1, Response(409, ConflictReply(reservation.id), plan.cookie))
        else if !plan.complete then (db1, Fail(500, InternalError, None, plan.cookie))
        else Commit(db1, plan.draft.(postId := parent.value.postId, parentId := Some(parentId)), KeyOf(plan), w, plan.cookie)
  }

  method AdmitReplyRow(st: Store, plan: Plan, parentId: int, w: World) returns (resp: Response)
    modifies st
    ensures (st.Snapshot(), resp) == AdmitReply(old(st.Snapshot()), plan, parentId, w)
  {
    var parent := RowById(st.rows, parentId);
    if parent.None? || parent.value.id == 0 {
      return Fail(404, NotFound, None, plan.cookie);
    }
    var post := PostBySlug(st.posts, plan.slug);
    if post.None? || post.value.id == 0 || post.value.id != parent.value.postId {
      return Fail(400, InvalidInput, Some("post mismatch"), plan.cookie);
    }
    if Guards.RateLimited(st.rows, plan.ipHash, plan.visitorId, w) {
      return Fail(429, RateLimited, None, plan.cookie);
    }
    var reservation := ReserveIdempotency(st, plan.visitorId, plan.idempotencyKey, w.reserveFails);
    if reservation.Conflicted? {
      return Response(409, ConflictReply(reservation.id), plan.cookie);
    }
    if !plan.complete {
      return Fail(500, InternalError, None, plan.cookie);
    }
    resp := CommitRow(st, plan.draft.(postId := parent.value.postId, parentId := Some(parentId)), KeyOf(plan), w, plan.cookie);
  }

  // ---------------------------------------------------------------------------
  // Workers: create and reply

  function WorkersSalt(env: WorkersEnv): string {
    if Truthy(env.salt) then env.salt.value else "dev-salt"
  }

  /** The plan of a Workers handler: src/functions/api/annotations/create.ts:53-59 computes
      the sanitised body, the URL count and the moderation state inline, and the plan takes
      them from `PrepareContent`, which applies the same constants and the same
      (as-written) `sanitizeHtml`; the
      fingerprint from `CF-Connecting-IP` or the first `X-Forwarded-For` entry. */
  function WorkersPlan(b: Body, req: Request, env: WorkersEnv, w: World, hold: bool): (p: Plan)
    requires b.bodyHtml.Some? && b.postSlug.Some? && b.idempotencyKey.Some?
    ensures var html := b.bodyHtml.value;
      p.draft.bodyHtml == Sanitizer.SanitizeHtml(Prefix(html, BodyHtmlMaxLength))
      && (p.draft.state == Pending <==> |html| > ModerationTextLengthThreshold || UrlCount(html) > ModerationUrlThreshold)
      && p.draft.state != State.Rejected
      && p.draft.signals == Signals(UrlCount(html), |html| > ModerationTextLengthThreshold, b.idempotencyKey.value)
    ensures p.visitorId == VisitOf(req.cookie, w, true).visitorId && p.cookie == VisitOf(req.cookie, w, true).cookie
    ensures p.idempotencyKey == b.idempotencyKey.value && p.slug == b.postSlug.value
    ensures p.ipHash == IpHashFor(w.mac, WorkersSalt(env), GetIpWorkers(req.cfConnectingIp, req.forwardedFor), w.today)
    ensures p.complete <==> b.quote.Some? && b.selectors.Some?
    ensures p.complete ==> p.draft.quote == b.quote.value && p.draft.selectors == b.selectors.value
    ensures p.draft.displayName == b.displayName && p.draft.visitorId == p.visitorId && p.hold == hold
  {
    var visit := VisitOf(req.cookie, w, true);
    var prepared := PrepareContent(b.bodyHtml.value, b.idempotencyKey.value, b.kind);
    var ipHash := IpHashFor(w.mac, WorkersSalt(env), GetIpWorkers(req.cfConnectingIp, req.forwardedFor), w.today);
    Plan(visit.visitorId, visit.cookie, b.postSlug.value, b.idempotencyKey.value, ipHash,
         DraftRow(b, prepared.sanitizedHtml, prepared.state, visit.visitorId, ipHash, prepared.signals),
         b.quote.Some? && b.selectors.Some?, hold)
  }

  /** functions/api/annotations/create.ts up to the Turnstile gate. */
  function CreateGate(env: WorkersEnv, req: Request, w: World): (g: Gate)
    ensures g.Go? ==> CreateChecks(g.body).None? && w.turnstile == Passed && Truthy(env.turnstileSecret)
    ensures g.Go? ==> req.body == Some(Object(g.body))
  {
    if !SameOriginWorkers(env.originHost, req.origin, req.referer, w.hostOf) then Stop(Fail(403, BadOrigin, Some("forbidden"), None))
    else if req.body.None? then Stop(Fail(400, InvalidInput, Some("invalid json"), None))
    else if req.body.value.Null? then Stop(Crash)
    else
      var b := FieldsOf(req.body.value);
      match CreateChecks(b)
      case Some(f) => Stop(Fail(f.status, f.code, f.message, None))
      case None =>
        if !Truthy(env.turnstileSecret) then Stop(Fail(500, InternalError, Some("missing TURNSTILE_SECRET"), None))
        else match w.turnstile
          case Errored => Stop(Fail(500, InternalError, Some("turnstile failed"), None))
          case Rejected => Stop(Fail(403, BotSuspected, None, None))
          case Passed => Go(b)
  }

  /** `onRequestPost` of functions/api/annotations/create.ts, as a function of the store. */
  function CreateWorkers(db: Db, env: WorkersEnv, req: Request, w: World): (r: (Db, Response)) {
    match CreateGate(env, req, w)
    case Stop(resp) => (db, resp)
    case Go(b) => Admit(db, WorkersPlan(b, req, env, w, true), None, w)
  }

  method HandleCreateWorkers(st: Store, env: WorkersEnv, req: Request, w: World) returns (resp: Response)
    modifies st
    ensures (st.Snapshot(), resp) == CreateWorkers(old(st.Snapshot()), env, req, w)
  {
    var gate := CreateGate(env, req, w);
    if gate.Stop? {
      return gate.response;
    }
    var plan := WorkersPlan(gate.body, req, env, w, true);
    resp := AdmitRow(st, plan, None, w);
  }

  /** functions/api/annotations/reply.ts up to the Turnstile gate. */
  function ReplyGate(env: WorkersEnv, req: Request, w: World): (g: Gate)
    ensures g.Go? ==> ReplyChecks(g.body).None? && w.turnstile == Passed && Truthy(env.turnstileSecret)
    ensures g.Go? ==> req.body == Some(Object(g.body))
  {
    if !SameOriginWorkers(env.originHost, req.origin, req.referer, w.hostOf) then Stop(Fail(403, BadOrigin, None, None))
    else if req.body.None? then Stop(Fail(400, InvalidInput, None, None))
    else if req.body.value.Null? then Stop(Crash)
    else
      var b := FieldsOf(req.body.value);
      match ReplyChecks(b)
      case Some(f) => Stop(Fail(f.status, f.code, f.message, None))
      case None =>
        if !Truthy(env.turnstileSecret) then Stop(Fail(500, InternalError, None, None))
        else match w.turnstile
          case Errored => Stop(Fail(500, InternalError, None, None))
          case Rejected => Stop(Fail(403, BotSuspected, None, None))
          case Passed => Go(b)
  }

  /** `onRequestPost` of functions/api/annotations/reply.ts. A body without `body_html`
      throws on `.match` outside the handler's `try`. */
  function ReplyWorkers(db: Db, env: WorkersEnv, req: Request, w: World): (r: (Db, Response)) {
    match ReplyGate(env, req, w)
    case Stop(resp) => (db, resp)
    case Go(b) =>
      if b.bodyHtml.None? then (db, Crash)
      else AdmitReply(db, WorkersPlan(b, req, env, w, false), b.parentId.value, w)
  }

  method HandleReplyWorkers(st: Store, env: WorkersEnv, req: Request, w: World) returns (resp: Response)
    modifies st
    ensures (st.Snapshot(), resp) == ReplyWorkers(old(st.Snapshot()), env, req, w)
  {
    var gate := ReplyGate(env, req, w);
    if gate.Stop? {
      return gate.response;
    }
    var b := gate.body;
    if b.bodyHtml.None? {
      return Crash;
    }
    var plan := WorkersPlan(b, req, env, w, false);
    resp := AdmitReplyRow(st, plan, b.parentId.value, w);
  }

  // ---------------------------------------------------------------------------
  // Express: create and reply

  /** `handleCreateOrReply` up to the Turnstile gate. A request without a parsed body is
      treated as `null`. */
  function ServerGate(opts: ServerOptions, req: Request, w: World, isReply: bool): (g: Gate)
    ensures g.Go? ==> ValidateServer(Object(g.body), isReply).None? && w.turnstile == Passed
    ensures g.Go? ==> req.body == Some(Object(g.body))
  {
    var input := if req.body.Some? then req.body.value else Null;
    if !SameOriginExpress(opts.originHost, req.origin, req.referer, w.hostOf) then Stop(Fail(403, BadOrigin, None, None))
    else match ValidateServer(input, isReply)
      case Some(f) => Stop(Fail(f.status, f.code, f.message, None))
      case None =>
        match w.turnstile
        case Errored => Stop(Fail(500, InternalError, Some("turnstile failed"), None))
        case Rejected => Stop(Fail(403, BotSuspected, None, None))
        case Passed => Go(input.body)
  }

  /** The plan of `handleCreateOrReply`: `moderationFlags` on the raw body, the sanitised
      first 8000 characters, the fingerprint from `getIp`. */
  function ServerPlan(b: Body, req: Request, opts: ServerOptions, w: World): (p: Plan)
    requires b.bodyHtml.Some? && b.postSlug.Some? && b.idempotencyKey.Some? && b.quote.Some? && b.selectors.Some?
    ensures var html := b.bodyHtml.value;
      p.draft.bodyHtml == Sanitizer.SanitizeHtml(Prefix(html, BodyHtmlMaxLength))
      && (p.draft.state == Pending <==> |html| > 2000 || UrlCount(html) > 3)
      && p.draft.state != State.Rejected
    ensures p.visitorId == VisitOf(req.cookie, w, false).visitorId && p.cookie == VisitOf(req.cookie, w, false).cookie
    ensures p.idempotencyKey == b.idempotencyKey.value && p.slug == b.postSlug.value
    ensures p.ipHash == IpHashFor(w.mac, opts.salt, GetIpExpress(req.forwardedFor, req.remoteAddress), w.today)
    ensures p.complete && p.hold && p.draft.quote == b.quote.value && p.draft.selectors == b.selectors.value
  {
    var visit := VisitOf(req.cookie, w, false);
    var flags := ModerationFlags(b.bodyHtml.value);
    var sanitized := Sanitizer.SanitizeHtml(Prefix(b.bodyHtml.value, BodyHtmlMaxLength));
    var ipHash := IpHashFor(w.mac, opts.salt, GetIpExpress(req.forwardedFor, req.remoteAddress), w.today);
    var signals := Signals(flags.urlCount, flags.tooLong, b.idempotencyKey.value);
    Plan(visit.visitorId, visit.cookie, b.postSlug.value, b.idempotencyKey.value, ipHash,
         DraftRow(b, sanitized, flags.state, visit.visitorId, ipHash, signals), true, true)
  }

  /** `handleCreateOrReply` of src/server/routes/annotations.ts. */
  function CreateOrReplyServer(db: Db, opts: ServerOptions, req: Request, w: World, isReply: bool): (r: (Db, Response)) {
    match ServerGate(opts, req, w, isReply)
    case Stop(resp) => (db, resp)
    case Go(b) => Admit(db, ServerPlan(b, req, opts, w), if isReply then Some(b.parentId.value) else None, w)
  }

  method HandleCreateOrReplyServer(st: Store, opts: ServerOptions, req: Request, w: World, isReply: bool) returns (resp: Response)
    modifies st
    ensures (st.Snapshot(), resp) == CreateOrReplyServer(old(st.Snapshot()), opts, req, w, isReply)
  {
    var gate := ServerGate(opts, req, w, isReply);
    if gate.Stop? {
      return gate.response;
    }
    var b := gate.body;
    var plan := ServerPlan(b, req, opts, w);
    resp := AdmitRow(st, plan, if isReply then Some(b.parentId.value) else None, w);
  }
}
