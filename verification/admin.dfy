/** The administrative writes: the moderator's state change (functions/api/mod/update.ts
    and `POST /update` of src/server/routes/mod.ts), the post upsert of the publishing
    side (functions/api/posts/upsert.ts and src/server/routes/posts-api.ts) and the
    Express report endpoint (`POST /report` of src/server/routes/annotations.ts). Each
    handler is a method on the `Store`, proved equal to a function of the snapshot it
    started from. */
module Admin {
  import opened Text
  import opened Kinds
  import opened Validation
  import opened Http
  import opened Storage
  import opened Pipeline

  /** A JSON body as `request.json()` leaves it: it did not parse, it is `null`, or it is a
      value whose fields are read (a primitive or an array has none of them). */
  datatype Parsed<T> = Unparsable | JsonNull | Fields(fields: T)

  // ---------------------------------------------------------------------------
  // Moderation

  /** The fields of a moderation request; `id` is None when it is absent. */
  datatype StateChange = StateChange(id: Option<int>, state: Option<string>)

  /** `['published', 'rejected'].includes(state)`: the two states a moderator may set. */
  function TargetState(s: Option<string>): (r: Option<State>)
    ensures r == Some(Published) <==> s == Some("published")
    ensures r == Some(State.Rejected) <==> s == Some("rejected")
    ensures r != Some(Pending)
  {
    if s == Some("published") then Some(Published)
    else if s == Some("rejected") then Some(State.Rejected)
    else None
  }

  /** The rule both handlers apply to a body they could read: a falsy id or another state
      is refused, a store fault is a 500, otherwise the rows with that id take the state
      and the reply is `{ ok: true }`. */
  function ModUpdate(db: Db, c: StateChange, fails: bool): (r: (Db, Response))
    ensures r.1.Response? && r.1.setCookie.None?
    ensures r.1.status == 200 <==> TruthyId(c.id) && TargetState(c.state).Some? && !fails
    ensures r.1.status != 200 ==> r.0 == db
    ensures !TruthyId(c.id) || TargetState(c.state).None? ==> r.1 == Fail(400, InvalidInput, None, None)
  {
    if !TruthyId(c.id) || TargetState(c.state).None? then (db, Fail(400, InvalidInput, None, None))
    else if fails then (db, Fail(500, InternalError, None, None))
    else (db.(rows := SetState(db.rows, c.id.value, TargetState(c.state).value)), Response(200, OkReply, None))
  }

  /** The Workers handler: a body that does not parse is refused, and `null` has no id. */
  function ModUpdateWorkers(db: Db, input: Parsed<StateChange>, fails: bool): (Db, Response) {
    match input
    case Unparsable => (db, Fail(400, InvalidInput, None, None))
    case JsonNull => (db, Fail(400, InvalidInput, None, None))
    case Fields(c) => ModUpdate(db, c, fails)
  }

  /** `POST /update` of the Express router, whose JSON parser always leaves an object. */
  method HandleModUpdate(st: Store, c: StateChange, fails: bool) returns (resp: Response)
    modifies st
    ensures (st.Snapshot(), resp) == ModUpdate(old(st.Snapshot()), c, fails)
  {
    var target := TargetState(c.state);
    if !TruthyId(c.id) || target.None? {
      return Fail(400, InvalidInput, None, None);
    }
    if fails {
      return Fail(500, InternalError, None, None);
    }
    st.PutState(c.id.value, target.value);
    resp := Response(200, OkReply, None);
  }

  /** functions/api/mod/update.ts. */
  method HandleModUpdateWorkers(st: Store, input: Parsed<StateChange>, fails: bool) returns (resp: Response)
    modifies st
    ensures (st.Snapshot(), resp) == ModUpdateWorkers(old(st.Snapshot()), input, fails)
  {
    match input {
      case Unparsable =>
        resp := Fail(400, InvalidInput, None, None);
      case JsonNull =>
        resp := Fail(400, InvalidInput, None, None);
      case Fields(c) =>
        resp := HandleModUpdate(st, c, fails);
    }
  }

  /** The Workers handler treats `null` as a body without fields, and otherwise applies
      the same rule as the Express one. */
  lemma ModUpdateRuntimesAgree(db: Db, input: Parsed<StateChange>, fails: bool)
    ensures input.Fields? ==> ModUpdateWorkers(db, input, fails) == ModUpdate(db, input.fields, fails)
    ensures input.JsonNull? ==> ModUpdateWorkers(db, input, fails) == ModUpdate(db, StateChange(None, None), fails)
    ensures input.Unparsable? ==> ModUpdateWorkers(db, input, fails) == (db, Fail(400, InvalidInput, None, None))
  {
  }

  /** A successful update changes the state of the rows with that id, and no other field
      of any row and no other table. */
  lemma ModUpdateEffect(db: Db, c: StateChange, fails: bool)
    requires ModUpdate(db, c, fails).1.status == 200
    ensures var d := ModUpdate(db, c, fails).0;
      && d.posts == db.posts && d.settings == db.settings && d.reports == db.reports
      && d.nextPostId == db.nextPostId && d.nextRowId == db.nextRowId
      && |d.rows| == |db.rows|
      && (forall i :: 0 <= i < |db.rows| ==> d.rows[i].(state := db.rows[i].state) == db.rows[i])
      && (forall i :: 0 <= i < |db.rows| && db.rows[i].id == c.id.value ==> d.rows[i].state == TargetState(c.state).value)
      && (forall i :: 0 <= i < |db.rows| && db.rows[i].id != c.id.value ==> d.rows[i] == db.rows[i])
  {
    var d := ModUpdate(db, c, fails).0;
    assert d.rows == SetState(db.rows, c.id.value, TargetState(c.state).value);
  }

  /** A moderator never makes an annotation pending: a row pending afterwards was pending
      before. */
  lemma ModUpdateNeverHolds(db: Db, c: StateChange, fails: bool)
    ensures var d := ModUpdate(db, c, fails).0;
      |d.rows| == |db.rows| && forall i :: 0 <= i < |d.rows| && d.rows[i].state == Pending ==> db.rows[i].state == Pending
  {
    var d := ModUpdate(db, c, fails).0;
    if ModUpdate(db, c, fails).1.status == 200 {
      ModUpdateEffect(db, c, fails);
      forall i | 0 <= i < |d.rows| && d.rows[i].state == Pending
        ensures db.rows[i].state == Pending
      {
        assert db.rows[i].id != c.id.value;
      }
    }
  }

  /** Repeating a successful update succeeds again and changes nothing more. */
  lemma ModUpdateIdempotent(db: Db, c: StateChange)
    requires ModUpdate(db, c, false).1.status == 200
    ensures var d := ModUpdate(db, c, false).0;
      ModUpdate(d, c, false) == (d, Response(200, OkReply, None))
  {
    var d := ModUpdate(db, c, false).0;
    var e := SetState(d.rows, c.id.value, TargetState(c.state).value);
    ModUpdateEffect(db, c, false);
    forall i | 0 <= i < |e|
      ensures e[i] == d.rows[i]
    {
      if d.rows[i].id == c.id.value {
        assert db.rows[i].id == c.id.value;
      }
    }
    assert e == d.rows;
  }

  /** An id that names no row still gets `{ ok: true }`, and nothing changes. */
  lemma UnknownIdAcknowledged(db: Db, c: StateChange)
    requires TruthyId(c.id) && TargetState(c.state).Some?
    requires forall i :: 0 <= i < |db.rows| ==> db.rows[i].id != c.id.value
    ensures ModUpdate(db, c, false) == (db, Response(200, OkReply, None))
  {
    var e := SetState(db.rows, c.id.value, TargetState(c.state).value);
    assert e == db.rows;
  }

  /** State changes keep the store well formed. */
  lemma ModUpdateKeepsValid(db: Db, c: StateChange, fails: bool)
    requires Valid(db)
    ensures Valid(ModUpdate(db, c, fails).0)
  {
    if ModUpdate(db, c, fails).1.status == 200 {
      SetStateKeepsValid(db, c.id.value, TargetState(c.state).value);
    }
  }

  // ---------------------------------------------------------------------------
  // Post upsert

  /** The fields of an upsert body; each is None when absent or null. */
  datatype PostFields = PostFields(
    slug: Option<string>,
    html: Option<string>,
    plainText: Option<string>,
    revision: Option<int>,
    contentHash: Option<string>,
    publishedAt: Option<string>)

  /** `slug`, `html` and `plain_text` are all truthy. */
  predicate Complete(b: PostFields) {
    Truthy(b.slug) && Truthy(b.html) && Truthy(b.plainText)
  }

  function EditOf(b: PostFields): PostEdit
    requires Complete(b)
  {
    PostEdit(b.html.value, b.plainText.value, b.revision, b.contentHash, b.publishedAt)
  }

  /** The post `INSERT INTO posts …` adds, before it takes its id: `revision ?? 1`. */
  function NewPost(b: PostFields): (p: Post)
    requires Complete(b)
    ensures p.slug == b.slug.value && p.html == b.html.value && p.plainText == b.plainText.value
    ensures b.revision.None? ==> p.revision == 1
  {
    Post(0, b.slug.value, b.html.value, b.plainText.value,
         if b.revision.Some? then b.revision.value else 1, b.contentHash, b.publishedAt)
  }

  /** The store half of both upsert handlers: a post of that slug with a truthy id is
      edited in place and reported as updated; otherwise a new post is inserted and
      reported as created with its new id; a store fault is a 500. */
  function SavePost(db: Db, b: PostFields, fails: bool): (r: (Db, Response))
    requires Complete(b)
    ensures r.1.Response? && r.1.setCookie.None?
    ensures fails ==> r == (db, Fail(500, InternalError, None, None))
    ensures !fails ==> r.1.status == 200 && r.1.payload.PostReply?
    ensures r.0.rows == db.rows && r.0.settings == db.settings && r.0.reports == db.reports && r.0.nextRowId == db.nextRowId
  {
    if fails then (db, Fail(500, InternalError, None, None))
    else
      var existing := PostBySlug(db.posts, b.slug.value);
      if existing.Some? && existing.value.id != 0 then
        (db.(posts := RevisePosts(db.posts, existing.value.id, EditOf(b))),
         Response(200, PostReply(false, existing.value.id), None))
      else
        (db.(posts := db.posts + [NewPost(b).(id := db.nextPostId)], nextPostId := db.nextPostId + 1),
         Response(200, PostReply(true, db.nextPostId), None))
  }

  /** functions/api/posts/upsert.ts: a body that does not parse is refused with `invalid
      json`; `null` throws on the first field read, outside the handler's `try`. */
  function UpsertWorkers(db: Db, input: Parsed<PostFields>, fails: bool): (Db, Response) {
    match input
    case Unparsable => (db, Fail(400, InvalidInput, Some("invalid json"), None))
    case JsonNull => (db, Crash)
    case Fields(b) =>
      if !Complete(b) then (db, Fail(400, InvalidInput, Some("missing fields"), None))
      else SavePost(db, b, fails)
  }

  /** `POST /upsert` of src/server/routes/posts-api.ts: the same without messages. */
  function UpsertServer(db: Db, b: PostFields, fails: bool): (Db, Response) {
    if !Complete(b) then (db, Fail(400, InvalidInput, None, None))
    else SavePost(db, b, fails)
  }

  /** The two upsert routes differ only in the refusal message and in what a body that
      is not an object does: a parsed object leaves the same store, an incomplete one is a
      400 `invalid_input` that changes nothing on both, and a complete one is saved alike. */
  lemma UpsertRuntimesAgree(db: Db, b: PostFields, fails: bool)
    ensures UpsertWorkers(db, Fields(b), fails).0 == UpsertServer(db, b, fails).0
    ensures !Complete(b) ==> (UpsertWorkers(db, Fields(b), fails).0 == db
      && UpsertWorkers(db, Fields(b), fails).1.Response? && UpsertWorkers(db, Fields(b), fails).1.status == 400
      && UpsertServer(db, b, fails).1 == Fail(400, InvalidInput, None, None))
    ensures Complete(b) ==> UpsertWorkers(db, Fields(b), fails) == UpsertServer(db, b, fails)
  {
  }

  method WritePost(st: Store, b: PostFields, fails: bool) returns (resp: Response)
    requires Complete(b)
    modifies st
    ensures (st.Snapshot(), resp) == SavePost(old(st.Snapshot()), b, fails)
  {
    if fails {
      return Fail(500, InternalError, None, None);
    }
    var existing := PostBySlug(st.posts, b.slug.value);
    if existing.Some? && existing.value.id != 0 {
      st.RevisePost(existing.value.id, EditOf(b));
      resp := Response(200, PostReply(false, existing.value.id), None);
    } else {
      var id := st.InsertPost(NewPost(b));
      resp := Response(200, PostReply(true, id), None);
    }
  }

  method HandleUpsertWorkers(st: Store, input: Parsed<PostFields>, fails: bool) returns (resp: Response)
    modifies st
    ensures (st.Snapshot(), resp) == UpsertWorkers(old(st.Snapshot()), input, fails)
  {
    match input {
      case Unparsable =>
        resp := Fail(400, InvalidInput, Some("invalid json"), None);
      case JsonNull =>
        resp := Crash;
      case Fields(b) =>
        if !Complete(b) {
          resp := Fail(400, InvalidInput, Some("missing fields"), None);
        } else {
          resp := WritePost(st, b, fails);
        }
    }
  }

  method HandleUpsertServer(st: Store, b: PostFields, fails: bool) returns (resp: Response)
    modifies st
    ensures (st.Snapshot(), resp) == UpsertServer(old(st.Snapshot()), b, fails)
  {
    if !Complete(b) {
      resp := Fail(400, InvalidInput, None, None);
    } else {
      resp := WritePost(st, b, fails);
    }
  }

  /** With unique slugs, the lookup finds the one post that carries the slug. */
  lemma {:induction false} UniqueSlugFound(posts: seq<Post>, k: nat, slug: string)
    requires k < |posts| && posts[k].slug == slug
    requires forall i :: 0 <= i < |posts| && i != k ==> posts[i].slug != slug
    ensures PostBySlug(posts, slug) == Some(posts[k])
    decreases k
  {
    if k > 0 {
      assert posts[0].slug != slug;
      var rest := posts[1..];
      forall i | 0 <= i < |rest| && i != k - 1
        ensures rest[i].slug != slug
      {
        assert rest[i] == posts[i + 1];
      }
      UniqueSlugFound(rest, k - 1, slug);
    }
  }

  /** The index of the post a successful lookup returned. */
  lemma FoundAt(posts: seq<Post>, slug: string) returns (k: nat)
    requires PostBySlug(posts, slug).Some?
    ensures k < |posts| && posts[k] == PostBySlug(posts, slug).value
  {
    var p := PostBySlug(posts, slug).value;
    assert p in posts;
    var j :| 0 <= j < |posts| && posts[j] == p;
    k := j;
  }

  /** An upsert followed by a lookup of its slug returns what was written: the post the
      reply names, with the body, hash and date of the request, the given revision or
      else 1 for a new post and one more than before for an existing one. The reply says
      created exactly when no post had the slug. */
  lemma UpsertThenLookup(db: Db, b: PostFields)
    requires Valid(db) && Complete(b)
    ensures var (d, resp) := SavePost(db, b, false);
      var before := PostBySlug(db.posts, b.slug.value);
      var after := PostBySlug(d.posts, b.slug.value);
      && (resp.payload.created <==> before.None?)
      && after.Some?
      && after.value.id == resp.payload.postId
      && (before.Some? ==> after.value.id == before.value.id)
      && after.value.html == b.html.value && after.value.plainText == b.plainText.value
      && after.value.contentHash == b.contentHash && after.value.publishedAt == b.publishedAt
      && after.value.revision == (if b.revision.Some? then b.revision.value
                                  else if before.None? then 1 else before.value.revision + 1)
  {
    if PostBySlug(db.posts, b.slug.value).Some? {
      EditThenLookup(db, b);
    } else {
      InsertThenLookup(db, b);
    }
  }

  /** The edit branch: the lookup finds the stored post with the edit applied. */
  lemma EditThenLookup(db: Db, b: PostFields)
    requires Valid(db) && Complete(b) && PostBySlug(db.posts, b.slug.value).Some?
    ensures var before := PostBySlug(db.posts, b.slug.value).value;
      && SavePost(db, b, false).1.payload == PostReply(false, before.id)
      && PostBySlug(SavePost(db, b, false).0.posts, b.slug.value) == Some(Revised(before, EditOf(b)))
  {
    var slug := b.slug.value;
    var before := PostBySlug(db.posts, slug);
    var k := FoundAt(db.posts, slug);
    assert db.posts[k].id >= 1;
    var posts := RevisePosts(db.posts, before.value.id, EditOf(b));
    assert SavePost(db, b, false).0.posts == posts;
    forall i | 0 <= i < |posts| && i != k
      ensures posts[i].slug != slug
    {
      assert posts[i].slug == db.posts[i].slug;
      if i < k {
        assert db.posts[i].slug != db.posts[k].slug;
      } else {
        assert db.posts[k].slug != db.posts[i].slug;
      }
    }
    assert posts[k] == Revised(db.posts[k], EditOf(b));
    UniqueSlugFound(posts, k, slug);
  }

  /** The insert branch: the lookup finds the new post under the counter's id. */
  lemma InsertThenLookup(db: Db, b: PostFields)
    requires Valid(db) && Complete(b) && PostBySlug(db.posts, b.slug.value).None?
    ensures SavePost(db, b, false).1.payload == PostReply(true, db.nextPostId)
    ensures PostBySlug(SavePost(db, b, false).0.posts, b.slug.value) == Some(NewPost(b).(id := db.nextPostId))
  {
    var slug := b.slug.value;
    var k := |db.posts|;
    var posts := db.posts + [NewPost(b).(id := db.nextPostId)];
    assert SavePost(db, b, false).0.posts == posts;
    forall i | 0 <= i < |posts| && i != k
      ensures posts[i].slug != slug
    {
      assert posts[i] == db.posts[i];
    }
    UniqueSlugFound(posts, k, slug);
  }

  /** An upsert keeps ids positive, increasing and below the counter, and slugs unique:
      an edit changes neither, and an insert only happens for a slug no post has. */
  lemma SavePostKeepsValid(db: Db, b: PostFields, fails: bool)
    requires Valid(db) && Complete(b)
    ensures Valid(SavePost(db, b, fails).0)
  {
    var slug := b.slug.value;
    var d := SavePost(db, b, fails).0;
    if !fails {
      var before := PostBySlug(db.posts, slug);
      if before.Some? {
        var k := FoundAt(db.posts, slug);
        assert db.posts[k].id >= 1;
        assert d == db.(posts := RevisePosts(db.posts, before.value.id, EditOf(b)));
        RevisePostsKeepsValid(db, before.value.id, EditOf(b));
      } else {
        assert d == db.(posts := db.posts + [NewPost(b).(id := db.nextPostId)], nextPostId := db.nextPostId + 1);
        AddPostKeepsValid(db, NewPost(b));
      }
    }
  }

  /** An upsert leaves every other slug's post as it was. */
  lemma SavePostKeepsOtherPosts(db: Db, b: PostFields, fails: bool, other: string)
    requires Valid(db) && Complete(b) && other != b.slug.value
    ensures PostBySlug(SavePost(db, b, fails).0.posts, other) == PostBySlug(db.posts, other)
  {
    var slug := b.slug.value;
    var d := SavePost(db, b, fails).0;
    if !fails {
      var before := PostBySlug(db.posts, slug);
      if before.Some? {
        var k := FoundAt(db.posts, slug);
        assert db.posts[k].id >= 1;
        assert d.posts == RevisePosts(db.posts, before.value.id, EditOf(b));
        EditKeepsOthers(db.posts, k, EditOf(b), other);
        OtherSlugLookup(db.posts, d.posts, other);
      } else {
        assert d.posts == db.posts + [NewPost(b).(id := db.nextPostId)];
        OtherSlugLookup(db.posts, d.posts, other);
      }
    }
  }

  /** Editing the post at k by its id, when no other post shares that id, keeps every
      post of another slug in place. */
  lemma EditKeepsOthers(posts: seq<Post>, k: nat, e: PostEdit, other: string)
    requires k < |posts| && posts[k].slug != other
    requires forall i, j :: 0 <= i < j < |posts| ==> posts[i].id < posts[j].id
    ensures var next := RevisePosts(posts, posts[k].id, e);
      && (forall i :: 0 <= i < |posts| ==> (next[i].slug == other <==> posts[i].slug == other))
      && (forall i :: 0 <= i < |posts| && posts[i].slug == other ==> next[i] == posts[i])
  {
    var next := RevisePosts(posts, posts[k].id, e);
    forall i | 0 <= i < |posts| && posts[i].slug == other
      ensures next[i] == posts[i]
    {
      assert i != k;
      if i < k {
        assert posts[i].id < posts[k].id;
      } else {
        assert posts[k].id < posts[i].id;
      }
    }
  }

  /** A lookup depends only on the posts that carry the slug: when those are kept in
      place, and any posts after them do not carry it, the result is the same. */
  lemma {:induction false} OtherSlugLookup(posts: seq<Post>, next: seq<Post>, slug: string)
    requires |posts| <= |next|
    requires forall i :: 0 <= i < |posts| ==> (next[i].slug == slug <==> posts[i].slug == slug)
    requires forall i :: 0 <= i < |posts| && posts[i].slug == slug ==> next[i] == posts[i]
    requires forall i :: |posts| <= i < |next| ==> next[i].slug != slug
    ensures PostBySlug(next, slug) == PostBySlug(posts, slug)
    decreases |posts|
  {
    if posts == [] {
      assert forall i :: 0 <= i < |next| ==> next[i].slug != slug;
    } else if posts[0].slug != slug {
      assert next[0].slug != slug;
      OtherSlugLookup(posts[1..], next[1..], slug);
    }
  }

  /** Publishing the same slug twice edits the post the first call created or edited:
      the second reply names the same post, as updated, and without a given revision
      the revision goes up by one. */
  lemma RepublishUpdates(db: Db, b1: PostFields, b2: PostFields)
    requires Valid(db) && Complete(b1) && Complete(b2) && b2.slug == b1.slug
    ensures var (d1, r1) := SavePost(db, b1, false);
      var (d2, r2) := SavePost(d1, b2, false);
      && !r2.payload.created && r2.payload.postId == r1.payload.postId
      && (b2.revision.None? ==>
            PostBySlug(d2.posts, b2.slug.value).value.revision == PostBySlug(d1.posts, b1.slug.value).value.revision + 1)
  {
    var d1 := SavePost(db, b1, false).0;
    UpsertThenLookup(db, b1);
    SavePostKeepsValid(db, b1, false);
    UpsertThenLookup(d1, b2);
  }

  // ---------------------------------------------------------------------------
  // Reports

  /** The fields of a report body. */
  datatype ReportFields = ReportFields(annotationId: Option<int>, reason: Option<string>)

  /** `POST /report`: a foreign origin is refused, a falsy annotation id is a 400, a store
      fault a 500; otherwise one report is stored and the reply is `202 { accepted: true }`. */
  function ReportServer(db: Db, opts: ServerOptions, origin: Option<string>, referer: Option<string>,
                        hostOf: string -> Option<string>, b: ReportFields, fails: bool): (Db, Response)
  {
    if !SameOriginExpress(opts.originHost, origin, referer, hostOf) then (db, Fail(403, BadOrigin, None, None))
    else if !TruthyId(b.annotationId) then (db, Fail(400, InvalidInput, None, None))
    else if fails then (db, Fail(500, InternalError, None, None))
    else (db.(reports := db.reports + [Report(b.annotationId.value, b.reason)]), Response(202, AcceptedReply, None))
  }

  method HandleReport(st: Store, opts: ServerOptions, origin: Option<string>, referer: Option<string>,
                      hostOf: string -> Option<string>, b: ReportFields, fails: bool) returns (resp: Response)
    modifies st
    ensures (st.Snapshot(), resp) == ReportServer(old(st.Snapshot()), opts, origin, referer, hostOf, b, fails)
  {
    if !SameOriginExpress(opts.originHost, origin, referer, hostOf) {
      return Fail(403, BadOrigin, None, None);
    }
    if !TruthyId(b.annotationId) {
      return Fail(400, InvalidInput, None, None);
    }
    if fails {
      return Fail(500, InternalError, None, None);
    }
    st.InsertReport(Report(b.annotationId.value, b.reason));
    resp := Response(202, AcceptedReply, None);
  }

  /** A report is accepted exactly when the origin matches, the id is truthy and the store
      works; it then adds one report and nothing else, and otherwise changes nothing.
      Whether the annotation exists is never checked. */
  lemma ReportAppendsOne(db: Db, opts: ServerOptions, origin: Option<string>, referer: Option<string>,
                         hostOf: string -> Option<string>, b: ReportFields, fails: bool)
    ensures var (d, resp) := ReportServer(db, opts, origin, referer, hostOf, b, fails);
      && (resp.status == 202 <==> SameOriginExpress(opts.originHost, origin, referer, hostOf) && TruthyId(b.annotationId) && !fails)
      && (resp.status == 202 ==>
            d == db.(reports := db.reports + [Report(b.annotationId.value, b.reason)]) && resp.payload == AcceptedReply)
      && (resp.status != 202 ==> d == db)
      && Valid(d) == Valid(db)
  {
  }
}
