/** The database the write pipeline works against: the `annotations`, `posts`, `settings`
    and `reports` tables, held in memory. Timestamps are integer seconds on the database
    clock, ordered as the stored `created_at` texts are. A fresh row takes the next id
    and the current time. */
module Storage {
  import opened Text
  import opened Kinds
  import opened Validation
  import opened Content

  /** One annotation row. `parentId` is the reply's target as it was bound. */
  datatype Row = Row(
    id: nat,
    postId: nat,
    parentId: Option<int>,
    displayName: Option<string>,
    bodyHtml: string,
    selectors: Envelope,
    quote: string,
    state: State,
    visitorId: string,
    ipHash: Option<string>,
    signals: Signals,
    createdAt: int)

  datatype Post = Post(
    id: nat,
    slug: string,
    html: string,
    plainText: string,
    revision: int,
    contentHash: Option<string>,
    publishedAt: Option<string>)

  datatype Report = Report(annotationId: int, reason: Option<string>)

  /** A snapshot of every table and of the two id counters. */
  datatype Db = Db(
    posts: seq<Post>,
    rows: seq<Row>,
    settings: map<string, string>,
    reports: seq<Report>,
    nextPostId: nat,
    nextRowId: nat)

  /** Ids are positive and increase in insertion order, slugs are unique, every row
      belongs to a stored post, and a reply's parent is an earlier row of the same post. */
  predicate Valid(db: Db) {
    db.nextPostId >= 1 && db.nextRowId >= 1
    && (forall i :: 0 <= i < |db.posts| ==> 1 <= db.posts[i].id < db.nextPostId)
    && (forall i, j :: 0 <= i < j < |db.posts| ==> db.posts[i].id < db.posts[j].id)
    && (forall i, j :: 0 <= i < j < |db.posts| ==> db.posts[i].slug != db.posts[j].slug)
    && (forall i :: 0 <= i < |db.rows| ==> 1 <= db.rows[i].id < db.nextRowId)
    && (forall i, j :: 0 <= i < j < |db.rows| ==> db.rows[i].id < db.rows[j].id)
    && (forall i :: 0 <= i < |db.rows| ==> HasPost(db.posts, db.rows[i].postId))
    && (forall i :: 0 <= i < |db.rows| ==> ParentBefore(db.rows, i))
  }

  predicate HasPost(posts: seq<Post>, id: nat) {
    exists k :: 0 <= k < |posts| && posts[k].id == id
  }

  /** Row i is not a reply, or its parent is an earlier row of the same post. */
  predicate ParentBefore(rows: seq<Row>, i: nat)
    requires i < |rows|
  {
    rows[i].parentId.None?
    || exists j :: 0 <= j < i && rows[j].id == rows[i].parentId.value && rows[j].postId == rows[i].postId
  }

  const Empty := Db([], [], map[], [], 1, 1)

  lemma EmptyValid()
    ensures Valid(Empty)
  {
  }

  // ---------------------------------------------------------------------------
  // Lookups

  /** `SELECT … FROM posts WHERE slug = ?`: the first post with that slug. */
  function PostBySlug(posts: seq<Post>, slug: string): (r: Option<Post>)
    ensures r.Some? ==> r.value in posts && r.value.slug == slug
    ensures r.None? <==> forall i :: 0 <= i < |posts| ==> posts[i].slug != slug
  {
    if posts == [] then None
    else if posts[0].slug == slug then Some(posts[0])
    else PostBySlug(posts[1..], slug)
  }

  /** `SELECT … FROM annotations WHERE id = ?`. */
  function RowById(rows: seq<Row>, id: int): (r: Option<Row>)
    ensures r.Some? ==> r.value in rows && r.value.id == id
    ensures r.None? <==> forall i :: 0 <= i < |rows| ==> rows[i].id != id
  {
    if rows == [] then None
    else if rows[0].id == id then Some(rows[0])
    else RowById(rows[1..], id)
  }

  /** The number of rows that satisfy keep. */
  function Count(rows: seq<Row>, keep: Row -> bool): (n: nat)
    ensures n <= |rows|
  {
    if rows == [] then 0 else (if keep(rows[0]) then 1 else 0) + Count(rows[1..], keep)
  }

  lemma {:induction false} CountAppend(rows: seq<Row>, r: Row, keep: Row -> bool)
    ensures Count(rows + [r], keep) == Count(rows, keep) + (if keep(r) then 1 else 0)
    decreases |rows|
  {
    if rows != [] {
      CountAppend(rows[1..], r, keep);
      assert (rows + [r])[1..] == rows[1..] + [r];
    } else {
      assert [r][1..] == [];
    }
  }

  /** A row carrying this IP hash, created after `since`. */
  function FromIpSince(h: string, since: int): Row -> bool {
    (r: Row) => r.ipHash == Some(h) && r.createdAt > since
  }

  /** A row quoting this text, created after `since`. */
  function QuotedSince(q: string, since: int): Row -> bool {
    (r: Row) => r.quote == q && r.createdAt > since
  }

  /** `SELECT created_at … WHERE visitor_id = ? ORDER BY created_at DESC LIMIT 1`. */
  function LatestByVisitor(rows: seq<Row>, v: string): (r: Option<int>)
    ensures r.None? <==> forall i :: 0 <= i < |rows| ==> rows[i].visitorId != v
    ensures r.Some? ==> exists i :: 0 <= i < |rows| && rows[i].visitorId == v && rows[i].createdAt == r.value
    ensures r.Some? ==> forall i :: 0 <= i < |rows| && rows[i].visitorId == v ==> rows[i].createdAt <= r.value
  {
    if rows == [] then None
    else
      var rest := LatestByVisitor(rows[1..], v);
      if rows[0].visitorId != v then
        assert forall i :: 1 <= i < |rows| ==> rows[i] == rows[1..][i - 1];
        rest
      else if rest.Some? && rest.value > rows[0].createdAt then
        assert forall i :: 1 <= i < |rows| ==> rows[i] == rows[1..][i - 1];
        rest
      else
        assert forall i :: 1 <= i < |rows| ==> rows[i] == rows[1..][i - 1];
        Some(rows[0].createdAt)
  }

  // ---------------------------------------------------------------------------
  // Writes, as functions of the snapshot

  /** `INSERT INTO annotations …`: the row takes the next id and the current time. */
  function AddRow(db: Db, r: Row, now: int): (d: Db)
    ensures d.rows == db.rows + [r.(id := db.nextRowId, createdAt := now)]
    ensures d.nextRowId == db.nextRowId + 1
    ensures d.posts == db.posts && d.settings == db.settings && d.reports == db.reports && d.nextPostId == db.nextPostId
  {
    db.(rows := db.rows + [r.(id := db.nextRowId, createdAt := now)], nextRowId := db.nextRowId + 1)
  }

  /** A parent that is a stored row of the same post. */
  predicate ParentStored(rows: seq<Row>, r: Row) {
    r.parentId.None?
    || exists j :: 0 <= j < |rows| && rows[j].id == r.parentId.value && rows[j].postId == r.postId
  }

  /** Appending a row of a stored post whose parent, if any, is a stored row of the same
      post keeps the store well formed. */
  lemma AddRowKeepsValid(db: Db, r: Row, now: int)
    requires Valid(db) && HasPost(db.posts, r.postId) && ParentStored(db.rows, r)
    ensures Valid(AddRow(db, r, now))
  {
    var x := r.(id := db.nextRowId, createdAt := now);
    AppendKeepsParents(db.rows, x);
    AppendKeepsPosts(db.posts, db.rows, x);
    AppendKeepsIds(db.rows, x, db.nextRowId);
  }

  /** Appending a row with the next id keeps the ids increasing and below the next one. */
  lemma AppendKeepsIds(rows: seq<Row>, x: Row, next: int)
    requires forall i :: 0 <= i < |rows| ==> 1 <= rows[i].id < next
    requires forall i, j :: 0 <= i < j < |rows| ==> rows[i].id < rows[j].id
    requires next >= 1 && x.id == next
    ensures forall i :: 0 <= i < |rows + [x]| ==> 1 <= (rows + [x])[i].id < next + 1
    ensures forall i, j :: 0 <= i < j < |rows + [x]| ==> (rows + [x])[i].id < (rows + [x])[j].id
  {
    var d := rows + [x];
    forall i, j | 0 <= i < j < |d|
      ensures d[i].id < d[j].id
    {
      assert d[i] == rows[i];
    }
  }

  /** Appending a row whose parent is stored keeps every parent before its reply. */
  lemma AppendKeepsParents(rows: seq<Row>, x: Row)
    requires forall i :: 0 <= i < |rows| ==> ParentBefore(rows, i)
    requires ParentStored(rows, x)
    ensures forall i :: 0 <= i < |rows + [x]| ==> ParentBefore(rows + [x], i)
  {
    var d := rows + [x];
    forall i | 0 <= i < |d|
      ensures ParentBefore(d, i)
    {
      if i < |rows| {
        assert d[i] == rows[i];
        if rows[i].parentId.Some? {
          assert ParentBefore(rows, i);
          var j :| 0 <= j < i && rows[j].id == rows[i].parentId.value && rows[j].postId == rows[i].postId;
          assert d[j] == rows[j];
        }
      } else if x.parentId.Some? {
        var j :| 0 <= j < |rows| && rows[j].id == x.parentId.value && rows[j].postId == x.postId;
        assert d[j] == rows[j];
      }
    }
  }

  /** Appending a row of a stored post keeps every row's post stored. */
  lemma AppendKeepsPosts(posts: seq<Post>, rows: seq<Row>, x: Row)
    requires forall i :: 0 <= i < |rows| ==> HasPost(posts, rows[i].postId)
    requires HasPost(posts, x.postId)
    ensures forall i :: 0 <= i < |rows + [x]| ==> HasPost(posts, (rows + [x])[i].postId)
  {
    forall i | 0 <= i < |rows + [x]|
      ensures HasPost(posts, (rows + [x])[i].postId)
    {
      if i < |rows| {
        assert (rows + [x])[i] == rows[i];
      }
    }
  }

  /** `UPDATE annotations SET state = ? WHERE id = ?`. */
  function SetState(rows: seq<Row>, id: int, s: State): (r: seq<Row>)
    ensures |r| == |rows|
    ensures forall i :: 0 <= i < |rows| ==> r[i] == if rows[i].id == id then rows[i].(state := s) else rows[i]
  {
    seq(|rows|, i requires 0 <= i < |rows| => if rows[i].id == id then rows[i].(state := s) else rows[i])
  }

  /** `UPDATE settings SET value = ? WHERE key = ?`: no effect on a missing key. */
  function UpdateSetting(settings: map<string, string>, key: string, value: string): (m: map<string, string>)
    ensures key in settings ==> m == settings[key := value]
    ensures key !in settings ==> m == settings
  {
    if key in settings then settings[key := value] else settings
  }

  /** The values `UPDATE posts SET html = ?, plain_text = ?, revision = COALESCE(?,
      revision + 1), content_hash = ?, published_at = ? WHERE id = ?` binds. */
  datatype PostEdit = PostEdit(
    html: string,
    plainText: string,
    revision: Option<int>,
    contentHash: Option<string>,
    publishedAt: Option<string>)

  /** One post after the edit: the given revision, or one more than the stored one. */
  function Revised(p: Post, e: PostEdit): (q: Post)
    ensures q.id == p.id && q.slug == p.slug
    ensures e.revision.None? ==> q.revision == p.revision + 1
  {
    p.(html := e.html, plainText := e.plainText,
       revision := if e.revision.Some? then e.revision.value else p.revision + 1,
       contentHash := e.contentHash, publishedAt := e.publishedAt)
  }

  /** The edit applied to every post with this id. */
  function RevisePosts(posts: seq<Post>, id: nat, e: PostEdit): (r: seq<Post>)
    ensures |r| == |posts|
    ensures forall i :: 0 <= i < |posts| ==> r[i] == if posts[i].id == id then Revised(posts[i], e) else posts[i]
  {
    if posts == [] then []
    else [if posts[0].id == id then Revised(posts[0], e) else posts[0]] + RevisePosts(posts[1..], id, e)
  }

  /** An edit changes no id and no slug: the store stays well formed. */
  lemma RevisePostsKeepsValid(db: Db, id: nat, e: PostEdit)
    requires Valid(db)
    ensures Valid(db.(posts := RevisePosts(db.posts, id, e)))
  {
    var d := db.(posts := RevisePosts(db.posts, id, e));
    assert forall i :: 0 <= i < |d.posts| ==> d.posts[i].id == db.posts[i].id && d.posts[i].slug == db.posts[i].slug;
    forall i | 0 <= i < |d.rows|
      ensures HasPost(d.posts, d.rows[i].postId)
    {
      assert HasPost(db.posts, db.rows[i].postId);
      var j :| 0 <= j < |db.posts| && db.posts[j].id == db.rows[i].postId;
      assert d.posts[j].id == db.posts[j].id;
    }
  }

  /** A post with a new slug takes the next id: the store stays well formed. */
  lemma AddPostKeepsValid(db: Db, p: Post)
    requires Valid(db)
    requires forall i :: 0 <= i < |db.posts| ==> db.posts[i].slug != p.slug
    ensures Valid(db.(posts := db.posts + [p.(id := db.nextPostId)], nextPostId := db.nextPostId + 1))
  {
    var d := db.(posts := db.posts + [p.(id := db.nextPostId)], nextPostId := db.nextPostId + 1);
    var n := |db.posts|;
    assert forall i :: 0 <= i < n ==> d.posts[i] == db.posts[i];
    forall i | 0 <= i < |d.rows|
      ensures HasPost(d.posts, d.rows[i].postId)
    {
      assert HasPost(db.posts, db.rows[i].postId);
      var j :| 0 <= j < |db.posts| && db.posts[j].id == db.rows[i].postId;
      assert d.posts[j] == db.posts[j];
    }
  }

  /** Changing states touches no id, post or parent: the store stays well formed. */
  lemma SetStateKeepsValid(db: Db, id: int, s: State)
    requires Valid(db)
    ensures Valid(db.(rows := SetState(db.rows, id, s)))
  {
    SameLinksKeepValid(db, SetState(db.rows, id, s));
  }

  /** Rows with the same ids, posts and parents, row by row. */
  predicate SameLinks(a: seq<Row>, b: seq<Row>) {
    |a| == |b|
    && forall i :: 0 <= i < |a| ==> a[i].id == b[i].id && a[i].postId == b[i].postId && a[i].parentId == b[i].parentId
  }

  lemma SameLinksKeepValid(db: Db, rows: seq<Row>)
    requires Valid(db) && SameLinks(db.rows, rows)
    ensures Valid(db.(rows := rows))
  {
    forall i | 0 <= i < |rows|
      ensures ParentBefore(rows, i)
    {
      assert ParentBefore(db.rows, i);
      if rows[i].parentId.Some? {
        var j :| 0 <= j < i && db.rows[j].id == db.rows[i].parentId.value && db.rows[j].postId == db.rows[i].postId;
        assert rows[j].id == db.rows[j].id && rows[j].postId == db.rows[j].postId;
      }
    }
  }

  // ---------------------------------------------------------------------------
  // The store the handlers change in place

  class Store {
    var posts: seq<Post>
    var rows: seq<Row>
    var settings: map<string, string>
    var reports: seq<Report>
    var nextPostId: nat
    var nextRowId: nat

    function Snapshot(): Db
      reads this
    {
      Db(posts, rows, settings, reports, nextPostId, nextRowId)
    }

    constructor ()
      ensures Snapshot() == Empty
    {
      posts, rows, settings, reports := [], [], map[], [];
      nextPostId, nextRowId := 1, 1;
    }

    /** Inserts an annotation row and reports its id (`last_row_id`). */
    method InsertRow(r: Row, now: int) returns (id: nat)
      modifies this
      ensures id == old(nextRowId)
      ensures Snapshot() == AddRow(old(Snapshot()), r, now)
    {
      id := nextRowId;
      rows := rows + [r.(id := id, createdAt := now)];
      nextRowId := nextRowId + 1;
    }

    /** `INSERT INTO settings (key, value)`: the key is the primary key, so the insert
        fails on a key already present. */
    method InsertSetting(key: string, value: string) returns (ok: bool)
      modifies this
      ensures ok <==> key !in old(settings)
      ensures Snapshot() == if ok then old(Snapshot()).(settings := old(settings)[key := value]) else old(Snapshot())
    {
      if key in settings {
        ok := false;
      } else {
        settings := settings[key := value];
        ok := true;
      }
    }

    method PutSetting(key: string, value: string)
      modifies this
      ensures Snapshot() == old(Snapshot()).(settings := UpdateSetting(old(settings), key, value))
    {
      settings := UpdateSetting(settings, key, value);
    }

    method PutState(id: int, s: State)
      modifies this
      ensures Snapshot() == old(Snapshot()).(rows := SetState(old(rows), id, s))
    {
      rows := SetState(rows, id, s);
    }

    method InsertPost(p: Post) returns (id: nat)
      modifies this
      ensures id == old(nextPostId)
      ensures Snapshot() == old(Snapshot()).(posts := old(posts) + [p.(id := id)], nextPostId := id + 1)
    {
      id := nextPostId;
      posts := posts + [p.(id := id)];
      nextPostId := nextPostId + 1;
    }

    method RevisePost(id: nat, e: PostEdit)
      modifies this
      ensures Snapshot() == old(Snapshot()).(posts := RevisePosts(old(posts), id, e))
    {
      posts := RevisePosts(posts, id, e);
    }

    method InsertReport(rep: Report)
      modifies this
      ensures Snapshot() == old(Snapshot()).(reports := old(reports) + [rep])
    {
      reports := reports + [rep];
    }
  }
}
