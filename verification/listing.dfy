/** The read side of the annotation store: the public list of a post's published
    annotations (functions/api/annotations/list.ts and `GET /list` of
    src/server/routes/annotations.ts) and the moderation queue (functions/api/mod/list.ts
    and `GET /list` of src/server/routes/mod.ts). A query is a filter, a sort on
    `created_at` and an SQLite `LIMIT`. */
module Listing {
  import opened Text
  import opened Kinds
  import opened Validation
  import opened Storage
  import opened Pipeline

  // ---------------------------------------------------------------------------
  // The `limit` parameter

  /** `Number(s)` on decimal integers: white space around the text is ignored, the empty
      text is 0, and an optional sign may precede decimal digits. Every other text is None,
      which stands for NaN; this includes forms `Number` reads as numbers (exponents, `0x`,
      `0o` and `0b` prefixes, fractions, `Infinity`). */
  function JsNumber(s: string): (r: Option<int>)
    ensures Trim(s) == [] ==> r == Some(0)
    ensures r.Some? && r.value < 0 ==> Trim(s)[0] == '-'
  {
    SignedDecimal(Trim(s))
  }

  /** Trimmed text as an optionally signed decimal numeral; the empty text is 0. */
  function SignedDecimal(t: string): (r: Option<int>)
    ensures t == [] ==> r == Some(0)
    ensures r.Some? && r.value < 0 ==> t[0] == '-'
  {
    if t == [] then Some(0)
    else if t[0] == '-' || t[0] == '+' then
      match ParseNat(t[1..])
      case None => None
      case Some(n) => Some(if t[0] == '-' then -(n as int) else n)
    else
      match ParseNat(t)
      case None => None
      case Some(n) => Some(n)
  }

  /** Decimal numerals read back as the number they write. */
  lemma JsNumberOfNumeral(n: nat)
    ensures JsNumber(NatToString(n)) == Some(n)
  {
    var d := NatToString(n);
    ParseNatToString(n);
    assert IsDigit(d[0]) && IsDigit(d[|d| - 1]);
    TrimKeepsTrimmed(d);
    assert d[0] != '-' && d[0] != '+';
    assert SignedDecimal(d) == Some(n);
  }

  /** A minus before a numeral negates it. */
  lemma JsNumberOfNegative(n: nat)
    ensures JsNumber("-" + NatToString(n)) == Some(-(n as int))
  {
    var d := NatToString(n);
    NegativeNumeralTrimmed(d);
    ParseNatToString(n);
    NegatedDecimal(d, n);
  }

  lemma NegativeNumeralTrimmed(d: string)
    requires d != [] && IsDigit(d[|d| - 1])
    ensures Trim("-" + d) == "-" + d
  {
    var m := "-" + d;
    assert m[0] == '-' && m[|m| - 1] == d[|d| - 1];
    TrimKeepsTrimmed(m);
  }

  lemma NegatedDecimal(d: string, n: nat)
    requires ParseNat(d) == Some(n)
    ensures SignedDecimal("-" + d) == Some(-(n as int))
  {
    var m := "-" + d;
    assert m[1..] == d;
  }

  const DefaultLimit := 50
  const MaxLimit := 200

  /** `Math.min(Number(limit ?? '50') || 50, 200)` of the Workers handler: NaN and 0 fall
      back to 50, nothing raises the result above 200, and nothing keeps it from going
      below 0. */
  function LimitAsWritten(param: Option<string>): (l: int)
    ensures l <= MaxLimit && l != 0
    ensures l < 0 ==> param.Some? && JsNumber(param.value) == Some(l)
  {
    var n := JsNumber(if param.Some? then param.value else "50");
    var m := if n.None? || n.value == 0 then DefaultLimit else n.value;
    if m < MaxLimit then m else MaxLimit
  }

  /** `Math.min(Number(req.query.limit || '50') || 50, 200)` of the Express route: an
      empty parameter is replaced by `'50'` before `Number` rather than after. */
  function ServerLimitAsWritten(param: Option<string>): (l: int)
    ensures l <= MaxLimit && l != 0
    ensures l < 0 ==> Truthy(param) && JsNumber(param.value) == Some(l)
  {
    var n := JsNumber(if Truthy(param) then param.value else "50");
    var m := if n.None? || n.value == 0 then DefaultLimit else n.value;
    if m < MaxLimit then m else MaxLimit
  }

  /** `"50"` is the numeral of 50. */
  lemma FiftyNumeral()
    ensures JsNumber("50") == Some(50)
  {
    assert DigitChar(5) == '5' && DigitChar(0) == '0';
    assert NatToString(50) == NatToString(5) + [DigitChar(0)];
    assert NatToString(50) == "50";
    JsNumberOfNumeral(50);
  }

  /** The two runtimes read every limit parameter alike. */
  lemma LimitRuntimesAgree(param: Option<string>)
    ensures ServerLimitAsWritten(param) == LimitAsWritten(param)
  {
    FiftyNumeral();
    if param.Some? && param.value == [] {
      assert Trim(param.value) == [];
      assert JsNumber(param.value) == Some(0);
      assert LimitAsWritten(param) == DefaultLimit;
      assert ServerLimitAsWritten(param) == DefaultLimit;
    }
  }

  /** An absent parameter means 50. */
  lemma AbsentLimitIsDefault()
    ensures LimitAsWritten(None) == DefaultLimit
    ensures ListLimit(None) == DefaultLimit
  {
    FiftyNumeral();
  }

  /** SQLite's `LIMIT n`: the first n rows, and every row when n is negative. */
  function SqlLimit(s: seq<Row>, n: int): (r: seq<Row>)
    ensures n < 0 ==> r == s
    ensures n >= 0 ==> |r| == (if n < |s| then n else |s|)
    ensures r == s[..|r|]
  {
    if n < 0 || n >= |s| then s else s[..n]
  }

  /** `limit=-1` is read as -1. */
  lemma MinusOneLimit()
    ensures LimitAsWritten(Some("-1")) == -1
  {
    MinusOneNumber();
  }

  lemma MinusOneNumber()
    ensures JsNumber("-1") == Some(-1)
  {
    assert NatToString(1) == "1";
    assert "-" + NatToString(1) == "-1";
    JsNumberOfNegative(1);
  }

  /** A limit of `-1` gets past the cap: every row comes back, however many. */
  lemma NegativeLimitUncapped(s: seq<Row>)
    requires |s| > MaxLimit
    ensures |SqlLimit(s, LimitAsWritten(Some("-1")))| > MaxLimit
  {
    MinusOneLimit();
  }

  /** The limit the handlers evidently mean: a positive request capped at 200, and the
      default 50 for anything else. */
  function ListLimit(param: Option<string>): (l: int)
    ensures 1 <= l <= MaxLimit
    ensures LimitAsWritten(param) > 0 ==> l == LimitAsWritten(param)
    ensures LimitAsWritten(param) < 0 ==> l == DefaultLimit
  {
    var a := LimitAsWritten(param);
    if a > 0 then a else DefaultLimit
  }

  // ---------------------------------------------------------------------------
  // Filtering and ordering

  /** The rows that satisfy keep, in their stored order. */
  function Filter(rows: seq<Row>, keep: Row -> bool): (r: seq<Row>)
    ensures |r| <= |rows|
    ensures forall x :: x in r <==> x in rows && keep(x)
    ensures multiset(r) <= multiset(rows)
  {
    if rows == [] then []
    else
      assert rows == [rows[0]] + rows[1..];
      (if keep(rows[0]) then [rows[0]] else []) + Filter(rows[1..], keep)
  }

  predicate SortedByTime(s: seq<Row>) {
    forall i, j :: 0 <= i < j < |s| ==> s[i].createdAt <= s[j].createdAt
  }

  /** Puts r before the first row that is not older. */
  function InsertByTime(r: Row, s: seq<Row>): (t: seq<Row>)
    requires SortedByTime(s)
    ensures SortedByTime(t)
    ensures multiset(t) == multiset(s) + multiset{r}
    ensures |t| == |s| + 1 && (t[0] == r || (s != [] && t[0] == s[0]))
    decreases |s|
  {
    if s == [] || r.createdAt <= s[0].createdAt then [r] + s
    else
      var rest := InsertByTime(r, s[1..]);
      InsertBehind(r, s, rest);
      [s[0]] + rest
  }

  /** Putting the first row back in front of the insertion into the others. */
  lemma InsertBehind(r: Row, s: seq<Row>, rest: seq<Row>)
    requires s != [] && SortedByTime(s) && s[0].createdAt < r.createdAt
    requires SortedByTime(rest) && multiset(rest) == multiset(s[1..]) + multiset{r}
    requires |rest| == |s| && (rest[0] == r || (s[1..] != [] && rest[0] == s[1..][0]))
    ensures SortedByTime([s[0]] + rest)
    ensures multiset([s[0]] + rest) == multiset(s) + multiset{r}
  {
    assert s == [s[0]] + s[1..];
    assert s[0].createdAt <= rest[0].createdAt;
    var t := [s[0]] + rest;
    forall i, j | 0 <= i < j < |t|
      ensures t[i].createdAt <= t[j].createdAt
    {
      if i > 0 {
        assert t[i] == rest[i - 1] && t[j] == rest[j - 1];
      } else {
        assert t[j] == rest[j - 1];
      }
    }
  }

  /** `ORDER BY created_at ASC` by insertion: a stable sort. */
  function SortByTime(s: seq<Row>): (t: seq<Row>)
    ensures SortedByTime(t)
    ensures multiset(t) == multiset(s)
  {
    if s == [] then [] else
      assert s == [s[0]] + s[1..];
      InsertByTime(s[0], SortByTime(s[1..]))
  }

  /** `SELECT … WHERE keep ORDER BY created_at ASC LIMIT n`. */
  function Page(rows: seq<Row>, keep: Row -> bool, n: int): seq<Row> {
    SqlLimit(SortByTime(Filter(rows, keep)), n)
  }

  /** A page is sorted and holds only rows that qualify. */
  lemma PageSound(rows: seq<Row>, keep: Row -> bool, n: int)
    ensures var p := Page(rows, keep, n);
      && SortedByTime(p)
      && (forall x :: x in p ==> x in rows && keep(x))
  {
    var s := SortByTime(Filter(rows, keep));
    var p := Page(rows, keep, n);
    assert p == s[..|p|];
    forall x | x in p
      ensures x in rows && keep(x)
    {
      assert x in s;
      assert x in multiset(s);
    }
  }

  /** A page holds every qualifying row when the limit allows, and otherwise exactly as
      many as the limit. */
  lemma PageSize(rows: seq<Row>, keep: Row -> bool, n: int)
    requires n >= 0
    ensures var p := Page(rows, keep, n);
      var f := Filter(rows, keep);
      && |p| == (if n < |f| then n else |f|)
      && multiset(p) <= multiset(f)
      && (|f| <= n ==> multiset(p) == multiset(f))
  {
    var f := Filter(rows, keep);
    var s := SortByTime(f);
    var p := Page(rows, keep, n);
    assert |s| == |f| by {
      assert |multiset(s)| == |multiset(f)|;
    }
    assert s == p + s[|p|..];
    assert multiset(s) == multiset(p) + multiset(s[|p|..]);
  }

  /** No qualifying row left out of a page is older than a row on it. */
  lemma PageEarliest(rows: seq<Row>, keep: Row -> bool, n: int)
    ensures var p := Page(rows, keep, n);
      forall x :: x in rows && keep(x) && x !in p ==>
        forall i :: 0 <= i < |p| ==> p[i].createdAt <= x.createdAt
  {
    var f := Filter(rows, keep);
    var s := SortByTime(f);
    var p := Page(rows, keep, n);
    forall x | x in rows && keep(x) && x !in p
      ensures forall i :: 0 <= i < |p| ==> p[i].createdAt <= x.createdAt
    {
      assert x in multiset(f);
      assert x in multiset(s);
      SortedPrefixEarliest(s, |p|, x);
    }
  }

  /** In a sorted sequence, a row outside a prefix is no older than any row in it. */
  lemma SortedPrefixEarliest(s: seq<Row>, k: nat, x: Row)
    requires SortedByTime(s) && k <= |s|
    requires x in s && x !in s[..k]
    ensures forall i :: 0 <= i < k ==> s[i].createdAt <= x.createdAt
  {
    var j :| 0 <= j < |s| && s[j] == x;
  }

  // ---------------------------------------------------------------------------
  // The public list

  /** The post of a row carries this slug (`JOIN posts p ON a.post_id = p.id WHERE
      p.slug = ?`). */
  predicate OnPostWithSlug(posts: seq<Post>, postId: nat, slug: string) {
    exists k :: 0 <= k < |posts| && posts[k].id == postId && posts[k].slug == slug
  }

  /** A published row of the post with this slug, newer than `after` when that is given
      (None stands for an absent or empty parameter). */
  function Listed(posts: seq<Post>, slug: string, after: Option<int>): Row -> bool {
    (r: Row) => r.state == Published && OnPostWithSlug(posts, r.postId, slug)
      && (after.None? || r.createdAt > after.value)
  }

  /** Both list handlers with the limit read as `n`: a missing slug is refused, a store
      fault is a 500, otherwise the page of listed rows. */
  function ListWith(db: Db, slug: Option<string>, after: Option<int>, n: int, fails: bool): (resp: Response)
    ensures !Truthy(slug) ==> resp == Fail(400, InvalidInput, Some("missing slug"), None)
    ensures Truthy(slug) && fails ==> resp == Fail(500, InternalError, None, None)
    ensures Truthy(slug) && !fails ==> resp == Response(200, RowsReply(Page(db.rows, Listed(db.posts, slug.value, after), n)), None)
  {
    if !Truthy(slug) then Fail(400, InvalidInput, Some("missing slug"), None)
    else if fails then Fail(500, InternalError, None, None)
    else Response(200, RowsReply(Page(db.rows, Listed(db.posts, slug.value, after), n)), None)
  }

  /** The list handlers as written. */
  function ListAsWritten(db: Db, slug: Option<string>, after: Option<int>, limit: Option<string>, fails: bool): Response {
    ListWith(db, slug, after, LimitAsWritten(limit), fails)
  }

  /** The list handlers with the limit kept between 1 and 200. */
  function List(db: Db, slug: Option<string>, after: Option<int>, limit: Option<string>, fails: bool): Response {
    ListWith(db, slug, after, ListLimit(limit), fails)
  }

  /** As written, `limit=-1` returns every published annotation of the post. */
  lemma NegativeLimitListsAll(db: Db, slug: string, after: Option<int>)
    requires slug != []
    ensures ListAsWritten(db, Some(slug), after, Some("-1"), false).payload.rows
      == SortByTime(Filter(db.rows, Listed(db.posts, slug, after)))
  {
    var keep := Listed(db.posts, slug, after);
    MinusOneLimit();
    assert ListAsWritten(db, Some(slug), after, Some("-1"), false) == Response(200, RowsReply(Page(db.rows, keep, -1)), None);
  }

  /** A successful list holds at most 200 published annotations of that post, newer than
      `after`, oldest first; every listed annotation when there are at most `limit` of
      them, and otherwise none left out is older than one returned. */
  lemma ListReturnsPublished(db: Db, slug: string, after: Option<int>, limit: Option<string>)
    requires slug != []
    ensures var resp := List(db, Some(slug), after, limit, false);
      var p := resp.payload.rows;
      && resp.status == 200
      && |p| <= ListLimit(limit) <= MaxLimit
      && SortedByTime(p)
      && (forall x :: x in p ==>
            (x in db.rows && x.state == Published && OnPostWithSlug(db.posts, x.postId, slug)
             && (after.None? || x.createdAt > after.value)))
      && (|Filter(db.rows, Listed(db.posts, slug, after))| <= ListLimit(limit) ==>
            multiset(p) == multiset(Filter(db.rows, Listed(db.posts, slug, after))))
      && (forall x :: x in db.rows && Listed(db.posts, slug, after)(x) && x !in p ==>
            forall i :: 0 <= i < |p| ==> p[i].createdAt <= x.createdAt)
  {
    var keep := Listed(db.posts, slug, after);
    assert List(db, Some(slug), after, limit, false) == Response(200, RowsReply(Page(db.rows, keep, ListLimit(limit))), None);
    PageSound(db.rows, keep, ListLimit(limit));
    PageSize(db.rows, keep, ListLimit(limit));
    PageEarliest(db.rows, keep, ListLimit(limit));
  }

  /** Pending and rejected annotations never appear in the public list. */
  lemma ListHidesUnpublished(db: Db, slug: string, after: Option<int>, limit: Option<string>, r: Row)
    requires slug != [] && r.state != Published
    ensures r !in List(db, Some(slug), after, limit, false).payload.rows
  {
    var keep := Listed(db.posts, slug, after);
    assert List(db, Some(slug), after, limit, false) == Response(200, RowsReply(Page(db.rows, keep, ListLimit(limit))), None);
    PageSound(db.rows, keep, ListLimit(limit));
  }

  // ---------------------------------------------------------------------------
  // The moderation queue

  const QueueLimit := 200

  function IsPending(): Row -> bool {
    (r: Row) => r.state == Pending
  }

  /** `SELECT … WHERE state = 'pending' ORDER BY created_at ASC LIMIT 200`, or a 500. */
  function PendingQueue(db: Db, fails: bool): (resp: Response)
    ensures fails ==> resp == Fail(500, InternalError, None, None)
    ensures !fails ==> resp == Response(200, RowsReply(Page(db.rows, IsPending(), QueueLimit)), None)
  {
    if fails then Fail(500, InternalError, None, None)
    else Response(200, RowsReply(Page(db.rows, IsPending(), QueueLimit)), None)
  }

  /** The queue holds the oldest pending annotations, at most 200, oldest first. */
  lemma QueueIsOldestPending(db: Db)
    ensures var p := PendingQueue(db, false).payload.rows;
      && |p| <= QueueLimit
      && SortedByTime(p)
      && (forall x :: x in p ==> x in db.rows && x.state == Pending)
      && (|Filter(db.rows, IsPending())| <= QueueLimit ==> multiset(p) == multiset(Filter(db.rows, IsPending())))
      && (forall x :: x in db.rows && x.state == Pending && x !in p ==>
            forall i :: 0 <= i < |p| ==> p[i].createdAt <= x.createdAt)
  {
    PageSound(db.rows, IsPending(), QueueLimit);
    PageSize(db.rows, IsPending(), QueueLimit);
    PageEarliest(db.rows, IsPending(), QueueLimit);
  }
}
