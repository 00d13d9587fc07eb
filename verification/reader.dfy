/** The logic of the Leptos reader (leptos-app/src/app.rs): the post slug taken from the
    path, the selection located in the article text, the selector envelope built around
    it, the popover preview and the grouping of roots and replies in the sidebar. A Rust
    string is a `string` of Unicode scalar values; `str::find` answers in UTF-8 bytes. */
module Reader {
  import opened Text
  import opened Validation

  // ---------------------------------------------------------------------------
  // The post slug

  /** `filter(|s| !s.is_empty())`. */
  function NonEmptyParts(parts: seq<string>): (r: seq<string>)
    ensures forall k :: 0 <= k < |r| ==> r[k] != [] && r[k] in parts
  {
    if parts == [] then []
    else (if parts[0] != [] then [parts[0]] else []) + NonEmptyParts(parts[1..])
  }

  /** `path_slug`: the second non-empty `/`-segment of a path whose first one is
      `posts`. */
  function PathSlug(path: string): (r: Option<string>)
    ensures r.Some? ==> r.value != [] && '/' !in r.value
    ensures r.Some? <==> |NonEmptyParts(Split(path, '/'))| >= 2 && NonEmptyParts(Split(path, '/'))[0] == "posts"
  {
    var parts := NonEmptyParts(Split(path, '/'));
    if |parts| >= 2 && parts[0] == "posts" then
      assert parts[1] in Split(path, '/');
      Some(parts[1])
    else None
  }

  lemma {:induction false} SplitWithoutSeparator(s: string, sep: char)
    requires sep !in s
    ensures Split(s, sep) == [s]
    decreases |s|
  {
    if s != [] {
      SplitWithoutSeparator(s[1..], sep);
      assert [s[0]] + s[1..] == s;
    }
  }

  lemma {:induction false} SplitAfterWord(w: string, sep: char, rest: string)
    requires sep !in w
    ensures Split(w + [sep] + rest, sep) == [w] + Split(rest, sep)
    decreases |w|
  {
    if w == [] {
      assert w + [sep] + rest == [sep] + rest;
      assert ([sep] + rest)[1..] == rest;
    } else {
      SplitAfterWord(w[1..], sep, rest);
      assert (w + [sep] + rest)[1..] == w[1..] + [sep] + rest;
      assert [w[0]] + w[1..] == w;
    }
  }

  /** The envelope's source path leads back to the slug it was built for. */
  lemma SourceGivesSlug(slug: string)
    requires slug != [] && '/' !in slug
    ensures PathSlug("/posts/" + slug) == Some(slug)
  {
    SplitWithoutSeparator(slug, '/');
    SplitAfterWord("posts", '/', slug);
    SplitAfterWord([], '/', "posts" + "/" + slug);
    assert "/posts/" + slug == [] + ['/'] + ("posts" + ['/'] + slug);
    assert Split("/posts/" + slug, '/') == [[], "posts", slug];
    assert NonEmptyParts([[], "posts", slug]) == ["posts", slug] by {
      assert [[], "posts", slug][1..] == ["posts", slug];
      assert ["posts", slug][1..] == [slug];
      assert [slug][1..] == [];
      assert NonEmptyParts([slug]) == [slug] + NonEmptyParts([]);
      assert NonEmptyParts(["posts", slug]) == ["posts"] + NonEmptyParts([slug]);
      assert NonEmptyParts([[], "posts", slug]) == [] + NonEmptyParts(["posts", slug]);
    }
  }

  // ---------------------------------------------------------------------------
  // Locating the selection

  /** The number of bytes the character takes in UTF-8. */
  function Utf8Length(c: char): nat {
    if c as int < 0x80 then 1 else if c as int < 0x800 then 2 else if c as int < 0x1_0000 then 3 else 4
  }

  function Bytes(s: string): nat {
    if s == [] then 0 else Bytes(s[..|s| - 1]) + Utf8Length(s[|s| - 1])
  }

  predicate MatchAt(plain: string, text: string, i: nat) {
    i + |text| <= |plain| && plain[i..i + |text|] == text
  }

  /** The first place at or after i where text occurs, as a character index. */
  function FirstMatchFrom(plain: string, text: string, i: nat): (r: Option<nat>)
    ensures r.Some? ==> i <= r.value && MatchAt(plain, text, r.value)
    ensures r.Some? ==> forall k :: i <= k < r.value ==> !MatchAt(plain, text, k)
    ensures r.None? ==> forall k :: i <= k ==> !MatchAt(plain, text, k)
    decreases |plain| - i
  {
    if i + |text| > |plain| then None
    else if MatchAt(plain, text, i) then Some(i)
    else FirstMatchFrom(plain, text, i + 1)
  }

  /** The character index of the first occurrence. */
  function Find(plain: string, text: string): Option<nat> {
    FirstMatchFrom(plain, text, 0)
  }

  /** `str::find`: the byte offset of the first occurrence. */
  function FindBytes(plain: string, text: string): (r: Option<nat>)
    ensures r.Some? <==> Find(plain, text).Some?
  {
    match Find(plain, text)
    case None => None
    case Some(i) => Some(Bytes(plain[..i]))
  }

  /** The selected text with its start and end positions. */
  datatype Picked = Picked(text: string, start: nat, end: nat)

  /** `current_selection` as written: the start is the byte offset `find` returns and the
      end adds the character count. */
  function CurrentSelectionAsWritten(rangeCount: nat, selected: string, plain: Option<string>): (r: Option<Picked>)
    ensures r.None? <==> CurrentSelection(rangeCount, selected, plain).None?
    ensures r.Some? ==> (r.value.text == selected && r.value.end == r.value.start + |selected|
      && r.value.start == Bytes(plain.value[..CurrentSelection(rangeCount, selected, plain).value.start]))
  {
    if rangeCount == 0 || selected == [] || plain.None? then None
    else match FindBytes(plain.value, selected)
      case None => None
      case Some(b) => Some(Picked(selected, b, b + |selected|))
  }

  /** `current_selection` with the start counted in characters, as the `codepoint` unit
      and every later use of it require. The positions locate the first occurrence of the
      selected text in the article text. */
  function CurrentSelection(rangeCount: nat, selected: string, plain: Option<string>): (r: Option<Picked>)
    ensures r.None? <==> rangeCount == 0 || selected == [] || plain.None? || Find(plain.value, selected).None?
    ensures r.Some? ==> (r.value.text == selected && r.value.end <= |plain.value|
      && r.value.start + |selected| == r.value.end
      && plain.value[r.value.start..r.value.end] == selected
      && forall k :: 0 <= k < r.value.start ==> !MatchAt(plain.value, selected, k))
  {
    if rangeCount == 0 || selected == [] || plain.None? then None
    else match Find(plain.value, selected)
      case None => None
      case Some(i) => Some(Picked(selected, i, i + |selected|))
  }

  lemma {:induction false} AsciiBytes(s: string)
    requires forall i :: 0 <= i < |s| ==> s[i] as int < 0x80
    ensures Bytes(s) == |s|
    decreases |s|
  {
    if s != [] {
      AsciiBytes(s[..|s| - 1]);
    }
  }

  /** On ASCII text the two agree. */
  lemma AsciiPositionsAgree(rangeCount: nat, selected: string, plain: string)
    requires forall i :: 0 <= i < |plain| ==> plain[i] as int < 0x80
    ensures CurrentSelectionAsWritten(rangeCount, selected, Some(plain)) == CurrentSelection(rangeCount, selected, Some(plain))
  {
    var f := Find(plain, selected);
    if f.Some? {
      AsciiBytes(plain[..f.value]);
    }
  }

  /** Selecting `x` in `éx`: as written the start is 2, the byte offset, and the end 3
      lies past the two-character text; the intended positions are 1 and 2. */
  lemma ByteOffsetMisplaces()
    ensures CurrentSelectionAsWritten(1, "x", Some("éx")) == Some(Picked("x", 2, 3))
    ensures CurrentSelection(1, "x", Some("éx")) == Some(Picked("x", 1, 2))
    ensures |"éx"| < 3
  {
    var plain := "éx";
    assert plain[0..1][0] == 'é';
    assert !MatchAt(plain, "x", 0);
    assert MatchAt(plain, "x", 1);
    assert Find(plain, "x") == Some(1);
    assert plain[..1] == "é";
    assert Bytes("é") == 2 by {
      assert "é"[..0] == [];
    }
  }

  // ---------------------------------------------------------------------------
  // The selector envelope

  const ContextChars := 20

  /** `chars().skip(k).take(n).collect()`. */
  function SkipTake(s: string, k: nat, n: nat): (r: string)
    ensures k + n <= |s| ==> r == s[k..k + n]
    ensures k <= |s| < k + n ==> r == s[k..]
    ensures |s| < k ==> r == []
  {
    var a := if k < |s| then k else |s|;
    var b := if k + n < |s| then k + n else |s|;
    s[a..b]
  }

  /** `build_envelope`: the quote selector with up to 20 characters of context on each
      side (none before position 0, none from the end of the text on), then the
      position selector. A missing article reads as the empty text. */
  function BuildEnvelope(slug: string, exact: string, start: nat, end: nat, plainText: Option<string>): (e: Envelope)
    ensures e.typeTag == "Annotation" && e.source == "/posts/" + slug
    ensures e.selector.Some? && |e.selector.value| == 2
    ensures e.selector.value[0].TextQuote? && e.selector.value[0].exact == exact
    ensures e.selector.value[1] == TextPosition(start, end, "codepoint")
    ensures e.selector.value[0].prefix.None? <==> start == 0
    ensures e.selector.value[0].suffix.None? <==> plainText.None? || end >= |plainText.value|
  {
    var plain := if plainText.Some? then plainText.value else "";
    var startIdx := if start < ContextChars then 0 else start - ContextChars;
    var prefix := if start > 0 then Some(SkipTake(plain, startIdx, start - startIdx)) else None;
    var suffix := if end < |plain| then Some(SkipTake(plain, end, ContextChars)) else None;
    Envelope("Annotation", "/posts/" + slug,
             Some([TextQuote(exact, prefix, suffix), TextPosition(start, end, "codepoint")]))
  }

  function OrEmpty(s: Option<string>): string {
    if s.Some? then s.value else ""
  }

  /** Around a located selection the envelope's context is the article text next to the
      quote: prefix, quote and suffix are one stretch of it, with at most 20 characters
      on each side and fewer only at the ends. */
  lemma EnvelopeAroundSelection(slug: string, rangeCount: nat, selected: string, plain: string)
    requires CurrentSelection(rangeCount, selected, Some(plain)).Some?
    ensures var p := CurrentSelection(rangeCount, selected, Some(plain)).value;
      var q := BuildEnvelope(slug, p.text, p.start, p.end, Some(plain)).selector.value[0];
      var pre := OrEmpty(q.prefix);
      var suf := OrEmpty(q.suffix);
      && |pre| == (if p.start < ContextChars then p.start else ContextChars)
      && |suf| == (if |plain| - p.end < ContextChars then |plain| - p.end else ContextChars)
      && plain[p.start - |pre|..p.end + |suf|] == pre + selected + suf
  {
    var p := CurrentSelection(rangeCount, selected, Some(plain)).value;
    var q := BuildEnvelope(slug, p.text, p.start, p.end, Some(plain)).selector.value[0];
    var pre := OrEmpty(q.prefix);
    var suf := OrEmpty(q.suffix);
    var a := p.start - |pre|;
    var b := p.end + |suf|;
    assert plain[a..b] == plain[a..p.start] + plain[p.start..p.end] + plain[p.end..b];
  }

  /** With the byte offset, selecting `x` in `éx` yields a prefix that holds the quote
      itself and no suffix. */
  lemma ByteOffsetEnvelope(slug: string)
    ensures var q := BuildEnvelope(slug, "x", 2, 3, Some("éx")).selector.value[0];
      q.prefix == Some("éx") && q.suffix.None?
  {
    assert "éx"[0..2] == "éx";
  }

  /** Every envelope the reader builds carries both selector types the server requires. */
  lemma EnvelopePassesSelectorCheck(b: Body, slug: string, exact: string, start: nat, end: nat, plain: Option<string>)
    requires b.selectors == Some(BuildEnvelope(slug, exact, start, end, plain))
    ensures HasRequiredSelectors(b)
  {
    var sel := b.selectors.value.selector.value;
    assert TypeTag(sel[0]) == Some("TextQuoteSelector");
    assert TypeTag(sel[1]) == Some("TextPositionSelector");
  }

  // ---------------------------------------------------------------------------
  // The popover preview

  const PreviewChars := 80

  /** The first 80 characters followed by `…` when the quote is longer. */
  function Preview(exact: string): (r: string)
    ensures |exact| <= PreviewChars ==> r == exact
    ensures |exact| > PreviewChars ==> |r| == PreviewChars + 1 && r[..PreviewChars] == exact[..PreviewChars] && r[PreviewChars] == '…'
  {
    if |exact| > PreviewChars then exact[..PreviewChars] + "…" else exact
  }

  // ---------------------------------------------------------------------------
  // Roots and replies

  /** The fields of a listed annotation the sidebar reads. */
  datatype Annotation = Annotation(
    id: int,
    displayName: Option<string>,
    bodyHtml: string,
    parentId: Option<int>,
    createdAt: Option<string>)

  /** The order of `String`: byte by byte in UTF-8, which is code point by code point;
      a prefix comes first. */
  predicate LexLe(x: string, y: string) {
    x == [] || (y != [] && (x[0] < y[0] || (x[0] == y[0] && LexLe(x[1..], y[1..]))))
  }

  /** The order of `Option<String>`: None first. */
  predicate KeyLe(a: Option<string>, b: Option<string>) {
    a.None? || (b.Some? && LexLe(a.value, b.value))
  }

  lemma {:induction false} LexLeTotal(x: string, y: string)
    ensures LexLe(x, y) || LexLe(y, x)
    decreases |x|
  {
    if x != [] && y != [] && x[0] == y[0] {
      LexLeTotal(x[1..], y[1..]);
    }
  }

  lemma {:induction false} LexLeTrans(x: string, y: string, z: string)
    requires LexLe(x, y) && LexLe(y, z)
    ensures LexLe(x, z)
    decreases |x|
  {
    if x != [] && x[0] == y[0] && y[0] == z[0] {
      LexLeTrans(x[1..], y[1..], z[1..]);
    }
  }

  lemma KeyLeTrans(a: Option<string>, b: Option<string>, c: Option<string>)
    requires KeyLe(a, b) && KeyLe(b, c)
    ensures KeyLe(a, c)
  {
    if a.Some? {
      LexLeTrans(a.value, b.value, c.value);
    }
  }

  predicate SortedByKey(s: seq<Annotation>) {
    forall i, j :: 0 <= i < j < |s| ==> KeyLe(s[i].createdAt, s[j].createdAt)
  }

  /** An annotation whose key is not greater than the head of a sorted list may go first. */
  lemma ConsSorted(a: Annotation, s: seq<Annotation>)
    requires SortedByKey(s)
    requires s != [] ==> KeyLe(a.createdAt, s[0].createdAt)
    ensures SortedByKey([a] + s)
  {
    forall j | 0 < j < |s|
      ensures KeyLe(a.createdAt, s[j].createdAt)
    {
      KeyLeTrans(a.createdAt, s[0].createdAt, s[j].createdAt);
    }
  }

  lemma KeyLeTotal(a: Option<string>, b: Option<string>)
    ensures KeyLe(a, b) || KeyLe(b, a)
  {
    if a.Some? && b.Some? {
      LexLeTotal(a.value, b.value);
    }
  }

  /** Puts a before the first annotation whose key is not smaller, so that an earlier
      element of the input stays ahead of later ones with an equal key. */
  function InsertByKey(a: Annotation, s: seq<Annotation>): (t: seq<Annotation>)
    requires SortedByKey(s)
    ensures SortedByKey(t)
    ensures multiset(t) == multiset(s) + multiset{a}
    ensures |t| == |s| + 1 && (t[0] == a || (s != [] && t[0] == s[0]))
    decreases |s|
  {
    if s == [] || KeyLe(a.createdAt, s[0].createdAt) then
      ConsSorted(a, s);
      [a] + s
    else
      var rest := InsertByKey(a, s[1..]);
      assert s == [s[0]] + s[1..];
      KeyLeTotal(a.createdAt, s[0].createdAt);
      ConsSorted(s[0], rest);
      [s[0]] + rest
  }

  /** `sort_by_key(|a| a.created_at.clone())`: a stable sort. */
  function SortByKey(s: seq<Annotation>): (t: seq<Annotation>)
    ensures SortedByKey(t)
    ensures multiset(t) == multiset(s)
  {
    if s == [] then [] else
      assert s == [s[0]] + s[1..];
      InsertByKey(s[0], SortByKey(s[1..]))
  }

  function Select(items: seq<Annotation>, keep: Annotation -> bool): (r: seq<Annotation>)
    ensures forall x :: x in r <==> x in items && keep(x)
  {
    if items == [] then []
    else (if keep(items[0]) then [items[0]] else []) + Select(items[1..], keep)
  }

  function IsRoot(): Annotation -> bool {
    (a: Annotation) => a.parentId.None?
  }

  function IsReply(): Annotation -> bool {
    (a: Annotation) => a.parentId.Some?
  }

  function RepliesTo(id: int): Annotation -> bool {
    (a: Annotation) => a.parentId == Some(id)
  }

  /** Each root followed by the replies whose parent it is. */
  function Thread(roots: seq<Annotation>, replies: seq<Annotation>): seq<Annotation> {
    if roots == [] then []
    else [roots[0]] + Select(replies, RepliesTo(roots[0].id)) + Thread(roots[1..], replies)
  }

  /** The sidebar's order: the roots sorted by creation time, each with its replies. */
  function Grouped(items: seq<Annotation>): seq<Annotation> {
    Thread(SortByKey(Select(items, IsRoot())), Select(items, IsReply()))
  }

  lemma {:induction false} InThread(roots: seq<Annotation>, replies: seq<Annotation>, x: Annotation)
    ensures x in Thread(roots, replies) <==>
      exists r :: r in roots && (x == r || (x in replies && x.parentId == Some(r.id)))
    decreases |roots|
  {
    if roots != [] {
      InThread(roots[1..], replies, x);
      assert roots == [roots[0]] + roots[1..];
      if exists r :: r in roots && (x == r || (x in replies && x.parentId == Some(r.id))) {
        var r :| r in roots && (x == r || (x in replies && x.parentId == Some(r.id)));
        if r != roots[0] {
          assert r in roots[1..];
        }
      }
    }
  }

  /** The sidebar shows exactly the roots and the replies to a root; a reply to a reply,
      or to an annotation not in the list, is not shown. */
  lemma GroupedShows(items: seq<Annotation>, x: Annotation)
    ensures x in Grouped(items) <==>
      x in items && (x.parentId.None? || exists r :: r in items && r.parentId.None? && x.parentId == Some(r.id))
  {
    var roots := SortByKey(Select(items, IsRoot()));
    var replies := Select(items, IsReply());
    InThread(roots, replies, x);
    assert forall r :: r in roots <==> r in items && r.parentId.None? by {
      forall r
        ensures r in roots <==> r in items && r.parentId.None?
      {
        assert r in roots <==> r in multiset(roots);
        assert r in Select(items, IsRoot()) <==> r in multiset(Select(items, IsRoot()));
      }
    }
  }

  /** The roots come in creation order. */
  lemma RootsInOrder(items: seq<Annotation>)
    ensures SortedByKey(SortByKey(Select(items, IsRoot())))
    ensures forall r :: r in SortByKey(Select(items, IsRoot())) <==> r in items && r.parentId.None?
  {
    var roots := SortByKey(Select(items, IsRoot()));
    forall r
      ensures r in roots <==> r in items && r.parentId.None?
    {
      assert r in roots <==> r in multiset(roots);
      assert r in Select(items, IsRoot()) <==> r in multiset(Select(items, IsRoot()));
    }
  }
}
