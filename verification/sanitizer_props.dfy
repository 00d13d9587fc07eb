/** What the sanitizer of src/lib/sanitizer.ts does to well-formed input, proved on the
    scanner model: text and the allow-listed formatting tags survive every pass, any other
    tag is removed while its text stays, carriage returns never survive, anchors are
    rebuilt or unwrapped, and the attribute passes delete what they match. */
module SanitizerProofs {
  import opened Text
  import opened Sanitizer

  // ---------------------------------------------------------------------------
  // The scanner, one step at a time

  /** A match covering exactly the prefix `a` is replaced and scanning resumes behind it. */
  lemma RewriteMatch(p: Pass, a: string, b: string, out: string)
    requires a != [] && MatchAt(p, a + b) == Some(Hit(|a|, out))
    ensures Rewrite(p, a + b) == out + Rewrite(p, b)
  {
    assert (a + b)[|a|..] == b;
  }

  /** The same step with the match given by its length. */
  lemma RewriteHit(p: Pass, t: string, len: nat, out: string)
    requires MatchAt(p, t) == Some(Hit(len, out))
    ensures Rewrite(p, t) == out + Rewrite(p, t[len..])
  {
  }

  /** Positions of `a` where no match starts are copied unchanged. */
  lemma {:induction false} RewriteKeep(p: Pass, a: string, b: string)
    requires forall i :: 0 <= i < |a| ==> MatchAt(p, (a + b)[i..]).None?
    ensures Rewrite(p, a + b) == a + Rewrite(p, b)
    decreases |a|
  {
    if a != [] {
      RewriteKeepHead(p, a, b);
      RewriteKeepTail(p, a, b);
      RewriteKeep(p, a[1..], b);
      ConsAppend(a, Rewrite(p, b));
    } else {
      assert a + b == b;
    }
  }

  lemma ConsAppend(a: string, c: string)
    requires a != []
    ensures [a[0]] + (a[1..] + c) == a + c
  {
    assert a == [a[0]] + a[1..];
  }

  lemma RewriteKeepHead(p: Pass, a: string, b: string)
    requires a != [] && MatchAt(p, (a + b)[0..]).None?
    ensures Rewrite(p, a + b) == [a[0]] + Rewrite(p, a[1..] + b)
  {
    assert (a + b)[0..] == a + b;
    assert (a + b)[1..] == a[1..] + b;
  }

  lemma RewriteKeepTail(p: Pass, a: string, b: string)
    requires a != [] && forall i :: 0 <= i < |a| ==> MatchAt(p, (a + b)[i..]).None?
    ensures forall i :: 0 <= i < |a[1..]| ==> MatchAt(p, (a[1..] + b)[i..]).None?
  {
    forall i | 0 <= i < |a[1..]|
      ensures MatchAt(p, (a[1..] + b)[i..]).None?
    {
      assert (a[1..] + b)[i..] == (a + b)[i + 1..];
    }
  }

  /** Every pass needs `<`, a carriage return or an `=` to match. */
  lemma PlainNoMatch(p: Pass, t: string)
    requires t != [] && t[0] != '<' && t[0] != '\r'
    requires forall k :: 0 <= k < |t| ==> t[k] != '='
    ensures MatchAt(p, t).None?
  {
  }

  // ---------------------------------------------------------------------------
  // Carriage returns

  lemma {:induction false} NewlinesRemoveCR(s: string)
    ensures '\r' !in Rewrite(Newlines, s)
    decreases |s|
  {
    if s != [] {
      match MatchAt(Newlines, s)
      case Some(h) => NewlinesRemoveCR(s[h.len..]);
      case None => NewlinesRemoveCR(s[1..]);
    }
  }

  lemma AnchorPairNoCR(opening: string, inner: string)
    requires '\r' !in opening && '\r' !in inner
    ensures '\r' !in SanitizeAnchorPair(opening, inner)
  {
    var h := Href(opening);
    assert '\r' !in h;
    if SafeScheme(h) {
      CanonicalAnchorNoCR(h, inner);
    }
  }

  lemma CanonicalAnchorNoCR(h: string, inner: string)
    requires '\r' !in h && '\r' !in inner
    ensures '\r' !in CanonicalAnchor(h, inner)
  {
    var e := EscapeQuotes(h);
    EscapeQuotesChars(h);
    assert '\r' !in e;
    assert '\r' !in "<a href=\"" && '\r' !in "\" rel=\"" && '\r' !in Rel;
    assert '\r' !in "\">" && '\r' !in "</a>";
  }

  lemma AnchorHitNoCR(t: string)
    requires '\r' !in t && MatchAt(Anchors, t).Some?
    ensures '\r' !in MatchAt(Anchors, t).value.out
  {
    var k, c := AnchorMatchParts(t);
    SliceNoCR(t, 0, k);
    SliceNoCR(t, k, c);
    AnchorPairNoCR(t[..k], t[k..c]);
  }

  /** An anchor match rewrites the opening tag `t[..k]` and the inner text `t[k..c]`. */
  lemma AnchorMatchParts(t: string) returns (k: nat, c: nat)
    requires MatchAt(Anchors, t).Some?
    ensures k <= c <= |t| && MatchAt(Anchors, t).value.out == SanitizeAnchorPair(t[..k], t[k..c])
  {
    AnchorPassMatch(t);
    k := FindChar(t, '>', 2).value + 1;
    assert AnchorMatch(t) == AnchorPairAt(t, k);
    c := FirstAnchorCloser(t, k).value.0;
  }

  lemma SliceNoCR(t: string, i: nat, j: nat)
    requires '\r' !in t && i <= j <= |t|
    ensures '\r' !in t[i..j]
  {
    forall m | 0 <= m < j - i
      ensures t[i..j][m] != '\r'
    {
      assert t[i..j][m] == t[i + m];
    }
  }

  lemma HitKeepsNoCR(p: Pass, t: string)
    requires '\r' !in t && MatchAt(p, t).Some?
    ensures '\r' !in MatchAt(p, t).value.out
  {
    match p
    case Anchors => AnchorHitNoCR(t);
    case FormatOpeners =>
      var name := FormatNameAt(t, SkipSpaces(t, 1)).value;
      assert '\r' !in "<" + name + ">";
    case FormatClosers =>
      var name := FormatNameAt(t, SkipSpaces(t, SkipSpaces(t, 1) + 1)).value;
      assert '\r' !in "</" + name + ">";
    case _ =>
  }

  lemma {:induction false} PassKeepsNoCR(p: Pass, s: string)
    requires '\r' !in s
    ensures '\r' !in Rewrite(p, s)
    decreases |s|
  {
    if s != [] {
      match MatchAt(p, s)
      case Some(h) =>
        HitKeepsNoCR(p, s);
        PassKeepsNoCR(p, s[h.len..]);
      case None =>
        PassKeepsNoCR(p, s[1..]);
    }
  }

  /** The empty input gives the empty string, and no carriage return survives
      sanitizing: the first pass turns each into `\n`, and no later pass writes one. */
  lemma NoCarriageReturn(input: string)
    ensures input == [] ==> SanitizeHtml(input) == []
    ensures '\r' !in SanitizeHtml(input)
  {
    if input != [] {
      var s := Rewrite(Newlines, input);
      NewlinesRemoveCR(input);
      PassKeepsNoCR(Anchors, s);
      var s2 := Rewrite(Anchors, s);
      PassKeepsNoCR(FormatOpeners, s2);
      var s3 := Rewrite(FormatOpeners, s2);
      PassKeepsNoCR(FormatClosers, s3);
      var s4 := Rewrite(FormatClosers, s3);
      PassKeepsNoCR(LineBreaks, s4);
      var s5 := Rewrite(LineBreaks, s4);
      PassKeepsNoCR(StrayClosers, s5);
      var s6 := Rewrite(StrayClosers, s5);
      PassKeepsNoCR(OtherTags, s6);
      var s7 := Rewrite(OtherTags, s6);
      PassKeepsNoCR(EventHandlers, s7);
      var s8 := Rewrite(EventHandlers, s7);
      PassKeepsNoCR(ScriptHrefs, s8);
    }
  }

  // ---------------------------------------------------------------------------
  // Well-formed input: text, formatting tags and foreign tags

  datatype FormatTag = Strong | Em | Code

  function TagName(f: FormatTag): string {
    match f
    case Strong => "strong"
    case Em => "em"
    case Code => "code"
  }

  /** One unit of well-formed input: a text character, a lower-case formatting tag, a
      line break, or a tag whose name is not on the allow-list. */
  datatype Piece =
    | Char(c: char)
    | Open(f: FormatTag)
    | Close(f: FormatTag)
    | LineBreak
    | ForeignOpen(name: string)
    | ForeignClose(name: string)

  function PieceText(x: Piece): (r: string)
    ensures r != []
  {
    match x
    case Char(c) => [c]
    case Open(f) => "<" + TagName(f) + ">"
    case Close(f) => "</" + TagName(f) + ">"
    case LineBreak => "<br>"
    case ForeignOpen(n) => "<" + n + ">"
    case ForeignClose(n) => "</" + n + ">"
  }

  function Render(ps: seq<Piece>): string {
    if ps == [] then [] else PieceText(ps[0]) + Render(ps[1..])
  }

  /** `n` spells `lit` up to ASCII case. */
  predicate NamesCI(n: string, lit: string) {
    |n| == |lit| && StartsWithCI(n, lit)
  }

  predicate AllowListed(n: string) {
    NamesCI(n, "a") || NamesCI(n, "strong") || NamesCI(n, "em") || NamesCI(n, "code") || NamesCI(n, "br")
  }

  predicate CleanPiece(x: Piece) {
    match x
    case Char(c) => c != '<' && c != '\r' && c != '='
    case ForeignOpen(n) => n != [] && (forall k :: 0 <= k < |n| ==> IsWordChar(n[k])) && !AllowListed(n)
    case ForeignClose(n) => n != [] && (forall k :: 0 <= k < |n| ==> IsWordChar(n[k])) && !AllowListed(n)
    case _ => true
  }

  predicate Clean(ps: seq<Piece>) {
    forall i :: 0 <= i < |ps| ==> CleanPiece(ps[i])
  }

  predicate IsForeign(x: Piece) {
    x.ForeignOpen? || x.ForeignClose?
  }

  /** The pieces a reader sees: everything but the foreign tags. */
  function Visible(ps: seq<Piece>): (r: seq<Piece>)
    ensures forall i :: 0 <= i < |r| ==> !IsForeign(r[i])
    ensures |r| <= |ps|
  {
    if ps == [] then [] else (if IsForeign(ps[0]) then [] else [ps[0]]) + Visible(ps[1..])
  }

  /** The closing-tag pass spares closers whose name merely starts like an allowed one. */
  predicate SparedByStrayPass(n: string) {
    StartsWithCI(n, "a") || StartsWithCI(n, "strong") || StartsWithCI(n, "em") || StartsWithCI(n, "code")
  }

  predicate Dropped(p: Pass, x: Piece) {
    (p == OtherTags && IsForeign(x)) || (p == StrayClosers && x.ForeignClose? && !SparedByStrayPass(x.name))
  }

  /** The pieces that survive one pass. */
  function Survivors(p: Pass, ps: seq<Piece>): seq<Piece> {
    if ps == [] then [] else (if Dropped(p, ps[0]) then [] else [ps[0]]) + Survivors(p, ps[1..])
  }

  /** Whether the pass matches at the start of the piece. */
  predicate Touches(p: Pass, x: Piece) {
    match x
    case Char(_) => false
    case Open(_) => p == FormatOpeners
    case Close(_) => p == FormatClosers
    case LineBreak => p == LineBreaks
    case ForeignOpen(_) => p == OtherTags
    case ForeignClose(n) => p == OtherTags || (p == StrayClosers && !SparedByStrayPass(n))
  }

  // ---------------------------------------------------------------------------
  // Each pass on each piece

  lemma LitAtSelf(t: string, i: nat, n: string)
    requires i + |n| <= |t|
    requires forall k :: 0 <= k < |n| ==> t[i + k] == n[k]
    ensures LitAt(t, i, n)
  {
  }

  lemma NotLitAt(t: string, i: nat, lit: string)
    requires i < |t| && lit != [] && !SameLetterCI(t[i], lit[0])
    ensures !LitAt(t, i, lit)
  {
  }

  lemma LitAtOne(t: string, i: nat, c: char)
    ensures LitAt(t, i, [c]) <==> (i < |t| && SameLetterCI(t[i], c))
  {
    if i < |t| && SameLetterCI(t[i], c) {
      assert t[i + 0] == t[i];
    }
    if LitAt(t, i, [c]) {
      assert SameLetterCI(t[i + 0], [c][0]);
    }
  }

  /** The first `>` at or after i. */
  lemma FindCharAt(t: string, c: char, i: nat, j: nat)
    requires i <= j < |t| && t[j] == c
    requires forall k :: i <= k < j ==> t[k] != c
    ensures FindChar(t, c, i) == Some(j)
  {
  }

  /** In a tag shaped `<n>` or `</n>`, the first `>` after the bracket closes the tag. */
  lemma ForeignTagEnd(t: string, at: nat, n: string, i: nat)
    requires 1 <= i <= at && |t| > |n| + at && t[|n| + at] == '>'
    requires forall k :: 0 <= k < |n| ==> t[at + k] == n[k] && IsWordChar(n[k])
    requires forall k :: i <= k < at ==> t[k] != '>'
    ensures FindChar(t, '>', i) == Some(|n| + at)
  {
    forall k | at <= k < |n| + at
      ensures t[k] != '>'
    {
      assert t[at + (k - at)] == n[k - at];
    }
    FindCharAt(t, '>', i, |n| + at);
  }

  /** A word-character name followed by `>` at i: an ASCII word matches its start exactly
      when the name starts with the word, and is followed by `\b` only when it is the name. */
  lemma NameAt(t: string, i: nat, n: string, lit: string)
    requires i + |n| < |t| && t[i + |n|] == '>'
    requires forall k :: 0 <= k < |n| ==> t[i + k] == n[k] && IsWordChar(n[k])
    requires lit != [] && forall k :: 0 <= k < |lit| ==> 'a' <= lit[k] <= 'z'
    ensures LitAt(t, i, lit) <==> StartsWithCI(n, lit)
    ensures LitAt(t, i, lit) && WordEnds(t, i + |lit|) ==> NamesCI(n, lit)
  {
    if LitAt(t, i, lit) {
      assert |n| < |lit| ==> !SameLetterCI(t[i + |n|], lit[|n|]);
      assert |lit| <= |n|;
      forall k | 0 <= k < |lit|
        ensures SameLetterCI(n[k], lit[k])
      {
        assert SameLetterCI(t[i + k], lit[k]);
      }
      assert |lit| < |n| ==> t[i + |lit|] == n[|lit|] && IsWordChar(t[i + |lit|]);
    }
    if StartsWithCI(n, lit) {
      forall k | 0 <= k < |lit|
        ensures SameLetterCI(t[i + k], lit[k])
      {
        assert t[i + k] == n[k];
      }
    }
  }

  lemma NamesAt(t: string, i: nat, n: string)
    requires i + |n| < |t| && t[i + |n|] == '>'
    requires forall k :: 0 <= k < |n| ==> t[i + k] == n[k] && IsWordChar(n[k])
    ensures LitAt(t, i, "a") <==> StartsWithCI(n, "a")
    ensures LitAt(t, i, "strong") <==> StartsWithCI(n, "strong")
    ensures LitAt(t, i, "em") <==> StartsWithCI(n, "em")
    ensures LitAt(t, i, "code") <==> StartsWithCI(n, "code")
    ensures LitAt(t, i, "a") && WordEnds(t, i + 1) ==> NamesCI(n, "a")
    ensures LitAt(t, i, "strong") && WordEnds(t, i + 6) ==> NamesCI(n, "strong")
    ensures LitAt(t, i, "em") && WordEnds(t, i + 2) ==> NamesCI(n, "em")
    ensures LitAt(t, i, "code") && WordEnds(t, i + 4) ==> NamesCI(n, "code")
    ensures LitAt(t, i, "br") && WordEnds(t, i + 2) ==> NamesCI(n, "br")
  {
    NameAt(t, i, n, "a");
    NameAt(t, i, n, "strong");
    NameAt(t, i, n, "em");
    NameAt(t, i, n, "code");
    NameAt(t, i, n, "br");
  }

  /** Passes that cannot start at `<`. */
  lemma AngleStart(t: string)
    requires t != [] && t[0] == '<'
    ensures MatchAt(Newlines, t).None? && MatchAt(EventHandlers, t).None? && MatchAt(ScriptHrefs, t).None?
    ensures MatchAt(ScriptSchemes, t).None?
  {
    NotLitAt(t, 0, "href");
  }

  /** Passes that cannot start at `</`. */
  lemma SlashStart(t: string)
    requires |t| >= 2 && t[0] == '<' && t[1] == '/'
    ensures MatchAt(Anchors, t).None? && MatchAt(FormatOpeners, t).None? && MatchAt(LineBreaks, t).None?
  {
    assert SkipSpaces(t, 1) == 1;
    NotLitAt(t, 1, "strong");
    NotLitAt(t, 1, "em");
    NotLitAt(t, 1, "code");
    NotLitAt(t, 1, "br");
  }

  /** Passes that cannot start at `<` followed by a word character. */
  lemma WordStart(t: string)
    requires |t| >= 2 && t[0] == '<' && IsWordChar(t[1])
    ensures MatchAt(FormatClosers, t).None? && MatchAt(StrayClosers, t).None?
  {
    assert SkipSpaces(t, 1) == 1;
  }

  /** The shape of `pre + n + ">" + r`. */
  lemma TagShape(pre: string, n: string, r: string)
    ensures |pre + n + ">" + r| > |pre| + |n|
    ensures (pre + n + ">" + r)[|pre| + |n|] == '>'
    ensures forall k :: 0 <= k < |pre| ==> (pre + n + ">" + r)[k] == pre[k]
    ensures forall k :: 0 <= k < |n| ==> (pre + n + ">" + r)[|pre| + k] == n[k]
  {
  }

  predicate FormatName(name: string) {
    name == "strong" || name == "em" || name == "code"
  }

  /** `<name>` for a formatting name at the start of t. */
  predicate OpenShaped(t: string, name: string) {
    |t| > |name| + 1 && t[0] == '<' && t[|name| + 1] == '>'
    && forall k :: 0 <= k < |name| ==> t[1 + k] == name[k]
  }

  lemma OpenFormatOpeners(t: string, name: string)
    requires FormatName(name) && OpenShaped(t, name)
    ensures MatchAt(FormatOpeners, t) == Some(Hit(|name| + 2, "<" + name + ">"))
  {
    assert t[1 + 0] == name[0];
    assert SkipSpaces(t, 1) == 1;
    LitAtSelf(t, 1, name);
    NotLitAt(t, 1, "br");
    if name != "strong" { NotLitAt(t, 1, "strong"); }
    if name == "code" { NotLitAt(t, 1, "em"); }
    assert FormatNameAt(t, 1) == Some(name);
    assert FindChar(t, '>', 1 + |name|) == Some(1 + |name|);
  }

  lemma OpenOthers(t: string, name: string)
    requires FormatName(name) && OpenShaped(t, name)
    ensures MatchAt(Anchors, t).None? && MatchAt(LineBreaks, t).None? && MatchAt(OtherTags, t).None?
  {
    assert t[1 + 0] == name[0];
    assert SkipSpaces(t, 1) == 1;
    NotLitAt(t, 1, "br");
    LitAtSelf(t, 1, name);
    assert AllowedNameAt(t, 1);
  }

  lemma OpenStart(p: Pass, f: FormatTag, r: string)
    ensures MatchAt(p, PieceText(Open(f)) + r)
         == (if p == FormatOpeners then Some(Hit(|PieceText(Open(f))|, PieceText(Open(f)))) else None)
  {
    var name := TagName(f);
    var pt := PieceText(Open(f));
    assert pt == "<" + name + ">";
    var t := pt + r;
    assert t == "<" + name + ">" + r;
    TagShape("<", name, r);
    assert FormatName(name) && OpenShaped(t, name);
    OpenShapedStart(p, t, name, pt);
  }

  /** Only the opener pass matches at a formatting opener, and it takes the whole tag. */
  lemma OpenShapedStart(p: Pass, t: string, name: string, tag: string)
    requires FormatName(name) && OpenShaped(t, name) && tag == "<" + name + ">"
    ensures MatchAt(p, t) == (if p == FormatOpeners then Some(Hit(|tag|, tag)) else None)
  {
    AngleStart(t);
    assert t[1 + 0] == name[0];
    WordStart(t);
    OpenFormatOpeners(t, name);
    OpenOthers(t, name);
  }

  /** `</name>` for a formatting name at the start of t. */
  predicate CloseShaped(t: string, name: string) {
    |t| > |name| + 2 && t[0] == '<' && t[1] == '/' && t[|name| + 2] == '>'
    && forall k :: 0 <= k < |name| ==> t[2 + k] == name[k]
  }

  lemma CloseFormatClosers(t: string, name: string)
    requires FormatName(name) && CloseShaped(t, name)
    ensures MatchAt(FormatClosers, t) == Some(Hit(|name| + 3, "</" + name + ">"))
  {
    assert t[2 + 0] == name[0];
    assert SkipSpaces(t, 1) == 1;
    assert SkipSpaces(t, 2) == 2;
    LitAtSelf(t, 2, name);
    if name != "strong" { NotLitAt(t, 2, "strong"); }
    if name == "code" { NotLitAt(t, 2, "em"); }
    assert FormatNameAt(t, 2) == Some(name);
    assert SkipSpaces(t, 2 + |name|) == 2 + |name|;
  }

  lemma CloseOthers(t: string, name: string)
    requires FormatName(name) && CloseShaped(t, name)
    ensures MatchAt(StrayClosers, t).None? && MatchAt(OtherTags, t).None?
  {
    LitAtSelf(t, 2, name);
    assert KeptCloserPrefix(t, 2);
    assert AllowedNameAt(t, 2);
  }

  lemma CloseStart(p: Pass, f: FormatTag, r: string)
    ensures MatchAt(p, PieceText(Close(f)) + r)
         == (if p == FormatClosers then Some(Hit(|PieceText(Close(f))|, PieceText(Close(f)))) else None)
  {
    var name := TagName(f);
    var pt := PieceText(Close(f));
    assert pt == "</" + name + ">";
    var t := pt + r;
    assert t == "</" + name + ">" + r;
    TagShape("</", name, r);
    assert FormatName(name) && CloseShaped(t, name);
    CloseShapedStart(p, t, name, pt);
  }

  /** Only the closer pass matches at a formatting closer, and it takes the whole tag. */
  lemma CloseShapedStart(p: Pass, t: string, name: string, tag: string)
    requires FormatName(name) && CloseShaped(t, name) && tag == "</" + name + ">"
    ensures MatchAt(p, t) == (if p == FormatClosers then Some(Hit(|tag|, tag)) else None)
  {
    AngleStart(t);
    SlashStart(t);
    CloseFormatClosers(t, name);
    CloseOthers(t, name);
  }

  lemma LineBreakStart(p: Pass, r: string)
    ensures MatchAt(p, PieceText(LineBreak) + r)
         == (if p == LineBreaks then Some(Hit(4, "<br>")) else None)
  {
    var t := PieceText(LineBreak) + r;
    TagShape("<", "br", r);
    assert t[0] == '<' && t[1] == 'b' && t[2] == 'r' && t[3] == '>';
    AngleStart(t);
    WordStart(t);
    assert SkipSpaces(t, 1) == 1;
    NotLitAt(t, 1, "strong");
    NotLitAt(t, 1, "em");
    NotLitAt(t, 1, "code");
    LitAtSelf(t, 1, "br");
    assert FindChar(t, '>', 3) == Some(3);
  }

  /** `<n>` (when `at` is 1) or `</n>` (when `at` is 2) for a foreign name at the start of t. */
  predicate ForeignShaped(t: string, at: nat, n: string) {
    |t| > |n| + at && t[0] == '<' && t[|n| + at] == '>'
    && n != [] && (forall k :: 0 <= k < |n| ==> t[at + k] == n[k] && IsWordChar(n[k])) && !AllowListed(n)
  }

  lemma ForeignOpenAnchors(t: string, n: string)
    requires ForeignShaped(t, 1, n)
    ensures MatchAt(Anchors, t).None?
  {
    NameAt(t, 1, n, "a");
    LitAtOne(t, 1, 'a');
  }

  lemma ForeignOpenFormatOpeners(t: string, n: string)
    requires ForeignShaped(t, 1, n)
    ensures MatchAt(FormatOpeners, t).None?
  {
    assert t[1 + 0] == n[0];
    assert SkipSpaces(t, 1) == 1;
    NameAt(t, 1, n, "strong");
    NameAt(t, 1, n, "em");
    NameAt(t, 1, n, "code");
  }

  lemma ForeignOpenLineBreaks(t: string, n: string)
    requires ForeignShaped(t, 1, n)
    ensures MatchAt(LineBreaks, t).None?
  {
    assert t[1 + 0] == n[0];
    assert SkipSpaces(t, 1) == 1;
    NameAt(t, 1, n, "br");
  }

  lemma ForeignOpenOtherTags(t: string, n: string)
    requires ForeignShaped(t, 1, n)
    ensures MatchAt(OtherTags, t) == Some(Hit(|n| + 2, ""))
  {
    assert t[1 + 0] == n[0];
    NamesAt(t, 1, n);
    assert !AllowedTagAfterBracket(t);
    ForeignTagEnd(t, 1, n, 1);
  }

  /** A foreign opening tag: only the catch-all pass matches it, and removes it whole. */
  lemma ForeignOpenStart(p: Pass, n: string, r: string)
    requires CleanPiece(ForeignOpen(n))
    ensures MatchAt(p, PieceText(ForeignOpen(n)) + r)
         == (if p == OtherTags then Some(Hit(|n| + 2, "")) else None)
  {
    var t := PieceText(ForeignOpen(n)) + r;
    TagShape("<", n, r);
    assert ForeignShaped(t, 1, n);
    assert t[1 + 0] == n[0];
    AngleStart(t);
    WordStart(t);
    ForeignOpenAnchors(t, n);
    ForeignOpenFormatOpeners(t, n);
    ForeignOpenLineBreaks(t, n);
    ForeignOpenOtherTags(t, n);
  }

  lemma ForeignCloseName(t: string, n: string, name: string)
    requires ForeignShaped(t, 2, n) && FormatName(name) && LitAt(t, 2, name)
    ensures SkipSpaces(t, 2 + |name|) == |t| || t[SkipSpaces(t, 2 + |name|)] != '>'
  {
    NameAt(t, 2, n, name);
    assert !NamesCI(n, name);
    assert |name| < |n|;
    assert t[2 + |name|] == n[|name|];
    assert SkipSpaces(t, 2 + |name|) == 2 + |name|;
  }

  lemma ForeignCloseFormatClosers(t: string, n: string)
    requires ForeignShaped(t, 2, n) && t[1] == '/'
    ensures MatchAt(FormatClosers, t).None?
  {
    assert SkipSpaces(t, 1) == 1;
    assert t[2 + 0] == n[0];
    assert SkipSpaces(t, 2) == 2;
    match FormatNameAt(t, 2)
    case None =>
    case Some(name) => ForeignCloseName(t, n, name);
  }

  lemma ForeignCloseStrayClosers(t: string, n: string)
    requires ForeignShaped(t, 2, n) && t[1] == '/'
    ensures MatchAt(StrayClosers, t) == if SparedByStrayPass(n) then None else Some(Hit(|n| + 3, ""))
  {
    NameAt(t, 2, n, "a");
    NameAt(t, 2, n, "strong");
    NameAt(t, 2, n, "em");
    NameAt(t, 2, n, "code");
    assert KeptCloserPrefix(t, 2) == SparedByStrayPass(n);
    ForeignTagEnd(t, 2, n, 2);
  }

  lemma ForeignCloseOtherTags(t: string, n: string)
    requires ForeignShaped(t, 2, n) && t[1] == '/'
    ensures MatchAt(OtherTags, t) == Some(Hit(|n| + 3, ""))
  {
    NamesAt(t, 2, n);
    NotLitAt(t, 1, "a");
    NotLitAt(t, 1, "strong");
    NotLitAt(t, 1, "em");
    NotLitAt(t, 1, "code");
    NotLitAt(t, 1, "br");
    assert !AllowedTagAfterBracket(t);
    ForeignTagEnd(t, 2, n, 1);
  }

  /** A foreign closing tag: the closing-tag pass removes it unless its name starts like an
      allowed one, and the catch-all pass removes it in any case. */
  lemma ForeignCloseStart(p: Pass, n: string, r: string)
    requires CleanPiece(ForeignClose(n))
    ensures MatchAt(p, PieceText(ForeignClose(n)) + r)
         == (if p == OtherTags || (p == StrayClosers && !SparedByStrayPass(n)) then Some(Hit(|n| + 3, "")) else None)
  {
    var t := PieceText(ForeignClose(n)) + r;
    TagShape("</", n, r);
    assert ForeignShaped(t, 2, n) && t[1] == '/';
    AngleStart(t);
    SlashStart(t);
    ForeignCloseFormatClosers(t, n);
    ForeignCloseStrayClosers(t, n);
    ForeignCloseOtherTags(t, n);
  }

  // ---------------------------------------------------------------------------
  // Each pass on well-formed input

  predicate NoEquals(s: string) {
    forall k :: 0 <= k < |s| ==> s[k] != '='
  }

  /** What a pass emits for a piece. */
  function PieceOut(p: Pass, x: Piece): string {
    if Dropped(p, x) then [] else PieceText(x)
  }

  lemma PieceStart(p: Pass, x: Piece, r: string)
    requires CleanPiece(x) && NoEquals(r)
    ensures MatchAt(p, PieceText(x) + r)
         == (if Touches(p, x) then Some(Hit(|PieceText(x)|, PieceOut(p, x))) else None)
  {
    if x.Open? || x.Close? || x.LineBreak? {
      KeptPieceStart(p, x, r);
    } else {
      PlainPieceStart(p, x, r);
    }
  }

  lemma KeptPieceStart(p: Pass, x: Piece, r: string)
    requires x.Open? || x.Close? || x.LineBreak?
    ensures MatchAt(p, PieceText(x) + r)
         == (if Touches(p, x) then Some(Hit(|PieceText(x)|, PieceOut(p, x))) else None)
  {
    match x
    case Open(f) => OpenStart(p, f, r);
    case Close(f) => CloseStart(p, f, r);
    case LineBreak => LineBreakStart(p, r);
  }

  lemma PlainPieceStart(p: Pass, x: Piece, r: string)
    requires x.Char? || x.ForeignOpen? || x.ForeignClose?
    requires CleanPiece(x) && NoEquals(r)
    ensures MatchAt(p, PieceText(x) + r)
         == (if Touches(p, x) then Some(Hit(|PieceText(x)|, PieceOut(p, x))) else None)
  {
    if x.Char? {
      CharPieceStart(p, x, r);
    } else {
      ForeignPieceStart(p, x, r);
    }
  }

  lemma CharPieceStart(p: Pass, x: Piece, r: string)
    requires x.Char? && CleanPiece(x) && NoEquals(r)
    ensures MatchAt(p, PieceText(x) + r).None? && !Touches(p, x)
  {
    PlainNoMatch(p, PieceText(x) + r);
  }

  lemma ForeignPieceStart(p: Pass, x: Piece, r: string)
    requires (x.ForeignOpen? || x.ForeignClose?) && CleanPiece(x)
    ensures MatchAt(p, PieceText(x) + r)
         == (if Touches(p, x) then Some(Hit(|PieceText(x)|, PieceOut(p, x))) else None)
  {
    if x.ForeignOpen? {
      ForeignOpenPieceStart(p, x, r);
    } else {
      ForeignClosePieceStart(p, x, r);
    }
  }

  lemma ForeignOpenPieceStart(p: Pass, x: Piece, r: string)
    requires x.ForeignOpen? && CleanPiece(x)
    ensures MatchAt(p, PieceText(x) + r)
         == (if Touches(p, x) then Some(Hit(|PieceText(x)|, PieceOut(p, x))) else None)
  {
    ForeignOpenStart(p, x.name, r);
  }

  lemma ForeignClosePieceStart(p: Pass, x: Piece, r: string)
    requires x.ForeignClose? && CleanPiece(x)
    ensures MatchAt(p, PieceText(x) + r)
         == (if Touches(p, x) then Some(Hit(|PieceText(x)|, PieceOut(p, x))) else None)
  {
    ForeignCloseStart(p, x.name, r);
  }

  lemma FormatNameChars(name: string)
    requires FormatName(name)
    ensures forall k :: 0 <= k < |name| ==> IsAsciiLetter(name[k])
  {
  }

  /** Inside a piece there is no `<`, carriage return or `=` after its first character. */
  lemma PieceChars(x: Piece)
    requires CleanPiece(x)
    ensures NoEquals(PieceText(x))
    ensures forall i :: 0 < i < |PieceText(x)| ==> PieceText(x)[i] != '<' && PieceText(x)[i] != '\r'
  {
    var pt := PieceText(x);
    match x
    case Char(c) =>
    case Open(f) =>
      FormatNameChars(TagName(f));
      assert pt == "<" + TagName(f) + ">";
    case Close(f) =>
      FormatNameChars(TagName(f));
      assert pt == "</" + TagName(f) + ">";
    case LineBreak =>
    case ForeignOpen(n) =>
    case ForeignClose(n) =>
  }

  lemma PieceInner(p: Pass, x: Piece, r: string)
    requires CleanPiece(x) && NoEquals(r)
    ensures forall i :: 0 < i < |PieceText(x)| ==> MatchAt(p, (PieceText(x) + r)[i..]).None?
  {
    PieceChars(x);
    var t := PieceText(x) + r;
    forall i | 0 < i < |PieceText(x)|
      ensures MatchAt(p, t[i..]).None?
    {
      assert t[i..][0] == PieceText(x)[i];
      PlainNoMatch(p, t[i..]);
    }
  }

  /** One pass over one piece followed by the rest of the input. */
  lemma PieceStep(p: Pass, x: Piece, r: string)
    requires CleanPiece(x) && NoEquals(r)
    ensures Rewrite(p, PieceText(x) + r) == PieceOut(p, x) + Rewrite(p, r)
  {
    PieceStart(p, x, r);
    if Touches(p, x) {
      RewriteMatch(p, PieceText(x), r, PieceOut(p, x));
    } else {
      PieceInner(p, x, r);
      assert (PieceText(x) + r)[0..] == PieceText(x) + r;
      RewriteKeep(p, PieceText(x), r);
    }
  }

  lemma {:induction false} RenderNoEquals(ps: seq<Piece>)
    requires Clean(ps)
    ensures NoEquals(Render(ps))
  {
    if ps != [] {
      PieceChars(ps[0]);
      RenderNoEquals(ps[1..]);
    }
  }

  lemma {:induction false} SurvivorsClean(p: Pass, ps: seq<Piece>)
    requires Clean(ps)
    ensures Clean(Survivors(p, ps))
  {
    if ps != [] {
      SurvivorsClean(p, ps[1..]);
    }
  }

  /** A pass over well-formed input is the pass over its pieces. */
  lemma {:induction false} PassOnPieces(p: Pass, ps: seq<Piece>)
    requires Clean(ps)
    ensures Rewrite(p, Render(ps)) == Render(Survivors(p, ps))
  {
    if ps != [] {
      var x, tail := ps[0], ps[1..];
      RenderNoEquals(tail);
      PieceStep(p, x, Render(tail));
      PassOnPieces(p, tail);
      var rest := Survivors(p, tail);
      assert Render(ps) == PieceText(x) + Render(tail);
      assert Rewrite(p, Render(ps)) == PieceOut(p, x) + Render(rest);
      if Dropped(p, x) {
        assert Survivors(p, ps) == [] + rest == rest;
      } else {
        assert Survivors(p, ps) == [x] + rest;
        assert ([x] + rest)[1..] == rest;
        assert Render([x] + rest) == PieceText(x) + Render(rest);
      }
    }
  }

  /** Only the two tag-removing passes drop pieces. */
  lemma {:induction false} SurvivorsAll(p: Pass, ps: seq<Piece>)
    requires p != StrayClosers && p != OtherTags
    ensures Survivors(p, ps) == ps
  {
    if ps != [] {
      SurvivorsAll(p, ps[1..]);
      assert [ps[0]] + ps[1..] == ps;
    }
  }

  lemma {:induction false} SurvivorsVisible(ps: seq<Piece>)
    ensures Survivors(OtherTags, Survivors(StrayClosers, ps)) == Visible(ps)
  {
    if ps != [] {
      var x, tail := ps[0], ps[1..];
      SurvivorsVisible(tail);
      var rest := Survivors(StrayClosers, tail);
      if Dropped(StrayClosers, x) {
        assert Survivors(StrayClosers, ps) == [] + rest == rest;
      } else {
        assert Survivors(StrayClosers, ps) == [x] + rest;
        assert ([x] + rest)[0] == x;
        assert ([x] + rest)[1..] == rest;
      }
    }
  }

  /** The passes after the anchor pass, on well-formed input. */
  lemma LaterPasses(ps: seq<Piece>)
    requires Clean(ps)
    ensures Rewrite(ScriptHrefs, Rewrite(EventHandlers, Rewrite(OtherTags, Rewrite(StrayClosers,
              Rewrite(LineBreaks, Rewrite(FormatClosers, Rewrite(FormatOpeners, Render(ps))))))))
         == Render(Visible(ps))
  {
    PassOnPieces(FormatOpeners, ps);
    SurvivorsAll(FormatOpeners, ps);
    PassOnPieces(FormatClosers, ps);
    SurvivorsAll(FormatClosers, ps);
    PassOnPieces(LineBreaks, ps);
    SurvivorsAll(LineBreaks, ps);
    PassOnPieces(StrayClosers, ps);
    var qs := Survivors(StrayClosers, ps);
    SurvivorsClean(StrayClosers, ps);
    PassOnPieces(OtherTags, qs);
    SurvivorsVisible(ps);
    var vs := Visible(ps);
    SurvivorsClean(OtherTags, qs);
    PassOnPieces(EventHandlers, vs);
    SurvivorsAll(EventHandlers, vs);
    PassOnPieces(ScriptHrefs, vs);
    SurvivorsAll(ScriptHrefs, vs);
  }

  /** Plain characters as pieces. */
  function Chars(s: string): (ps: seq<Piece>)
    ensures |ps| == |s| && forall i :: 0 <= i < |s| ==> ps[i] == Char(s[i])
  {
    if s == [] then [] else [Char(s[0])] + Chars(s[1..])
  }

  lemma {:induction false} CharsRenderVisible(s: string)
    ensures Render(Chars(s)) == s && Visible(Chars(s)) == Chars(s)
  {
    if s != [] {
      CharsRenderVisible(s[1..]);
      assert Chars(s)[1..] == Chars(s[1..]);
    }
  }

  /** Sanitizing well-formed input keeps its text and its formatting tags and removes
      every other tag, leaving the text between them: `<div>text <span>inside</span></div>`
      becomes `text inside`, `<script>alert(1)</script>` becomes `alert(1)`, and already
      clean formatting comes back unchanged. */
  lemma SanitizeWellFormed(ps: seq<Piece>)
    requires Clean(ps)
    ensures SanitizeHtml(Render(ps)) == Render(Visible(ps))
  {
    if ps == [] {
      return;
    }
    assert Render(ps) != [];
    PassOnPieces(Newlines, ps);
    SurvivorsAll(Newlines, ps);
    PassOnPieces(Anchors, ps);
    SurvivorsAll(Anchors, ps);
    LaterPasses(ps);
  }

  /** Text without `<`, `=` or carriage returns passes the sanitiser unchanged. */
  lemma PlainTextKept(s: string)
    requires forall i :: 0 <= i < |s| ==> s[i] != '<' && s[i] != '=' && s[i] != '\r'
    ensures SanitizeHtml(s) == s
  {
    CharsRenderVisible(s);
    SanitizeWellFormed(Chars(s));
  }

  // ---------------------------------------------------------------------------
  // Anchors

  lemma {:induction false} FirstAnchorCloserAt(t: string, i: nat, j: nat, l: nat)
    requires i <= j < |t| && AnchorCloserLen(t[j..]) == Some(l)
    requires forall k :: i <= k < j ==> AnchorCloserLen(t[k..]).None?
    ensures FirstAnchorCloser(t, i) == Some((j, j + l))
    decreases j - i
  {
    if i < j {
      assert AnchorCloserLen(t[i..]).None? && i < |t|;
      FirstAnchorCloserAt(t, i + 1, j, l);
      assert FirstAnchorCloser(t, i) == FirstAnchorCloser(t, i + 1);
    } else {
      assert AnchorCloserLen(t[i..]) == Some(l);
    }
  }

  lemma AnchorCloserText(r: string)
    ensures AnchorCloserLen("</a>" + r) == Some(4)
  {
    var u := "</a>" + r;
    assert u[0] == '<' && u[1] == '/' && u[2] == 'a' && u[3] == '>';
    assert SkipSpaces(u, 1) == 1;
    assert SkipSpaces(u, 2) == 2;
    assert SkipSpaces(u, 3) == 3;
  }

  /** What may follow `<a` in an opening anchor tag: nothing or a non-word character first
      (the `\b`), and no `>` before the one that closes the tag. */
  predicate AnchorAttrs(attrs: string) {
    (attrs == [] || !IsWordChar(attrs[0])) && '>' !in attrs
  }

  /** No closer starts inside `inner` when it is followed by `</a>` and the rest. */
  predicate NoCloserIn(inner: string, rest: string) {
    forall k :: 0 <= k < |inner| ==> AnchorCloserLen((inner + "</a>" + rest)[k..]).None?
  }

  lemma OpeningEnd(attrs: string, t: string)
    requires AnchorAttrs(attrs)
    requires |t| >= |attrs| + 3 && t[..|attrs| + 3] == "<a" + attrs + ">"
    ensures t[2 + |attrs|] == '>' && forall m :: 2 <= m < 2 + |attrs| ==> t[m] != '>'
  {
    var o := "<a" + attrs + ">";
    forall m | 2 <= m < 2 + |attrs|
      ensures t[m] != '>'
    {
      assert t[m] == o[m] == attrs[m - 2];
    }
    assert t[2 + |attrs|] == o[2 + |attrs|];
  }

  lemma CloserAfterInner(opening: string, inner: string, rest: string)
    requires NoCloserIn(inner, rest)
    ensures FirstAnchorCloser(opening + inner + "</a>" + rest, |opening|)
         == Some((|opening| + |inner|, |opening| + |inner| + 4))
  {
    var t := opening + inner + "</a>" + rest;
    CloserAtInnerEnd(opening, inner, rest, t);
    InnerHasNoCloser(opening, inner, rest, t);
    FirstAnchorCloserAt(t, |opening|, |opening| + |inner|, 4);
  }

  lemma CloserAtInnerEnd(opening: string, inner: string, rest: string, t: string)
    requires t == opening + inner + "</a>" + rest
    ensures |opening| + |inner| < |t| && AnchorCloserLen(t[|opening| + |inner|..]) == Some(4)
  {
    assert t[|opening| + |inner|..] == "</a>" + rest;
    AnchorCloserText(rest);
  }

  lemma InnerHasNoCloser(opening: string, inner: string, rest: string, t: string)
    requires NoCloserIn(inner, rest) && t == opening + inner + "</a>" + rest
    ensures forall m :: |opening| <= m < |opening| + |inner| ==> AnchorCloserLen(t[m..]).None?
  {
    var u := inner + "</a>" + rest;
    assert t == opening + u;
    forall m | |opening| <= m < |opening| + |inner|
      ensures AnchorCloserLen(t[m..]).None?
    {
      assert t[m..] == u[m - |opening|..];
    }
  }

  lemma AnchorMatchPair(attrs: string, inner: string, rest: string)
    requires AnchorAttrs(attrs) && NoCloserIn(inner, rest)
    ensures MatchAt(Anchors, "<a" + attrs + ">" + inner + "</a>" + rest)
         == Some(Hit(|"<a" + attrs + ">" + inner + "</a>"|, SanitizeAnchorPair("<a" + attrs + ">", inner)))
  {
    var opening := "<a" + attrs + ">";
    var t := opening + inner + "</a>" + rest;
    AnchorPairText(attrs, inner, rest, opening, t);
    AnchorHit(t, |opening| - 1, |opening|, |opening| + |inner|, |opening| + |inner| + 4, opening, inner,
      |"<a" + attrs + ">" + inner + "</a>"|);
  }

  /** Where the anchor pattern's pieces fall in an anchor pair. */
  lemma AnchorPairText(attrs: string, inner: string, rest: string, opening: string, t: string)
    requires AnchorAttrs(attrs) && NoCloserIn(inner, rest)
    requires opening == "<a" + attrs + ">" && t == opening + inner + "</a>" + rest
    ensures |t| >= 3 && t[0] == '<' && SameLetterCI(t[1], 'a') && WordEnds(t, 2)
    ensures |opening| == |attrs| + 3 && t[|opening| - 1] == '>'
    ensures forall m :: 2 <= m < |opening| - 1 ==> t[m] != '>'
    ensures FirstAnchorCloser(t, |opening|) == Some((|opening| + |inner|, |opening| + |inner| + 4))
    ensures t[..|opening|] == opening && t[|opening|..|opening| + |inner|] == inner
  {
    assert t[..|opening|] == opening;
    OpeningEnd(attrs, t);
    CloserAfterInner(opening, inner, rest);
    assert t[0] == opening[0] && t[1] == opening[1] && t[2] == opening[2];
    assert t[|opening|..|opening| + |inner|] == inner;
  }

  /** The anchor pass at t, from where its opening tag and its first closer end. */
  lemma AnchorHit(t: string, k: nat, o: nat, c0: nat, c1: nat, opening: string, inner: string, len: nat)
    requires |t| >= 3 && t[0] == '<' && SameLetterCI(t[1], 'a') && WordEnds(t, 2)
    requires 2 <= k < |t| && t[k] == '>' && (forall m :: 2 <= m < k ==> t[m] != '>') && o == k + 1
    requires FirstAnchorCloser(t, o) == Some((c0, c1))
    requires o <= c0 <= |t| && t[..o] == opening && t[o..c0] == inner && len == c1
    ensures MatchAt(Anchors, t) == Some(Hit(len, SanitizeAnchorPair(opening, inner)))
  {
    FindCharAt(t, '>', 2, k);
    AnchorMatchAt(t, k, c0, c1);
    AnchorPassMatch(t);
  }

  /** The anchor pattern at the start of t, from where its opening tag and its first
      closer end. */
  lemma AnchorMatchAt(t: string, k: nat, c0: nat, c1: nat)
    requires |t| >= 3 && t[0] == '<' && SameLetterCI(t[1], 'a') && WordEnds(t, 2)
    requires FindChar(t, '>', 2) == Some(k) && FirstAnchorCloser(t, k + 1) == Some((c0, c1))
    ensures AnchorMatch(t) == Some(Hit(c1, SanitizeAnchorPair(t[..k + 1], t[k + 1..c0])))
  {
    assert AnchorMatch(t) == AnchorPairAt(t, k + 1);
    AnchorPairHit(t, k + 1, c0, c1);
  }

  lemma AnchorPairHit(t: string, o: nat, c0: nat, c1: nat)
    requires 0 < o <= |t| && FirstAnchorCloser(t, o) == Some((c0, c1))
    ensures AnchorPairAt(t, o) == Some(Hit(c1, SanitizeAnchorPair(t[..o], t[o..c0])))
  {
  }

  /** The anchor pass matches with the anchor pattern. */
  lemma AnchorPassMatch(t: string)
    ensures MatchAt(Anchors, t) == AnchorMatch(t)
  {
  }

  /** The anchor pass replaces an anchor pair by what `sanitizeAnchorPair` makes of it; the
      lazy inner part ends at the first closer. */
  lemma AnchorPairRewrite(attrs: string, inner: string, rest: string, t: string)
    requires AnchorAttrs(attrs) && NoCloserIn(inner, rest)
    requires t == "<a" + attrs + ">" + inner + "</a>" + rest
    ensures Rewrite(Anchors, t) == SanitizeAnchorPair("<a" + attrs + ">", inner) + Rewrite(Anchors, rest)
  {
    var a := "<a" + attrs + ">" + inner + "</a>";
    var out := SanitizeAnchorPair("<a" + attrs + ">", inner);
    AnchorMatchPair(attrs, inner, rest);
    RewriteMatch(Anchors, a, rest, out);
  }

  lemma NoAngleNoCloser(inner: string, rest: string)
    requires '<' !in inner
    ensures NoCloserIn(inner, rest)
  {
    forall k | 0 <= k < |inner|
      ensures AnchorCloserLen((inner + "</a>" + rest)[k..]).None?
    {
      assert (inner + "</a>" + rest)[k..][0] == inner[k];
    }
  }

  /** The href of `<a href="h"…>` or `<a href='h'…>` is h. */
  lemma HrefQuoted(q: char, h: string, more: string)
    requires q == '"' || q == '\''
    requires q !in h
    ensures Href("<a href=" + [q] + h + [q] + more) == h
  {
    var o := "<a href=" + [q] + h + [q] + more;
    HrefQuotedText(q, h, more, o);
    HrefAtQuoted(o, q, 9 + |h|);
    HrefAfterAnchor(o, h);
  }

  lemma HrefQuotedText(q: char, h: string, more: string, o: string)
    requires q == '"' || q == '\''
    requires q !in h && o == "<a href=" + [q] + h + [q] + more
    ensures |o| >= 9 && o[0] == '<' && o[1] == 'a' && o[2] == ' ' && LitAt(o, 3, "href")
    ensures o[7] == '=' && o[8] == q && 9 + |h| <= |o| && FindChar(o, q, 9) == Some(9 + |h|)
    ensures o[9..9 + |h|] == h
  {
    LitAtSelf(o, 3, "href");
    forall m | 9 <= m < 9 + |h|
      ensures o[m] != q
    {
      assert o[m] == h[m - 9];
    }
    FindCharAt(o, q, 9, 9 + |h|);
    assert o[9..9 + |h|] == h;
  }

  /** `href=` at position 3 followed by a quoted value. */
  lemma HrefAtQuoted(o: string, q: char, e: nat)
    requires q == '"' || q == '\''
    requires |o| >= 9 && LitAt(o, 3, "href") && o[7] == '=' && o[8] == q
    requires 9 <= e <= |o| && FindChar(o, q, 9) == Some(e)
    ensures HrefAt(o, 3) == Some(o[9..e])
  {
    SkipSpacesAt(o, 7, 7);
    SkipSpacesAt(o, 8, 8);
  }

  /** In `<a ` followed by an href, that href is the first. */
  lemma HrefAfterAnchor(o: string, h: string)
    requires |o| >= 3 && o[0] == '<' && o[1] == 'a' && o[2] == ' '
    requires HrefAt(o, 3) == Some(h)
    ensures Href(o) == h
  {
    NotLitAt(o, 0, "href");
    NotLitAt(o, 1, "href");
    NotLitAt(o, 2, "href");
    assert FirstHref(o, 3) == Some(h);
    assert FirstHref(o, 2) == Some(h);
    assert FirstHref(o, 1) == Some(h);
  }

  /** The href of `<a href=h…>` with an unquoted h is the run up to white space or `>`. */
  lemma HrefUnquoted(h: string, more: string)
    requires h != [] && h[0] != '"' && h[0] != '\''
    requires forall k :: 0 <= k < |h| ==> !IsSpace(h[k]) && h[k] != '>'
    requires more == [] || IsSpace(more[0]) || more[0] == '>'
    ensures Href("<a href=" + h + more) == h
  {
    var o := "<a href=" + h + more;
    HrefUnquotedText(h, more, o);
    HrefAtUnquoted(o, 8 + |h|);
    HrefAfterAnchor(o, h);
  }

  lemma HrefUnquotedText(h: string, more: string, o: string)
    requires h != [] && h[0] != '"' && h[0] != '\''
    requires forall k :: 0 <= k < |h| ==> !IsSpace(h[k]) && h[k] != '>'
    requires more == [] || IsSpace(more[0]) || more[0] == '>'
    requires o == "<a href=" + h + more
    ensures |o| > 8 && o[0] == '<' && o[1] == 'a' && o[2] == ' ' && LitAt(o, 3, "href") && o[7] == '='
    ensures o[8] != '"' && o[8] != '\'' && o[8] != '>' && !IsSpace(o[8])
    ensures 8 + |h| <= |o| && UnquotedEnd(o, 8) == 8 + |h| && o[8..8 + |h|] == h
  {
    LitAtSelf(o, 3, "href");
    assert o[8] == h[0];
    forall m | 8 <= m < 8 + |h|
      ensures !IsSpace(o[m]) && o[m] != '>'
    {
      assert o[m] == h[m - 8];
    }
    if 8 + |h| < |o| {
      assert o[8 + |h|] == more[0];
    }
    UnquotedEndAt(o, 8, 8 + |h|);
    assert o[8..8 + |h|] == h;
  }

  /** `href=` at position 3 followed by an unquoted value. */
  lemma HrefAtUnquoted(o: string, e: nat)
    requires |o| > 8 && LitAt(o, 3, "href") && o[7] == '='
    requires o[8] != '"' && o[8] != '\'' && o[8] != '>' && !IsSpace(o[8])
    requires 8 <= e <= |o| && UnquotedEnd(o, 8) == e
    ensures HrefAt(o, 3) == Some(o[8..e])
  {
    SkipSpacesAt(o, 7, 7);
    SkipSpacesAt(o, 8, 8);
  }

  /** An opening tag in which no `href` occurs has the empty href. */
  lemma {:induction false} NoHrefFrom(o: string, p: nat)
    requires p <= |o|
    requires forall k :: p <= k <= |o| ==> !LitAt(o, k, "href")
    ensures FirstHref(o, p).None?
    decreases |o| - p
  {
    if p < |o| {
      NoHrefFrom(o, p + 1);
    }
  }

  lemma HrefAbsent(opening: string)
    requires forall k :: 0 <= k <= |opening| ==> !LitAt(opening, k, "href")
    ensures Href(opening) == "" && !SafeScheme(Href(opening))
  {
    NoHrefFrom(opening, 0);
  }

  /** Escaping works character by character: each `"` becomes `&quot;` in place and every
      other character is kept, so the escaped href reads back as the original. */
  lemma EscapeQuotesSplit(a: string, c: char, b: string)
    ensures EscapeQuotes(a + [c] + b) == EscapeQuotes(a) + (if c == '"' then "&quot;" else [c]) + EscapeQuotes(b)
  {
    var q := if c == '"' then "&quot;" else [c];
    assert EscapeQuotes([c]) == q by {
      EscapeCons([c]);
      assert [c][1..] == [];
    }
    EscapeAppend(a, [c]);
    EscapeAppend(a + [c], b);
  }

  /** Escaping distributes over concatenation. */
  lemma {:induction false} EscapeAppend(x: string, y: string)
    ensures EscapeQuotes(x + y) == EscapeQuotes(x) + EscapeQuotes(y)
    decreases |x|
  {
    if x == [] {
      assert x + y == y;
    } else {
      var xy := x + y;
      assert xy[0] == x[0] && xy[1..] == x[1..] + y;
      EscapeCons(xy);
      EscapeCons(x);
      EscapeAppend(x[1..], y);
      JoinAssoc3(if x[0] == '"' then "&quot;" else [x[0]], EscapeQuotes(x[1..]), EscapeQuotes(y));
    }
  }

  /** Nothing but the text's own characters and those of `&quot;` appear in the result. */
  lemma {:induction false} EscapeQuotesChars(h: string)
    ensures forall c :: c in EscapeQuotes(h) ==> c in h || c in "&quot;"
  {
    if h != [] {
      EscapeQuotesChars(h[1..]);
      EscapeCons(h);
      assert h == [h[0]] + h[1..];
    }
  }

  /** Each quote adds five characters: `"` is one, `&quot;` is six. */
  lemma {:induction false} EscapeQuotesLength(h: string)
    ensures |EscapeQuotes(h)| == |h| + 5 * multiset(h)['"']
  {
    if h != [] {
      EscapeQuotesLength(h[1..]);
      EscapeCons(h);
      assert h == [h[0]] + h[1..];
    }
  }

  lemma EscapeCons(x: string)
    requires x != []
    ensures EscapeQuotes(x) == (if x[0] == '"' then "&quot;" else [x[0]]) + EscapeQuotes(x[1..])
  {
  }

  lemma JoinAssoc3(x: string, y: string, z: string)
    ensures x + (y + z) == (x + y) + z
  {
  }

  /** The rebuilt anchor, spelled out. */
  lemma CanonicalAnchorText(h: string, inner: string)
    requires '"' !in h
    ensures CanonicalAnchor(h, inner) == "<a href=\"" + h + "\" rel=\"noopener nofollow ugc\">" + inner + "</a>"
  {
  }

  /** An anchor pair whose href starts with http:, https: or mailto: is rebuilt with only
      that href and a fixed rel; every other attribute is gone. The href is the one
      `Href` reads, whether it is double-quoted, single-quoted or unquoted and wherever it
      stands among the attributes. */
  lemma SafeAnchorRebuilt(attrs: string, inner: string, rest: string)
    requires AnchorAttrs(attrs) && NoCloserIn(inner, rest)
    requires SafeScheme(Href("<a" + attrs + ">"))
    ensures Rewrite(Anchors, "<a" + attrs + ">" + inner + "</a>" + rest)
         == CanonicalAnchor(Href("<a" + attrs + ">"), inner) + Rewrite(Anchors, rest)
  {
    AnchorPairRewrite(attrs, inner, rest, "<a" + attrs + ">" + inner + "</a>" + rest);
  }

  /** An anchor pair with any other href, or with none (`HrefAbsent`), is replaced by its
      inner text. */
  lemma UnsafeAnchorUnwrapped(attrs: string, inner: string, rest: string)
    requires AnchorAttrs(attrs) && NoCloserIn(inner, rest)
    requires !SafeScheme(Href("<a" + attrs + ">"))
    ensures Rewrite(Anchors, "<a" + attrs + ">" + inner + "</a>" + rest) == inner + Rewrite(Anchors, rest)
  {
    AnchorPairRewrite(attrs, inner, rest, "<a" + attrs + ">" + inner + "</a>" + rest);
  }

  lemma {:induction false} NewlinesKeepCRFree(s: string)
    requires '\r' !in s
    ensures Rewrite(Newlines, s) == s
    decreases |s|
  {
    if s != [] {
      NewlinesKeepCRFree(s[1..]);
      assert s == [s[0]] + s[1..];
    }
  }

  lemma {:induction false} RenderNoCR(ps: seq<Piece>)
    requires Clean(ps)
    ensures '\r' !in Render(ps)
  {
    if ps != [] {
      PieceChars(ps[0]);
      RenderNoCR(ps[1..]);
      var pt := PieceText(ps[0]);
      assert pt[0] != '\r';
      assert '\r' !in pt;
    }
  }

  /** An anchor closer needs `/` after `<` and its spaces. */
  lemma CloserNeedsSlash(u: string)
    requires |u| >= 2 && u[0] == '<' && u[1] != '/' && !IsSpace(u[1])
    ensures AnchorCloserLen(u).None?
  {
    assert SkipSpaces(u, 1) == 1;
  }

  /** ... then `a` after `</`. */
  lemma CloserNeedsA(u: string)
    requires |u| >= 3 && u[0] == '<' && u[1] == '/' && !IsSpace(u[2]) && !SameLetterCI(u[2], 'a')
    ensures AnchorCloserLen(u).None?
  {
    assert SkipSpaces(u, 1) == 1;
    assert SkipSpaces(u, 2) == 2;
  }

  /** ... then `>` after `</a`. */
  lemma CloserNeedsEnd(u: string)
    requires |u| >= 4 && u[0] == '<' && u[1] == '/' && SameLetterCI(u[2], 'a') && !IsSpace(u[3]) && u[3] != '>'
    ensures AnchorCloserLen(u).None?
  {
    assert SkipSpaces(u, 1) == 1;
    assert SkipSpaces(u, 2) == 2;
    assert SkipSpaces(u, 3) == 3;
  }

  /** No anchor closer starts a well-formed piece: the only closer-like piece would be
      `</a>`, which is on the allow-list. */
  lemma PieceNoCloser(x: Piece, r: string)
    requires CleanPiece(x)
    ensures AnchorCloserLen(PieceText(x) + r).None?
  {
    match x
    case Char(c) =>
    case Open(f) => OpenNoCloser(TagName(f), r);
    case Close(f) => CloseNoCloser(TagName(f), r);
    case LineBreak =>
      var u := PieceText(x) + r;
      assert u[1] == 'b';
      CloserNeedsSlash(u);
    case ForeignOpen(n) => OpenNoCloser(n, r);
    case ForeignClose(n) => CloseNoCloser(n, r);
  }

  lemma OpenNoCloser(n: string, r: string)
    requires n != [] && IsWordChar(n[0])
    ensures AnchorCloserLen("<" + n + ">" + r).None?
  {
    var u := "<" + n + ">" + r;
    TagShape("<", n, r);
    assert u[1 + 0] == n[0];
    CloserNeedsSlash(u);
  }

  /** A closing tag's name is `a` only when it is spelled `a`, which no well-formed
      piece is. */
  lemma CloseNoCloser(n: string, r: string)
    requires n != [] && (forall k :: 0 <= k < |n| ==> IsWordChar(n[k])) && !NamesCI(n, "a")
    ensures AnchorCloserLen("</" + n + ">" + r).None?
  {
    var u := "</" + n + ">" + r;
    TagShape("</", n, r);
    assert u[0] == '<' && u[1] == '/' && u[2 + 0] == n[0];
    if SameLetterCI(n[0], 'a') {
      assert |n| >= 2;
      assert u[2 + 1] == n[1];
      CloserNeedsEnd(u);
    } else {
      CloserNeedsA(u);
    }
  }

  lemma {:induction false} RenderNoCloser(ps: seq<Piece>, r: string)
    requires Clean(ps)
    ensures forall k :: 0 <= k < |Render(ps)| ==> AnchorCloserLen((Render(ps) + r)[k..]).None?
  {
    if ps != [] {
      var x, tail := ps[0], ps[1..];
      RenderNoCloser(tail, r);
      PieceChars(x);
      PieceNoCloser(x, Render(tail) + r);
      CloserFreeJoin(PieceText(x), Render(tail), r);
    }
  }

  /** A piece that no closer starts, with no `<` after its first character, in front of
      text where no closer starts: no closer starts anywhere in the two. */
  lemma CloserFreeJoin(pt: string, mid: string, r: string)
    requires AnchorCloserLen(pt + (mid + r)).None?
    requires forall i :: 0 < i < |pt| ==> pt[i] != '<'
    requires forall k :: 0 <= k < |mid| ==> AnchorCloserLen((mid + r)[k..]).None?
    ensures forall k :: 0 <= k < |pt + mid| ==> AnchorCloserLen((pt + mid + r)[k..]).None?
  {
    var u := pt + mid + r;
    forall k | 0 <= k < |pt + mid|
      ensures AnchorCloserLen(u[k..]).None?
    {
      if k == 0 {
        assert u[k..] == pt + (mid + r);
      } else if k < |pt| {
        assert u[k..][0] == pt[k];
      } else {
        assert u[k..] == (mid + r)[k - |pt|..];
      }
    }
  }

  /** End to end: an anchor with a disallowed href around well-formed content leaves only
      what sanitizing the content alone leaves (`<a href="javascript:alert(1)">bad</a>`
      gives `bad`). */
  lemma UnsafeAnchorSanitized(attrs: string, ps: seq<Piece>)
    requires AnchorAttrs(attrs) && '\r' !in attrs
    requires !SafeScheme(Href("<a" + attrs + ">")) && Clean(ps)
    ensures SanitizeHtml("<a" + attrs + ">" + Render(ps) + "</a>") == Render(Visible(ps))
  {
    var t := "<a" + attrs + ">" + Render(ps) + "</a>";
    RenderNoCR(ps);
    assert '\r' !in t;
    NewlinesKeepCRFree(t);
    RenderNoCloser(ps, "</a>");
    assert Render(ps) + "</a>" + [] == Render(ps) + "</a>";
    UnsafeAnchorUnwrapped(attrs, Render(ps), []);
    assert t == "<a" + attrs + ">" + Render(ps) + "</a>" + [];
    assert Rewrite(Anchors, t) == Render(ps);
    LaterPasses(ps);
  }

  // ---------------------------------------------------------------------------
  // Formatting tags, line breaks and attributes, one pass at a time

  lemma SkipSpacesAt(t: string, i: nat, j: nat)
    requires i <= j <= |t|
    requires forall k :: i <= k < j ==> IsSpace(t[k])
    requires j == |t| || !IsSpace(t[j])
    ensures SkipSpaces(t, i) == j
  {
  }

  lemma {:induction false} UnquotedEndAt(t: string, i: nat, j: nat)
    requires i <= j <= |t|
    requires forall k :: i <= k < j ==> !IsSpace(t[k]) && t[k] != '>'
    requires j == |t| || IsSpace(t[j]) || t[j] == '>'
    ensures UnquotedEnd(t, i) == j
    decreases j - i
  {
    if i < j {
      UnquotedEndAt(t, i + 1, j);
    }
  }

  predicate AllSpaces(sp: string) {
    forall k :: 0 <= k < |sp| ==> IsSpace(sp[k])
  }

  /** What may follow a tag name before `>`: nothing or a non-word character first. */
  predicate TagAttrs(attrs: string) {
    (attrs == [] || !IsWordChar(attrs[0])) && '>' !in attrs
  }

  /** `<`, white space, then a name spelled `lit` in any case, followed by `\b`: the
      positions the opener patterns see. */
  lemma NamedTagStart(sp: string, n: string, lit: string, tail: string, t: string)
    requires AllSpaces(sp) && NamesCI(n, lit) && lit != []
    requires forall k :: 0 <= k < |lit| ==> 'a' <= lit[k] <= 'z'
    requires tail == [] || !IsWordChar(tail[0])
    requires t == "<" + sp + n + tail
    ensures SkipSpaces(t, 1) == 1 + |sp|
    ensures LitAt(t, 1 + |sp|, lit) && WordEnds(t, 1 + |sp| + |n|)
    ensures SameLetterCI(t[1 + |sp|], lit[0])
  {
    forall k | 1 <= k < 1 + |sp|
      ensures IsSpace(t[k])
    {
      assert t[k] == sp[k - 1];
    }
    assert t[1 + |sp|] == n[0];
    assert SameLetterCI(n[0], lit[0]);
    SkipSpacesAt(t, 1, 1 + |sp|);
    forall k | 0 <= k < |lit|
      ensures SameLetterCI(t[1 + |sp| + k], lit[k])
    {
      assert t[1 + |sp| + k] == n[k];
    }
    if 1 + |sp| + |n| < |t| {
      assert t[1 + |sp| + |n|] == tail[0];
    }
  }

  lemma TagEnd(pre: string, attrs: string, r: string, t: string)
    requires '>' !in attrs
    requires t == pre + attrs + ">" + r
    ensures |pre| + |attrs| < |t| && t[|pre| + |attrs|] == '>'
    ensures forall k :: |pre| <= k < |pre| + |attrs| ==> t[k] != '>'
  {
    forall k | |pre| <= k < |pre| + |attrs|
      ensures t[k] != '>'
    {
      assert t[k] == attrs[k - |pre|];
    }
  }

  /** An opening `strong`, `em` or `code` tag in any case, with white space after `<` and any
      attributes, becomes the bare lower-case tag. */
  lemma FormatOpenerNormalized(f: FormatTag, sp: string, n: string, attrs: string, r: string, t: string)
    requires AllSpaces(sp) && NamesCI(n, TagName(f)) && TagAttrs(attrs)
    requires t == "<" + sp + n + attrs + ">" + r
    ensures Rewrite(FormatOpeners, t) == "<" + TagName(f) + ">" + Rewrite(FormatOpeners, r)
  {
    var a := "<" + sp + n + attrs + ">";
    OpenerMatched(f, sp, n, attrs, r, t);
    RewriteMatch(FormatOpeners, a, r, "<" + TagName(f) + ">");
  }

  lemma OpenerMatched(f: FormatTag, sp: string, n: string, attrs: string, r: string, t: string)
    requires AllSpaces(sp) && NamesCI(n, TagName(f)) && TagAttrs(attrs)
    requires t == "<" + sp + n + attrs + ">" + r
    ensures MatchAt(FormatOpeners, t) == Some(Hit(|"<" + sp + n + attrs + ">"|, "<" + TagName(f) + ">"))
  {
    var pre := "<" + sp + n;
    OpenerFront(f, sp, n, attrs, r, t);
    TagEnd(pre, attrs, r, t);
    OpenerHit(t, 1 + |sp|, TagName(f), |pre|, |pre| + |attrs|, |"<" + sp + n + attrs + ">"|);
  }

  /** `<`, white space and a formatting name in any case, followed by `\b`. */
  lemma OpenerFront(f: FormatTag, sp: string, n: string, attrs: string, r: string, t: string)
    requires AllSpaces(sp) && NamesCI(n, TagName(f)) && TagAttrs(attrs)
    requires t == "<" + sp + n + attrs + ">" + r
    ensures t != [] && t[0] == '<' && SkipSpaces(t, 1) == 1 + |sp| && |n| == |TagName(f)|
    ensures FormatNameAt(t, 1 + |sp|) == Some(TagName(f)) && WordEnds(t, 1 + |sp| + |n|)
  {
    var name := TagName(f);
    var j := 1 + |sp|;
    assert t == "<" + sp + n + (attrs + ">" + r);
    NamedTagStart(sp, n, name, attrs + ">" + r, t);
    if name != "strong" { NotLitAt(t, j, "strong"); }
    if name == "code" { NotLitAt(t, j, "em"); }
  }

  lemma OpenerMatchAt(t: string, j: nat, name: string, e: nat, k: nat)
    requires t != [] && t[0] == '<' && SkipSpaces(t, 1) == j
    requires FormatNameAt(t, j) == Some(name) && e == j + |name| && WordEnds(t, e)
    requires e <= |t| && FindChar(t, '>', e) == Some(k)
    ensures FormatOpenerMatch(t) == Some(Hit(k + 1, "<" + name + ">"))
  {
  }

  lemma OpenerHit(t: string, j: nat, name: string, e: nat, k: nat, len: nat)
    requires t != [] && t[0] == '<' && SkipSpaces(t, 1) == j
    requires FormatNameAt(t, j) == Some(name) && e == j + |name| && WordEnds(t, e)
    requires e <= k < |t| && t[k] == '>' && (forall i :: e <= i < k ==> t[i] != '>') && len == k + 1
    ensures MatchAt(FormatOpeners, t) == Some(Hit(len, "<" + name + ">"))
  {
    FindCharAt(t, '>', e, k);
    OpenerMatchAt(t, j, name, e, k);
    OpenerPassMatch(t);
  }

  lemma OpenerPassMatch(t: string)
    ensures MatchAt(FormatOpeners, t) == FormatOpenerMatch(t)
  {
  }

  /** The shape of a closing tag with white space around the slash and before `>`. */
  predicate CloserText(sp1: string, sp2: string, n: string, sp3: string, r: string, t: string) {
    AllSpaces(sp1) && AllSpaces(sp2) && AllSpaces(sp3) && n != [] && !IsSpace(n[0])
    && t == "<" + sp1 + "/" + sp2 + n + sp3 + ">" + r
  }

  lemma CloserSlash(sp1: string, sp2: string, n: string, sp3: string, r: string, t: string, j1: nat)
    requires CloserText(sp1, sp2, n, sp3, r, t) && j1 == 1 + |sp1|
    ensures SkipSpaces(t, 1) == j1 && t[j1] == '/'
  {
    forall k | 1 <= k < j1
      ensures IsSpace(t[k])
    {
      assert t[k] == sp1[k - 1];
    }
    SkipSpacesAt(t, 1, j1);
  }

  lemma CloserName(sp1: string, sp2: string, n: string, sp3: string, r: string, t: string, j1: nat, j2: nat)
    requires CloserText(sp1, sp2, n, sp3, r, t) && j1 == 1 + |sp1| && j2 == j1 + 1 + |sp2|
    ensures SkipSpaces(t, j1 + 1) == j2 && j2 + |n| <= |t|
    ensures forall k :: 0 <= k < |n| ==> t[j2 + k] == n[k]
  {
    forall k | j1 + 1 <= k < j2
      ensures IsSpace(t[k])
    {
      assert t[k] == sp2[k - j1 - 1];
    }
    assert t[j2] == n[0];
    SkipSpacesAt(t, j1 + 1, j2);
    forall k | 0 <= k < |n|
      ensures t[j2 + k] == n[k]
    {
    }
  }

  lemma CloserEnd(sp1: string, sp2: string, n: string, sp3: string, r: string, t: string, j2: nat, j3: nat)
    requires CloserText(sp1, sp2, n, sp3, r, t) && j2 == 2 + |sp1| + |sp2| && j3 == j2 + |n| + |sp3|
    ensures SkipSpaces(t, j2 + |n|) == j3 && j3 < |t| && t[j3] == '>' && t[j3 + 1..] == r
  {
    forall k | j2 + |n| <= k < j3
      ensures IsSpace(t[k])
    {
      assert t[k] == sp3[k - j2 - |n|];
    }
    SkipSpacesAt(t, j2 + |n|, j3);
  }

  /** The name of a closer, read through FormatNameAt. */
  lemma CloserNameAt(f: FormatTag, n: string, t: string, j2: nat)
    requires NamesCI(n, TagName(f)) && j2 + |n| <= |t|
    requires forall k :: 0 <= k < |n| ==> t[j2 + k] == n[k]
    ensures FormatNameAt(t, j2) == Some(TagName(f))
  {
    var name := TagName(f);
    forall k | 0 <= k < |name|
      ensures SameLetterCI(t[j2 + k], name[k])
    {
      assert t[j2 + k] == n[k];
    }
    assert t[j2 + 0] == n[0];
    if name != "strong" { NotLitAt(t, j2, "strong"); }
    if name == "code" { NotLitAt(t, j2, "em"); }
  }

  lemma CloserMatchAt(t: string, j1: nat, j2: nat, name: string, j3: nat)
    requires t != [] && t[0] == '<'
    requires SkipSpaces(t, 1) == j1 && j1 < |t| && t[j1] == '/'
    requires SkipSpaces(t, j1 + 1) == j2 && FormatNameAt(t, j2) == Some(name)
    requires SkipSpaces(t, j2 + |name|) == j3 && j3 < |t| && t[j3] == '>'
    ensures FormatCloserMatch(t) == Some(Hit(j3 + 1, "</" + name + ">"))
  {
  }

  lemma CloserHit(t: string, j1: nat, j2: nat, name: string, j3: nat, len: nat)
    requires t != [] && t[0] == '<'
    requires SkipSpaces(t, 1) == j1 && j1 < |t| && t[j1] == '/'
    requires SkipSpaces(t, j1 + 1) == j2 && FormatNameAt(t, j2) == Some(name)
    requires SkipSpaces(t, j2 + |name|) == j3 && j3 < |t| && t[j3] == '>' && len == j3 + 1
    ensures MatchAt(FormatClosers, t) == Some(Hit(len, "</" + name + ">"))
  {
    CloserMatchAt(t, j1, j2, name, j3);
    CloserPassMatch(t);
  }

  lemma CloserPassMatch(t: string)
    ensures MatchAt(FormatClosers, t) == FormatCloserMatch(t)
  {
  }

  lemma CloserMatched(f: FormatTag, sp1: string, sp2: string, n: string, sp3: string, r: string, t: string)
    requires AllSpaces(sp1) && AllSpaces(sp2) && AllSpaces(sp3) && NamesCI(n, TagName(f))
    requires t == "<" + sp1 + "/" + sp2 + n + sp3 + ">" + r
    ensures MatchAt(FormatClosers, t) == Some(Hit(|"<" + sp1 + "/" + sp2 + n + sp3 + ">"|, "</" + TagName(f) + ">"))
  {
    var name := TagName(f);
    var j1 := 1 + |sp1|;
    var j2 := j1 + 1 + |sp2|;
    var j3 := j2 + |n| + |sp3|;
    assert SameLetterCI(n[0], name[0]);
    assert CloserText(sp1, sp2, n, sp3, r, t);
    CloserSlash(sp1, sp2, n, sp3, r, t, j1);
    CloserName(sp1, sp2, n, sp3, r, t, j1, j2);
    CloserEnd(sp1, sp2, n, sp3, r, t, j2, j3);
    CloserNameAt(f, n, t, j2);
    CloserHit(t, j1, j2, name, j3, |"<" + sp1 + "/" + sp2 + n + sp3 + ">"|);
  }

  /** A closing `strong`, `em` or `code` tag in any case, with white space around the slash
      and before `>`, becomes the bare lower-case closer. */
  lemma FormatCloserNormalized(f: FormatTag, sp1: string, sp2: string, n: string, sp3: string, r: string, t: string)
    requires AllSpaces(sp1) && AllSpaces(sp2) && AllSpaces(sp3) && NamesCI(n, TagName(f))
    requires t == "<" + sp1 + "/" + sp2 + n + sp3 + ">" + r
    ensures Rewrite(FormatClosers, t) == "</" + TagName(f) + ">" + Rewrite(FormatClosers, r)
  {
    var a := "<" + sp1 + "/" + sp2 + n + sp3 + ">";
    CloserMatched(f, sp1, sp2, n, sp3, r, t);
    RewriteMatch(FormatClosers, a, r, "</" + TagName(f) + ">");
  }

  /** Any `br` tag in any case, with attributes or a self-closing slash, becomes `<br>`. */
  lemma LineBreakNormalized(sp: string, n: string, attrs: string, r: string, t: string)
    requires AllSpaces(sp) && NamesCI(n, "br") && TagAttrs(attrs)
    requires t == "<" + sp + n + attrs + ">" + r
    ensures Rewrite(LineBreaks, t) == "<br>" + Rewrite(LineBreaks, r)
  {
    NamedTagStart(sp, n, "br", attrs + ">" + r, t);
    TagEnd("<" + sp + n, attrs, r, t);
    FindCharAt(t, '>', |"<" + sp + n|, |"<" + sp + n| + |attrs|);
    assert MatchAt(LineBreaks, t) == Some(Hit(1 + |sp| + |n| + |attrs| + 1, "<br>"));
    RewriteMatch(LineBreaks, "<" + sp + n + attrs + ">", r, "<br>");
  }

  /** `("[^"]*"|'[^']*'|[^\s>]+)` spelled out: a value in double or single quotes with no
      quote of its own kind inside, or an unquoted run without white space and `>` that
      stops where the text after it starts with white space or `>` (or ends). */
  predicate AttrValueText(val: string, r: string) {
    (|val| >= 2 && (val[0] == '"' || val[0] == '\'') && val[|val| - 1] == val[0]
     && forall k :: 0 < k < |val| - 1 ==> val[k] != val[0])
    || (val != [] && val[0] != '"' && val[0] != '\''
        && (forall k :: 0 <= k < |val| ==> !IsSpace(val[k]) && val[k] != '>')
        && (r == [] || IsSpace(r[0]) || r[0] == '>'))
  }

  /** The shape of an event-handler attribute: ` on`, letters, `=` with optional white
      space around it, and a value of one of the three forms. */
  predicate HandlerText(name: string, sp1: string, sp2: string, val: string, r: string, t: string) {
    name != [] && (forall k :: 0 <= k < |name| ==> IsAsciiLetter(name[k]))
    && AllSpaces(sp1) && AllSpaces(sp2) && AttrValueText(val, r)
    && t == " on" + name + sp1 + "=" + sp2 + val + r
  }

  lemma HandlerName(name: string, sp1: string, sp2: string, val: string, r: string, t: string, e: nat)
    requires HandlerText(name, sp1, sp2, val, r, t) && e == 3 + |name|
    ensures t[0] == ' ' && LitAt(t, 1, "on") && LettersEnd(t, 3) == e
  {
    assert t[1] == 'o' && t[2] == 'n';
    LitAtSelf(t, 1, "on");
    forall k | 3 <= k < e
      ensures IsAsciiLetter(t[k])
    {
      assert t[k] == name[k - 3];
    }
    if |sp1| > 0 {
      assert t[e] == sp1[0];
    } else {
      assert t[e] == '=';
    }
  }

  lemma HandlerEquals(name: string, sp1: string, sp2: string, val: string, r: string, t: string, e: nat, j: nat)
    requires HandlerText(name, sp1, sp2, val, r, t) && e == 3 + |name| && j == e + |sp1|
    ensures SkipSpaces(t, e) == j && j < |t| && t[j] == '='
  {
    forall k | e <= k < j
      ensures IsSpace(t[k])
    {
      assert t[k] == sp1[k - e];
    }
    SkipSpacesAt(t, e, j);
  }

  lemma HandlerValue(name: string, sp1: string, sp2: string, val: string, r: string, t: string, j: nat, v0: nat)
    requires HandlerText(name, sp1, sp2, val, r, t) && j == 3 + |name| + |sp1| && v0 == j + 1 + |sp2|
    ensures SkipSpaces(t, j + 1) == v0 && AttrValueEnd(t, v0) == Some(v0 + |val|)
    ensures t[v0 + |val|..] == r
  {
    HandlerValueStart(name, sp1, sp2, val, r, t, j, v0);
    assert t[v0..v0 + |val|] == val && t[v0 + |val|..] == r;
    ValueEnd(t, v0, val, r);
  }

  lemma HandlerValueStart(name: string, sp1: string, sp2: string, val: string, r: string, t: string, j: nat, v0: nat)
    requires HandlerText(name, sp1, sp2, val, r, t) && j == 3 + |name| + |sp1| && v0 == j + 1 + |sp2|
    ensures SkipSpaces(t, j + 1) == v0
  {
    forall k | j + 1 <= k < v0
      ensures IsSpace(t[k])
    {
      assert t[k] == sp2[k - j - 1];
    }
    assert t[v0] == val[0];
    SkipSpacesAt(t, j + 1, v0);
  }

  /** An attribute value of one of the three forms ends right behind it. */
  lemma ValueEnd(t: string, v0: nat, val: string, r: string)
    requires AttrValueText(val, r)
    requires v0 + |val| <= |t| && t[v0..v0 + |val|] == val && t[v0 + |val|..] == r
    ensures AttrValueEnd(t, v0) == Some(v0 + |val|)
  {
    var e := v0 + |val|;
    assert t[v0] == val[0];
    forall k | v0 <= k < e
      ensures t[k] == val[k - v0]
    {
    }
    if val[0] == '"' || val[0] == '\'' {
      FindCharAt(t, val[0], v0 + 1, e - 1);
    } else {
      if e < |t| {
        assert t[e] == r[0];
      }
      UnquotedEndAt(t, v0, e);
    }
  }

  lemma HandlerMatchAt(t: string, e: nat, j: nat, v0: nat, end: nat)
    requires t != [] && t[0] == ' ' && LitAt(t, 1, "on") && LettersEnd(t, 3) == e && e != 3
    requires SkipSpaces(t, e) == j && j < |t| && t[j] == '='
    requires SkipSpaces(t, j + 1) == v0 && AttrValueEnd(t, v0) == Some(end)
    ensures EventHandlerMatch(t) == Some(Hit(end, ""))
  {
  }

  lemma HandlerHit(t: string, e: nat, j: nat, v0: nat, end: nat, len: nat)
    requires t != [] && t[0] == ' ' && LitAt(t, 1, "on") && LettersEnd(t, 3) == e && e != 3
    requires SkipSpaces(t, e) == j && j < |t| && t[j] == '='
    requires SkipSpaces(t, j + 1) == v0 && AttrValueEnd(t, v0) == Some(end) && len == end
    ensures MatchAt(EventHandlers, t) == Some(Hit(len, ""))
  {
    HandlerMatchAt(t, e, j, v0, end);
    HandlerPassMatch(t);
  }

  lemma HandlerPassMatch(t: string)
    ensures MatchAt(EventHandlers, t) == EventHandlerMatch(t)
  {
  }

  lemma HandlerMatched(name: string, sp1: string, sp2: string, val: string, r: string, t: string)
    requires HandlerText(name, sp1, sp2, val, r, t)
    ensures MatchAt(EventHandlers, t) == Some(Hit(|t| - |r|, "")) && t[|t| - |r|..] == r
  {
    var e := 3 + |name|;
    var j := e + |sp1|;
    var v0 := j + 1 + |sp2|;
    HandlerName(name, sp1, sp2, val, r, t, e);
    HandlerEquals(name, sp1, sp2, val, r, t, e, j);
    HandlerValue(name, sp1, sp2, val, r, t, j, v0);
    HandlerHit(t, e, j, v0, v0 + |val|, |t| - |r|);
  }

  /** A ` on…=` event-handler attribute is deleted with its leading space and its value,
      whether the value is double-quoted, single-quoted or unquoted. */
  lemma EventHandlerRemoved(name: string, sp1: string, sp2: string, val: string, r: string, t: string)
    requires name != [] && forall k :: 0 <= k < |name| ==> IsAsciiLetter(name[k])
    requires AllSpaces(sp1) && AllSpaces(sp2) && AttrValueText(val, r)
    requires t == " on" + name + sp1 + "=" + sp2 + val + r
    ensures Rewrite(EventHandlers, t) == Rewrite(EventHandlers, r)
  {
    assert HandlerText(name, sp1, sp2, val, r, t);
    HandlerMatched(name, sp1, sp2, val, r, t);
    RewriteHit(EventHandlers, t, |t| - |r|, "");
  }

  /** `href="javascript:…"` is deleted up to the LAST quote of the same kind: `[^\1]` is a
      class excluding U+0001, so the match runs on greedily and takes any later quoted text
      (here `v` may itself hold quotes) with it. */
  lemma ScriptHrefRemovedGreedy(q: char, v: string, w: string, t: string)
    requires q == '"' || q == '\''
    requires '\U{0001}' !in v && '\U{0001}' !in w && q !in w
    requires t == "href=" + [q] + "javascript:" + v + [q] + w
    ensures Rewrite(ScriptHrefs, t) == Rewrite(ScriptHrefs, w)
  {
    var a := "href=" + [q] + "javascript:" + v + [q];
    ScriptHrefText(q, v, w, t);
    ScriptHrefHit(t, q, 17 + |v|, |a|);
    RewriteMatch(ScriptHrefs, a, w, "");
  }

  lemma ScriptHrefText(q: char, v: string, w: string, t: string)
    requires q == '"' || q == '\''
    requires '\U{0001}' !in v && '\U{0001}' !in w && q !in w
    requires t == "href=" + [q] + "javascript:" + v + [q] + w
    ensures |t| >= 18 && LitAt(t, 0, "href") && t[4] == '=' && t[5] == q && !IsSpace(t[6])
    ensures LitAt(t, 6, "javascript:") && NonSohEnd(t, 17) == |t|
    ensures FindLastChar(t, q, 17, |t|) == Some(17 + |v|)
  {
    var m := 17 + |v|;
    LitAtSelf(t, 0, "href");
    assert t[4] == '=' && t[5] == q && t[6] == 'j';
    forall k | 0 <= k < 11
      ensures t[6 + k] == "javascript:"[k]
    {
    }
    LitAtSelf(t, 6, "javascript:");
    forall k | 17 <= k < |t|
      ensures t[k] != '\U{0001}'
    {
      if k < m {
        assert t[k] == v[k - 17];
      } else if k > m {
        assert t[k] == w[k - m - 1];
      }
    }
    assert NonSohEnd(t, 17) == |t|;
    forall k | m < k < |t|
      ensures t[k] != q
    {
      assert t[k] == w[k - m - 1];
    }
    assert t[m] == q;
    assert FindLastChar(t, q, 17, |t|) == Some(m);
  }

  lemma ScriptHrefHit(t: string, q: char, m: nat, len: nat)
    requires q == '"' || q == '\''
    requires |t| >= 18 && LitAt(t, 0, "href") && t[4] == '=' && t[5] == q && !IsSpace(t[6])
    requires LitAt(t, 6, "javascript:") && NonSohEnd(t, 17) == |t|
    requires FindLastChar(t, q, 17, |t|) == Some(m) && len == m + 1
    ensures MatchAt(ScriptHrefs, t) == Some(Hit(len, ""))
  {
    SkipSpacesAt(t, 4, 4);
    SkipSpacesAt(t, 5, 5);
    SkipSpacesAt(t, 6, 6);
    ScriptHrefPassMatch(t);
  }

  lemma ScriptHrefPassMatch(t: string)
    ensures MatchAt(ScriptHrefs, t) == ScriptHrefMatch(t)
  {
  }

  /** An anchor opener and an anchor closer survive both tag-removing passes: `a\b` is on
      the allow-list of each. */
  lemma AnchorTagsKept(attrs: string, r: string, t: string, u: string)
    requires TagAttrs(attrs)
    requires t == "<a" + attrs + ">" + r && u == "</a>" + r
    ensures MatchAt(StrayClosers, t).None? && MatchAt(OtherTags, t).None?
    ensures MatchAt(StrayClosers, u).None? && MatchAt(OtherTags, u).None?
  {
    assert t[0] == '<' && t[1] == 'a';
    LitAtSelf(t, 1, "a");
    if |t| > 2 {
      assert t[2] == (attrs + ">" + r)[0];
    }
    assert AllowedNameAt(t, 1);
    assert u[1] == '/' && u[2] == 'a' && u[3] == '>';
    LitAtSelf(u, 2, "a");
    assert KeptCloserPrefix(u, 2) && AllowedNameAt(u, 2);
  }
}
