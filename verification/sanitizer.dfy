/** The inline HTML sanitizer of src/lib/sanitizer.ts: a fixed chain of global
    `replace` passes over the raw string. Each pass is modelled by `MatchAt`, which says
    whether the pass's regular expression matches at the start of a suffix of the input
    (with JavaScript's backtracking semantics worked out case by case) and what the
    match is replaced by, and by `Rewrite`, which scans left to right the way a global
    `replace` does: after a match it resumes behind it, otherwise it keeps one character
    and tries again one position later. */
module Sanitizer {
  import opened Text

  /** A match of `len` characters, to be replaced by `out`. */
  datatype Hit = Hit(len: nat, out: string)

  /** The passes of `sanitizeHtml`, in the order they run. */
  datatype Pass =
    | Newlines       // /\r\n?/g -> "\n"
    | Anchors        // /(<a\b[^>]*>)([\s\S]*?)<\s*\/\s*a\s*>/gi -> sanitizeAnchorPair
    | FormatOpeners  // /<\s*(strong|em|code)\b[^>]*>/gi -> <tag>
    | FormatClosers  // /<\s*\/\s*(strong|em|code)\s*>/gi -> </tag>
    | LineBreaks     // /<\s*br\b[^>]*\/?\s*>/gi -> <br>
    | StrayClosers   // /<\/(?!a|strong|em|code)\s*[^>]+>/gi -> ""
    | OtherTags      // /<(?!\/?(?:a|strong|em|code|br)\b)[^>]*>/gi -> ""
    | EventHandlers  // / on[a-z]+\s*=\s*("[^"]*"|'[^']*'|[^\s>]+)/gi -> ""
    | ScriptHrefs    // /href\s*=\s*(["'])\s*javascript:[^\1]*\1/gi -> ""
    | ScriptSchemes  // not a pass of the source: the pattern of line 39 with the quote made
                     // optional, /href\s*=\s*["']?\s*javascript:/gi -> "" (see SanitizerCorrected)

  // ---------------------------------------------------------------------------
  // Building blocks of the patterns

  /** Greedy `\s*` from position i: where the run of white space ends. */
  function SkipSpaces(t: string, i: nat): (j: nat)
    requires i <= |t|
    ensures i <= j <= |t|
    ensures forall k :: i <= k < j ==> IsSpace(t[k])
    ensures j == |t| || !IsSpace(t[j])
    decreases |t| - i
  {
    if i < |t| && IsSpace(t[i]) then SkipSpaces(t, i + 1) else i
  }

  /** The first index at or after i holding c. */
  function FindChar(t: string, c: char, i: nat): (r: Option<nat>)
    requires i <= |t|
    ensures r.Some? ==> i <= r.value < |t| && t[r.value] == c
    ensures r.Some? ==> forall k :: i <= k < r.value ==> t[k] != c
    ensures r.None? ==> forall k :: i <= k < |t| ==> t[k] != c
    decreases |t| - i
  {
    if i == |t| then None else if t[i] == c then Some(i) else FindChar(t, c, i + 1)
  }

  /** The last index in [lo, hi) holding c. */
  function FindLastChar(t: string, c: char, lo: nat, hi: nat): (r: Option<nat>)
    requires lo <= hi <= |t|
    ensures r.Some? ==> lo <= r.value < hi && t[r.value] == c
    ensures r.Some? ==> forall k :: r.value < k < hi ==> t[k] != c
    ensures r.None? ==> forall k :: lo <= k < hi ==> t[k] != c
    decreases hi
  {
    if hi == lo then None else if t[hi - 1] == c then Some(hi - 1) else FindLastChar(t, c, lo, hi - 1)
  }

  /** Greedy `[^\s>]+` (or `[^\s>]*`) from i: where the run stops. */
  function UnquotedEnd(t: string, i: nat): (j: nat)
    requires i <= |t|
    ensures i <= j <= |t|
    ensures forall k :: i <= k < j ==> !IsSpace(t[k]) && t[k] != '>'
    ensures j == |t| || IsSpace(t[j]) || t[j] == '>'
    decreases |t| - i
  {
    if i < |t| && !IsSpace(t[i]) && t[i] != '>' then UnquotedEnd(t, i + 1) else i
  }

  /** Greedy `[a-z]*` under the `i` flag from i. */
  function LettersEnd(t: string, i: nat): (j: nat)
    requires i <= |t|
    ensures i <= j <= |t|
    ensures forall k :: i <= k < j ==> IsAsciiLetter(t[k])
    ensures j == |t| || !IsAsciiLetter(t[j])
    decreases |t| - i
  {
    if i < |t| && IsAsciiLetter(t[i]) then LettersEnd(t, i + 1) else i
  }

  /** Greedy `[^\1]*` from i: the class excludes U+0001 only, so the run stops there. */
  function NonSohEnd(t: string, i: nat): (j: nat)
    requires i <= |t|
    ensures i <= j <= |t|
    ensures forall k :: i <= k < j ==> t[k] != '\U{0001}'
    ensures j == |t| || t[j] == '\U{0001}'
    decreases |t| - i
  {
    if i < |t| && t[i] != '\U{0001}' then NonSohEnd(t, i + 1) else i
  }

  /** The ASCII word `lit` at position i, compared case-insensitively. */
  predicate LitAt(t: string, i: nat, lit: string) {
    i + |lit| <= |t| && forall k :: 0 <= k < |lit| ==> SameLetterCI(t[i + k], lit[k])
  }

  /** `\b` at position i when the character before it is a word character. */
  predicate WordEnds(t: string, i: nat) {
    i >= |t| || !IsWordChar(t[i])
  }

  // ---------------------------------------------------------------------------
  // sanitizeAnchorPair (src/lib/sanitizer.ts:7-14)

  /** The value captured by `href\s*=\s*("([^"]*)"|'([^']*)'|([^\s>]+))` when it matches at p. */
  function HrefAt(o: string, p: nat): (r: Option<string>)
    requires p <= |o|
    ensures r.Some? ==> forall c :: c in r.value ==> c in o
  {
    if !LitAt(o, p, "href") then None
    else
      var j := SkipSpaces(o, p + 4);
      if j == |o| || o[j] != '=' then None
      else
        var v := SkipSpaces(o, j + 1);
        if v == |o| then None
        else if o[v] == '"' && FindChar(o, '"', v + 1).Some? then
          Some(o[v + 1..FindChar(o, '"', v + 1).value])
        else if o[v] == '\'' && FindChar(o, '\'', v + 1).Some? then
          Some(o[v + 1..FindChar(o, '\'', v + 1).value])
        else if o[v] != '>' then
          Some(o[v..UnquotedEnd(o, v)])
        else None
  }

  /** The leftmost match of the href pattern at or after p. */
  function FirstHref(o: string, p: nat): (r: Option<string>)
    requires p <= |o|
    ensures r.Some? ==> forall c :: c in r.value ==> c in o
    decreases |o| - p
  {
    match HrefAt(o, p)
    case Some(h) => Some(h)
    case None => if p == |o| then None else FirstHref(o, p + 1)
  }

  /** The href of an opening anchor tag, or the empty string when it has none. */
  function Href(opening: string): (r: string)
    ensures forall c :: c in r ==> c in opening
  {
    match FirstHref(opening, 0)
    case Some(h) => h
    case None => ""
  }

  /** `/^(https?:|mailto:)/i`. */
  predicate SafeScheme(href: string) {
    StartsWithCI(href, "http:") || StartsWithCI(href, "https:") || StartsWithCI(href, "mailto:")
  }

  /** `href.replace(/"/g, '&quot;')`. */
  function EscapeQuotes(h: string): (r: string)
    ensures '"' !in r
    ensures '"' !in h ==> r == h
  {
    if h == [] then []
    else
      assert h == [h[0]] + h[1..];
      (if h[0] == '"' then "&quot;" else [h[0]]) + EscapeQuotes(h[1..])
  }

  const Rel := "noopener nofollow ugc"

  /** The canonical anchor the sanitizer re-emits for an allowed href. */
  function CanonicalAnchor(href: string, inner: string): string {
    "<a href=\"" + EscapeQuotes(href) + "\" rel=\"" + Rel + "\">" + inner + "</a>"
  }

  /** An anchor pair keeps only a safe href, with a fixed rel; otherwise only its inner text. */
  function SanitizeAnchorPair(opening: string, inner: string): string {
    var href := Href(opening);
    if !SafeScheme(href) then inner else CanonicalAnchor(href, inner)
  }

  // ---------------------------------------------------------------------------
  // The passes

  /** `<\s*\/\s*a\s*>` at the start of u: the length of the closer. */
  function AnchorCloserLen(u: string): (r: Option<nat>)
    ensures r.Some? ==> 0 < r.value <= |u|
  {
    if u == [] || u[0] != '<' then None
    else
      var j1 := SkipSpaces(u, 1);
      if j1 == |u| || u[j1] != '/' then None
      else
        var j2 := SkipSpaces(u, j1 + 1);
        if j2 == |u| || !SameLetterCI(u[j2], 'a') then None
        else
          var j3 := SkipSpaces(u, j2 + 1);
          if j3 == |u| || u[j3] != '>' then None else Some(j3 + 1)
  }

  /** The lazy `[\s\S]*?` before the closer: the first closer at or after i, as (start, end). */
  function FirstAnchorCloser(t: string, i: nat): (r: Option<(nat, nat)>)
    requires i <= |t|
    ensures r.Some? ==> i <= r.value.0 < r.value.1 <= |t|
    ensures r.Some? ==> AnchorCloserLen(t[r.value.0..]) == Some(r.value.1 - r.value.0)
    ensures forall k :: i <= k <= |t| && (r.None? || k < r.value.0) ==> AnchorCloserLen(t[k..]).None?
    decreases |t| - i
  {
    var here := AnchorCloserLen(t[i..]);
    if here.Some? then Some((i, i + here.value))
    else if i == |t| then None
    else
      FirstAnchorCloser(t, i + 1)
  }

  function AnchorMatch(t: string): (r: Option<Hit>)
    ensures r.Some? ==> 0 < r.value.len <= |t|
  {
    if |t| < 3 || t[0] != '<' || !SameLetterCI(t[1], 'a') || !WordEnds(t, 2) then None
    else match FindChar(t, '>', 2)
      case None => None
      case Some(k) => AnchorPairAt(t, k + 1)
  }

  /** The rest of the anchor pattern once the opening tag ends at o: the lazy inner part
      runs to the first closer, and the pair is rewritten by `SanitizeAnchorPair`. */
  function AnchorPairAt(t: string, o: nat): (r: Option<Hit>)
    requires 0 < o <= |t|
    ensures r.Some? ==> 0 < r.value.len <= |t|
  {
    match FirstAnchorCloser(t, o)
    case None => None
    case Some(c) => Some(Hit(c.1, SanitizeAnchorPair(t[..o], t[o..c.0])))
  }

  /** The first character of a word found at i. */
  lemma LitAtHead(t: string, i: nat, lit: string)
    requires lit != []
    ensures LitAt(t, i, lit) ==> i < |t| && SameLetterCI(t[i], lit[0])
  {
    if LitAt(t, i, lit) {
      assert SameLetterCI(t[i + 0], lit[0]);
    }
  }

  /** Which of `strong|em|code` (case-insensitively) starts at j. The three names begin
      with different letters, so at most one of them is there and the order of the
      alternatives does not matter. */
  function FormatNameAt(t: string, j: nat): (r: Option<string>)
    ensures r.Some? ==> r.value in {"strong", "em", "code"} && LitAt(t, j, r.value)
    ensures LitAt(t, j, "strong") ==> r == Some("strong")
    ensures LitAt(t, j, "em") ==> r == Some("em")
    ensures LitAt(t, j, "code") ==> r == Some("code")
    ensures r.None? ==> !LitAt(t, j, "strong") && !LitAt(t, j, "em") && !LitAt(t, j, "code")
  {
    LitAtHead(t, j, "strong");
    LitAtHead(t, j, "em");
    LitAtHead(t, j, "code");
    if LitAt(t, j, "strong") then Some("strong")
    else if LitAt(t, j, "em") then Some("em")
    else if LitAt(t, j, "code") then Some("code")
    else None
  }

  function FormatOpenerMatch(t: string): (r: Option<Hit>)
    ensures r.Some? ==> 0 < r.value.len <= |t|
  {
    if t == [] || t[0] != '<' then None
    else
      var j := SkipSpaces(t, 1);
      match FormatNameAt(t, j)
      case None => None
      case Some(name) =>
        if !WordEnds(t, j + |name|) then None
        else match FindChar(t, '>', j + |name|)
          case None => None
          case Some(k) => Some(Hit(k + 1, "<" + name + ">"))
  }

  function FormatCloserMatch(t: string): (r: Option<Hit>)
    ensures r.Some? ==> 0 < r.value.len <= |t|
  {
    if t == [] || t[0] != '<' then None
    else
      var j1 := SkipSpaces(t, 1);
      if j1 == |t| || t[j1] != '/' then None
      else
        var j2 := SkipSpaces(t, j1 + 1);
        match FormatNameAt(t, j2)
        case None => None
        case Some(name) =>
          var j3 := SkipSpaces(t, j2 + |name|);
          if j3 == |t| || t[j3] != '>' then None else Some(Hit(j3 + 1, "</" + name + ">"))
  }

  /** `[^>]*\/?\s*>` after the tag name always ends at the first `>`. */
  function LineBreakMatch(t: string): (r: Option<Hit>)
    ensures r.Some? ==> 0 < r.value.len <= |t|
  {
    if t == [] || t[0] != '<' then None
    else
      var j := SkipSpaces(t, 1);
      if !LitAt(t, j, "br") || !WordEnds(t, j + 2) then None
      else match FindChar(t, '>', j + 2)
        case None => None
        case Some(k) => Some(Hit(k + 1, "<br>"))
  }

  /** The negative lookahead `(?!a|strong|em|code)`: a prefix test, with no `\b`. */
  predicate KeptCloserPrefix(t: string, i: nat) {
    LitAt(t, i, "a") || LitAt(t, i, "strong") || LitAt(t, i, "em") || LitAt(t, i, "code")
  }

  /** `\s*[^>]+>` needs at least one character before the first `>`. */
  function StrayCloserMatch(t: string): (r: Option<Hit>)
    ensures r.Some? ==> 0 < r.value.len <= |t|
  {
    if |t| < 2 || t[0] != '<' || t[1] != '/' || KeptCloserPrefix(t, 2) then None
    else match FindChar(t, '>', 2)
      case None => None
      case Some(k) => if k == 2 then None else Some(Hit(k + 1, ""))
  }

  /** `(?:a|strong|em|code|br)\b` at i. */
  predicate AllowedNameAt(t: string, i: nat) {
    (LitAt(t, i, "a") && WordEnds(t, i + 1))
    || (LitAt(t, i, "strong") && WordEnds(t, i + 6))
    || (LitAt(t, i, "em") && WordEnds(t, i + 2))
    || (LitAt(t, i, "code") && WordEnds(t, i + 4))
    || (LitAt(t, i, "br") && WordEnds(t, i + 2))
  }

  /** `\/?(?:a|strong|em|code|br)\b` at 1: first with the slash, then without it. */
  predicate AllowedTagAfterBracket(t: string) {
    (|t| > 1 && t[1] == '/' && AllowedNameAt(t, 2)) || AllowedNameAt(t, 1)
  }

  function OtherTagMatch(t: string): (r: Option<Hit>)
    ensures r.Some? ==> 0 < r.value.len <= |t|
  {
    if t == [] || t[0] != '<' || AllowedTagAfterBracket(t) then None
    else match FindChar(t, '>', 1)
      case None => None
      case Some(k) => Some(Hit(k + 1, ""))
  }

  /** `("[^"]*"|'[^']*'|[^\s>]+)` at v: where the attribute value ends. */
  function AttrValueEnd(t: string, v: nat): (r: Option<nat>)
    requires v <= |t|
    ensures r.Some? ==> v < r.value <= |t|
  {
    if v == |t| then None
    else if t[v] == '"' && FindChar(t, '"', v + 1).Some? then Some(FindChar(t, '"', v + 1).value + 1)
    else if t[v] == '\'' && FindChar(t, '\'', v + 1).Some? then Some(FindChar(t, '\'', v + 1).value + 1)
    else if !IsSpace(t[v]) && t[v] != '>' then Some(UnquotedEnd(t, v))
    else None
  }

  function EventHandlerMatch(t: string): (r: Option<Hit>)
    ensures r.Some? ==> 0 < r.value.len <= |t|
  {
    if t == [] || t[0] != ' ' || !LitAt(t, 1, "on") then None
    else
      var e := LettersEnd(t, 3);
      if e == 3 then None
      else
        var j := SkipSpaces(t, e);
        if j == |t| || t[j] != '=' then None
        else match AttrValueEnd(t, SkipSpaces(t, j + 1))
          case None => None
          case Some(end) => Some(Hit(end, ""))
  }

  /** The greedy `[^\1]*` followed by the back-reference `\1` ends at the last quote of
      the U+0001-free run, not at the next one. */
  function ScriptHrefMatch(t: string): (r: Option<Hit>)
    ensures r.Some? ==> 0 < r.value.len <= |t|
  {
    if !LitAt(t, 0, "href") then None
    else
      var j := SkipSpaces(t, 4);
      if j == |t| || t[j] != '=' then None
      else
        var v := SkipSpaces(t, j + 1);
        if v == |t| || (t[v] != '"' && t[v] != '\'') then None
        else
          var w := SkipSpaces(t, v + 1);
          if !LitAt(t, w, "javascript:") then None
          else match FindLastChar(t, t[v], w + 11, NonSohEnd(t, w + 11))
            case None => None
            case Some(m) => Some(Hit(m + 1, ""))
  }

  /** `href\s*=\s*["']?\s*javascript:` at the start of t. Backtracking changes nothing: a
      white-space run is never a quote, and a quote is never the `j` that follows. */
  function ScriptSchemeMatch(t: string): (r: Option<Hit>)
    ensures r.Some? ==> 0 < r.value.len <= |t| && r.value.out == []
  {
    if !LitAt(t, 0, "href") then None
    else
      var j := SkipSpaces(t, 4);
      if j == |t| || t[j] != '=' then None
      else
        var v := SkipSpaces(t, j + 1);
        var w := if v < |t| && (t[v] == '"' || t[v] == '\'') then SkipSpaces(t, v + 1) else v;
        if LitAt(t, w, "javascript:") then Some(Hit(w + 11, "")) else None
  }

  function MatchAt(p: Pass, t: string): (r: Option<Hit>)
    ensures r.Some? ==> 0 < r.value.len <= |t|
  {
    match p
    case Newlines =>
      if t != [] && t[0] == '\r' then Some(Hit(if |t| > 1 && t[1] == '\n' then 2 else 1, "\n")) else None
    case Anchors => AnchorMatch(t)
    case FormatOpeners => FormatOpenerMatch(t)
    case FormatClosers => FormatCloserMatch(t)
    case LineBreaks => LineBreakMatch(t)
    case StrayClosers => StrayCloserMatch(t)
    case OtherTags => OtherTagMatch(t)
    case EventHandlers => EventHandlerMatch(t)
    case ScriptHrefs => ScriptHrefMatch(t)
    case ScriptSchemes => ScriptSchemeMatch(t)
  }

  /** A global `replace`: left to right, resuming after each match. */
  function Rewrite(p: Pass, s: string): string
    decreases |s|
  {
    if s == [] then []
    else match MatchAt(p, s)
      case Some(h) => h.out + Rewrite(p, s[h.len..])
      case None => [s[0]] + Rewrite(p, s[1..])
  }

  /** `sanitizeHtml`: the empty string stays empty, otherwise the nine passes in order. */
  function SanitizeHtml(input: string): string {
    if input == [] then []
    else
      var s1 := Rewrite(Newlines, input);
      var s2 := Rewrite(Anchors, s1);
      var s3 := Rewrite(FormatOpeners, s2);
      var s4 := Rewrite(FormatClosers, s3);
      var s5 := Rewrite(LineBreaks, s4);
      var s6 := Rewrite(StrayClosers, s5);
      var s7 := Rewrite(OtherTags, s6);
      var s8 := Rewrite(EventHandlers, s7);
      Rewrite(ScriptHrefs, s8)
  }
}
