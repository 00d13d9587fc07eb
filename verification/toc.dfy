/** Heading ids of the table of contents (public/toc.js): `slugify` turns a heading's text
    into an id not yet used on the page, and `ensureHeadingIds` gives one to every h2 and
    h3 that has none. The character class `[\p{Letter}\p{Number}]` is a parameter: the
    model does not carry Unicode's tables. */
module Toc {
  import opened Text

  /** What the model needs of the letter-and-number class: `-` and white space lie
      outside it and the lower-case ASCII letters inside it, as in Unicode. */
  predicate LetterNumberClass(isLetterOrNumber: char -> bool) {
    && !isLetterOrNumber('-')
    && (forall c :: IsSpace(c) ==> !isLetterOrNumber(c))
    && (forall c :: 'a' <= c <= 'z' ==> isLetterOrNumber(c))
  }

  /** The letters and numbers of a text, in order. */
  function Letters(s: string, isLetterOrNumber: char -> bool): string {
    if s == [] then [] else (if isLetterOrNumber(s[0]) then [s[0]] else []) + Letters(s[1..], isLetterOrNumber)
  }

  lemma {:induction false} LettersAppend(a: string, b: string, isLetterOrNumber: char -> bool)
    ensures Letters(a + b, isLetterOrNumber) == Letters(a, isLetterOrNumber) + Letters(b, isLetterOrNumber)
    decreases |a|
  {
    if a == [] {
      assert a + b == b;
    } else {
      var h := if isLetterOrNumber(a[0]) then [a[0]] else [];
      LettersAppend(a[1..], b, isLetterOrNumber);
      ConsAppend(a, b);
      assert Letters(a + b, isLetterOrNumber) == h + Letters(a[1..] + b, isLetterOrNumber);
      assert Letters(a, isLetterOrNumber) == h + Letters(a[1..], isLetterOrNumber);
    }
  }

  /** The tail of a concatenation with a non-empty first part. */
  lemma ConsAppend(a: string, b: string)
    requires a != []
    ensures (a + b)[0] == a[0] && (a + b)[1..] == a[1..] + b
  {
  }

  predicate NoDoubleDash(s: string) {
    forall i :: 0 <= i < |s| - 1 ==> !(s[i] == '-' && s[i + 1] == '-')
  }

  /** Every character is its own lower case. */
  predicate LowerCased(s: string) {
    forall i :: 0 <= i < |s| ==> LowerChar(s[i]) == s[i]
  }

  /** `replace(/[^\p{Letter}\p{Number}]+/gu, '-')`: every run of other characters becomes
      one `-`; inRun says that such a run has just been replaced. */
  function Collapse(s: string, isLetterOrNumber: char -> bool, inRun: bool): string
    requires !isLetterOrNumber('-')
    decreases |s|
  {
    if s == [] then []
    else if isLetterOrNumber(s[0]) then [s[0]] + Collapse(s[1..], isLetterOrNumber, false)
    else if inRun then Collapse(s[1..], isLetterOrNumber, true)
    else "-" + Collapse(s[1..], isLetterOrNumber, true)
  }

  /** The collapsed text holds letters, numbers and single dashes, lower-cased when the
      text was, and no leading dash right after a replaced run. */
  lemma {:induction false} CollapseShape(s: string, isLetterOrNumber: char -> bool, inRun: bool)
    requires !isLetterOrNumber('-')
    ensures var r := Collapse(s, isLetterOrNumber, inRun);
      && SlugChars(r, isLetterOrNumber)
      && (LowerCased(s) ==> LowerCased(r))
      && (inRun && r != [] ==> r[0] != '-')
      && NoDoubleDash(r)
    decreases |s|
  {
    if s != [] {
      CollapseShape(s[1..], isLetterOrNumber, !isLetterOrNumber(s[0]));
      if LowerCased(s) {
        assert LowerCased(s[1..]);
      }
    }
  }

  /** Collapsing keeps the letters and numbers. */
  lemma {:induction false} CollapseLetters(s: string, isLetterOrNumber: char -> bool, inRun: bool)
    requires !isLetterOrNumber('-')
    ensures Letters(Collapse(s, isLetterOrNumber, inRun), isLetterOrNumber) == Letters(s, isLetterOrNumber)
    decreases |s|
  {
    if s != [] {
      CollapseLetters(s[1..], isLetterOrNumber, !isLetterOrNumber(s[0]));
      var rest := Collapse(s[1..], isLetterOrNumber, !isLetterOrNumber(s[0]));
      if isLetterOrNumber(s[0]) {
        LettersAppend([s[0]], rest, isLetterOrNumber);
      } else if !inRun {
        LettersAppend("-", rest, isLetterOrNumber);
      }
    }
  }

  /** `replace(/^-+/, '')`. */
  function DropLeadingDashes(s: string): (r: string)
    ensures |r| <= |s| && r == s[|s| - |r|..]
    ensures r == [] || r[0] != '-'
    ensures forall i :: 0 <= i < |s| - |r| ==> s[i] == '-'
  {
    if s != [] && s[0] == '-' then DropLeadingDashes(s[1..]) else s
  }

  /** `replace(/-+$/, '')`. */
  function DropTrailingDashes(s: string): (r: string)
    ensures |r| <= |s| && r == s[..|r|]
    ensures r == [] || r[|r| - 1] != '-'
    ensures forall i :: |r| <= i < |s| ==> s[i] == '-'
  {
    if s != [] && s[|s| - 1] == '-' then DropTrailingDashes(s[..|s| - 1]) else s
  }

  /** The shape of every id `slugify` builds before numbering it: letters and numbers,
      already lower-cased, joined by single dashes. */
  predicate WellFormedSlug(s: string, isLetterOrNumber: char -> bool) {
    && s != []
    && s[0] != '-' && s[|s| - 1] != '-'
    && SlugShape(s, isLetterOrNumber)
  }

  /** Every character is a dash or in the class. */
  predicate SlugChars(s: string, isLetterOrNumber: char -> bool) {
    forall i :: 0 <= i < |s| ==> s[i] == '-' || isLetterOrNumber(s[i])
  }

  /** The collapsed, trimmed, lower-cased text without its outer dashes. */
  function Stripped(text: string, isLetterOrNumber: char -> bool): string
    requires !isLetterOrNumber('-')
  {
    DropTrailingDashes(DropLeadingDashes(Collapse(Lower(Trim(text)), isLetterOrNumber, false)))
  }

  /** The base id `slugify` starts from: `section` when nothing is left. */
  function SlugBase(text: string, isLetterOrNumber: char -> bool): (r: string)
    requires !isLetterOrNumber('-')
    ensures |r| >= 1
  {
    var s := Stripped(text, isLetterOrNumber);
    if s == [] then "section" else s
  }

  lemma LowerIsLowerCased(s: string)
    ensures LowerCased(Lower(s))
  {
  }

  /** Slug characters only, single dashes, lower case. */
  predicate SlugShape(s: string, isLetterOrNumber: char -> bool) {
    NoDoubleDash(s) && LowerCased(s) && SlugChars(s, isLetterOrNumber)
  }

  /** The shape survives taking a slice. */
  lemma SliceKeepsShape(c: string, a: nat, b: nat, isLetterOrNumber: char -> bool)
    requires a <= b <= |c|
    requires SlugShape(c, isLetterOrNumber)
    ensures SlugShape(c[a..b], isLetterOrNumber)
  {
    assert forall i :: 0 <= i < b - a ==> c[a..b][i] == c[a + i];
  }

  lemma DropLeadingKeepsShape(c: string, isLetterOrNumber: char -> bool)
    requires SlugShape(c, isLetterOrNumber)
    ensures SlugShape(DropLeadingDashes(c), isLetterOrNumber)
  {
    var d := DropLeadingDashes(c);
    SliceKeepsShape(c, |c| - |d|, |c|, isLetterOrNumber);
    assert c[|c| - |d|..|c|] == d;
  }

  lemma DropTrailingKeepsShape(c: string, isLetterOrNumber: char -> bool)
    requires SlugShape(c, isLetterOrNumber)
    ensures SlugShape(DropTrailingDashes(c), isLetterOrNumber)
  {
    var d := DropTrailingDashes(c);
    SliceKeepsShape(c, 0, |d|, isLetterOrNumber);
    assert c[0..|d|] == d;
  }

  lemma SectionWellFormed(isLetterOrNumber: char -> bool)
    requires LetterNumberClass(isLetterOrNumber)
    ensures WellFormedSlug("section", isLetterOrNumber)
  {
    var s := "section";
    assert forall i :: 0 <= i < |s| ==> 'a' <= s[i] <= 'z';
  }

  /** Stripping the outer dashes of a collapsed text leaves nothing or a well-formed slug. */
  lemma StripShape(c: string, isLetterOrNumber: char -> bool)
    requires SlugShape(c, isLetterOrNumber)
    ensures var r := DropTrailingDashes(DropLeadingDashes(c));
      r == [] || WellFormedSlug(r, isLetterOrNumber)
  {
    var d := DropLeadingDashes(c);
    DropLeadingKeepsShape(c, isLetterOrNumber);
    DropTrailingKeepsShape(d, isLetterOrNumber);
    var r := DropTrailingDashes(d);
    if r != [] {
      assert r[0] == d[0];
    }
  }

  /** The base is always a well-formed slug. */
  lemma SlugBaseShape(text: string, isLetterOrNumber: char -> bool)
    requires LetterNumberClass(isLetterOrNumber)
    ensures WellFormedSlug(SlugBase(text, isLetterOrNumber), isLetterOrNumber)
  {
    var l := Lower(Trim(text));
    LowerIsLowerCased(Trim(text));
    CollapseShape(l, isLetterOrNumber, false);
    StripShape(Collapse(l, isLetterOrNumber, false), isLetterOrNumber);
    if Stripped(text, isLetterOrNumber) == [] {
      SectionWellFormed(isLetterOrNumber);
    }
  }

  lemma LowerAppend(a: string, b: string)
    ensures Lower(a + b) == Lower(a) + Lower(b)
  {
    assert forall i :: 0 <= i < |a| + |b| ==> Lower(a + b)[i] == (Lower(a) + Lower(b))[i];
  }

  /** A non-empty text is its initial part followed by its last character. */
  lemma Snoc(s: string)
    requires s != []
    ensures s == s[..|s| - 1] + [s[|s| - 1]]
  {
  }

  /** White space is neither changed by lower-casing nor a letter or number. */
  lemma SpaceIsNoLetter(c: char, isLetterOrNumber: char -> bool)
    requires LetterNumberClass(isLetterOrNumber) && IsSpace(c)
    ensures LowerChar(c) == c && !isLetterOrNumber(c)
  {
  }

  /** A character outside the class adds no letter at either end. */
  lemma OtherCharAddsNoLetter(x: string, c: char, isLetterOrNumber: char -> bool)
    requires !isLetterOrNumber(c)
    ensures Letters([c] + x, isLetterOrNumber) == Letters(x, isLetterOrNumber)
    ensures Letters(x + [c], isLetterOrNumber) == Letters(x, isLetterOrNumber)
  {
    assert ([c] + x)[1..] == x;
    LettersAppend(x, [c], isLetterOrNumber);
    assert [c][1..] == [];
  }

  /** Trimming at the start removes no letter or number. */
  lemma {:induction false} TrimStartLetters(s: string, isLetterOrNumber: char -> bool)
    requires LetterNumberClass(isLetterOrNumber)
    ensures Letters(Lower(TrimStart(s)), isLetterOrNumber) == Letters(Lower(s), isLetterOrNumber)
    decreases |s|
  {
    if s != [] && IsSpace(s[0]) {
      TrimStartLetters(s[1..], isLetterOrNumber);
      SpaceIsNoLetter(s[0], isLetterOrNumber);
      LowerCons(s);
      OtherCharAddsNoLetter(Lower(s[1..]), s[0], isLetterOrNumber);
    }
  }

  /** Trimming at the end removes no letter or number. */
  lemma {:induction false} TrimEndLetters(s: string, isLetterOrNumber: char -> bool)
    requires LetterNumberClass(isLetterOrNumber)
    ensures Letters(Lower(TrimEnd(s)), isLetterOrNumber) == Letters(Lower(s), isLetterOrNumber)
    decreases |s|
  {
    if s != [] && IsSpace(s[|s| - 1]) {
      var init := s[..|s| - 1];
      var c := s[|s| - 1];
      TrimEndLetters(init, isLetterOrNumber);
      SpaceIsNoLetter(c, isLetterOrNumber);
      Snoc(s);
      LowerAppend(init, [c]);
      assert Lower([c]) == [c];
      OtherCharAddsNoLetter(Lower(init), c, isLetterOrNumber);
    }
  }

  /** Trimming removes no letter or number. */
  lemma LowerTrimLetters(t: string, isLetterOrNumber: char -> bool)
    requires LetterNumberClass(isLetterOrNumber)
    ensures Letters(Lower(Trim(t)), isLetterOrNumber) == Letters(Lower(t), isLetterOrNumber)
  {
    TrimStartLetters(t, isLetterOrNumber);
    TrimEndLetters(TrimStart(t), isLetterOrNumber);
  }

  lemma {:induction false} DropLeadingLetters(s: string, isLetterOrNumber: char -> bool)
    requires !isLetterOrNumber('-')
    ensures Letters(DropLeadingDashes(s), isLetterOrNumber) == Letters(s, isLetterOrNumber)
    decreases |s|
  {
    if s != [] && s[0] == '-' {
      DropLeadingLetters(s[1..], isLetterOrNumber);
      assert Letters(s, isLetterOrNumber) == Letters(s[1..], isLetterOrNumber);
    }
  }

  lemma {:induction false} DropTrailingLetters(s: string, isLetterOrNumber: char -> bool)
    requires !isLetterOrNumber('-')
    ensures Letters(DropTrailingDashes(s), isLetterOrNumber) == Letters(s, isLetterOrNumber)
    decreases |s|
  {
    if s != [] && s[|s| - 1] == '-' {
      DropTrailingLetters(s[..|s| - 1], isLetterOrNumber);
      Snoc(s);
      OtherCharAddsNoLetter(s[..|s| - 1], '-', isLetterOrNumber);
    }
  }

  /** Stripping the outer dashes keeps the letters and numbers. */
  lemma StripLetters(c: string, isLetterOrNumber: char -> bool)
    requires !isLetterOrNumber('-')
    ensures Letters(DropTrailingDashes(DropLeadingDashes(c)), isLetterOrNumber) == Letters(c, isLetterOrNumber)
  {
    DropLeadingLetters(c, isLetterOrNumber);
    DropTrailingLetters(DropLeadingDashes(c), isLetterOrNumber);
  }

  /** The base keeps the text's letters and numbers, lower-cased and in order, and is
      `section` exactly when the text has none. */
  lemma SlugBaseKeepsLetters(t: string, isLetterOrNumber: char -> bool)
    requires LetterNumberClass(isLetterOrNumber)
    ensures Letters(Lower(t), isLetterOrNumber) == [] ==> SlugBase(t, isLetterOrNumber) == "section"
    ensures Letters(Lower(t), isLetterOrNumber) != [] ==>
      Letters(SlugBase(t, isLetterOrNumber), isLetterOrNumber) == Letters(Lower(t), isLetterOrNumber)
  {
    LowerTrimLetters(t, isLetterOrNumber);
    var l := Lower(Trim(t));
    CollapseLetters(l, isLetterOrNumber, false);
    CollapseShape(l, isLetterOrNumber, false);
    var c := Collapse(l, isLetterOrNumber, false);
    StripLetters(c, isLetterOrNumber);
    var d := DropLeadingDashes(c);
    var r := DropTrailingDashes(d);
    assert Stripped(t, isLetterOrNumber) == r;
    assert Letters(r, isLetterOrNumber) == Letters(Lower(t), isLetterOrNumber);
    if r != [] {
      assert r[0] == d[0] && d[0] == c[|c| - |d|];
      assert isLetterOrNumber(r[0]);
    }
  }

  lemma {:induction false} CollapseKeeps(s: string, isLetterOrNumber: char -> bool, inRun: bool)
    requires !isLetterOrNumber('-')
    requires SlugChars(s, isLetterOrNumber)
    requires NoDoubleDash(s)
    requires inRun && s != [] ==> s[0] != '-'
    ensures Collapse(s, isLetterOrNumber, inRun) == s
    decreases |s|
  {
    if s != [] {
      CollapseKeeps(s[1..], isLetterOrNumber, s[0] == '-');
      assert s == [s[0]] + s[1..];
    }
  }

  /** A well-formed slug is its own base. */
  lemma SlugBaseFixedPoint(s: string, isLetterOrNumber: char -> bool)
    requires LetterNumberClass(isLetterOrNumber)
    requires WellFormedSlug(s, isLetterOrNumber)
    ensures SlugBase(s, isLetterOrNumber) == s
  {
    TrimKeepsTrimmed(s);
    assert Lower(s) == s;
    CollapseKeeps(s, isLetterOrNumber, false);
    assert DropLeadingDashes(s) == s;
    assert DropTrailingDashes(s) == s;
    assert Stripped(s, isLetterOrNumber) == s;
  }

  /** Taking the base twice gives what taking it once gives. */
  lemma SlugBaseIdempotent(t: string, isLetterOrNumber: char -> bool)
    requires LetterNumberClass(isLetterOrNumber)
    ensures SlugBase(SlugBase(t, isLetterOrNumber), isLetterOrNumber) == SlugBase(t, isLetterOrNumber)
  {
    SlugBaseShape(t, isLetterOrNumber);
    SlugBaseFixedPoint(SlugBase(t, isLetterOrNumber), isLetterOrNumber);
  }

  // ---------------------------------------------------------------------------
  // Numbering on collision

  /** The n-th id tried: the base, then `base-1`, `base-2`, and so on. */
  function Candidate(base: string, n: nat): string {
    if n == 0 then base else base + "-" + NatToString(n)
  }

  lemma CandidateInjective(base: string, m: nat, n: nat)
    requires Candidate(base, m) == Candidate(base, n)
    ensures m == n
  {
    if m > 0 && n > 0 {
      assert Candidate(base, m)[|base| + 1..] == NatToString(m);
      assert Candidate(base, n)[|base| + 1..] == NatToString(n);
      NatToStringInjective(m, n);
    }
  }

  function Candidates(base: string, n: nat): set<string> {
    set j | 0 <= j < n :: Candidate(base, j)
  }

  lemma {:induction false} CandidatesCount(base: string, n: nat)
    ensures |Candidates(base, n)| == n
  {
    if n > 0 {
      CandidatesCount(base, n - 1);
      assert Candidates(base, n) == Candidates(base, n - 1) + {Candidate(base, n - 1)};
      if Candidate(base, n - 1) in Candidates(base, n - 1) {
        var j :| 0 <= j < n - 1 && Candidate(base, j) == Candidate(base, n - 1);
        CandidateInjective(base, j, n - 1);
      }
    }
  }

  /** Only as many candidates as there are ids in use can be taken. */
  lemma CandidatesBound(base: string, used: set<string>, n: nat)
    requires forall j :: 0 <= j < n ==> Candidate(base, j) in used
    ensures n <= |used|
  {
    CandidatesCount(base, n);
    var c := Candidates(base, n);
    assert used == c + (used - c);
  }

  /** The index of the first candidate from `from` on that is not in use. */
  function FirstFree(base: string, used: set<string>, from: nat): (k: nat)
    requires forall j :: 0 <= j < from ==> Candidate(base, j) in used
    ensures from <= k && Candidate(base, k) !in used
    ensures forall j :: 0 <= j < k ==> Candidate(base, j) in used
    decreases |used| - from
  {
    CandidatesBound(base, used, from);
    if Candidate(base, from) !in used then from
    else
      CandidatesBound(base, used, from + 1);
      FirstFree(base, used, from + 1)
  }

  /** The first free candidate is the only free one with every earlier one taken. */
  lemma FirstFreeUnique(base: string, used: set<string>, k: nat)
    requires Candidate(base, k) !in used
    requires forall j :: 0 <= j < k ==> Candidate(base, j) in used
    ensures FirstFree(base, used, 0) == k
  {
    var f := FirstFree(base, used, 0);
  }

  /** The first candidate for the base that is not in use. */
  function Numbered(base: string, used: set<string>): string {
    Candidate(base, FirstFree(base, used, 0))
  }

  /** The numbered id is free, starts with the base, and is the base itself when that is
      free; otherwise it is `base-k` for the least k that makes it free. */
  lemma NumberedIsFirstFree(base: string, used: set<string>)
    ensures var s := Numbered(base, used);
      && s !in used
      && StartsWith(s, base)
      && (base !in used ==> s == base)
      && (base in used ==> exists k: nat :: (k >= 1 && s == base + "-" + NatToString(k)
            && forall j :: 0 <= j < k ==> Candidate(base, j) in used))
  {
    var k := FirstFree(base, used, 0);
    if base in used {
      assert Candidate(base, 0) in used;
      assert k >= 1;
    }
  }

  /** The set of ids in use that `slugify` reads and extends. */
  class UsedIds {
    var ids: set<string>

    constructor (seed: set<string>)
      ensures ids == seed
    {
      ids := seed;
    }

    /** `slugify`: normalises the text to its base and claims the first free candidate. */
    method Slugify(text: string, isLetterOrNumber: char -> bool) returns (s: string)
      requires !isLetterOrNumber('-')
      modifies this
      ensures s == Numbered(SlugBase(text, isLetterOrNumber), old(ids))
      ensures s != [] && s !in old(ids) && ids == old(ids) + {s}
    {
      var base := SlugBase(text, isLetterOrNumber);
      s := Claim(base);
    }

    /** The loop of `slugify`: tries the base, then `base-1`, `base-2`, … until one is
        free, and records it as used. */
    method Claim(base: string) returns (s: string)
      modifies this
      ensures s == Numbered(base, old(ids))
      ensures |s| >= |base| && s !in old(ids) && ids == old(ids) + {s}
    {
      var used := ids;
      s := base;
      var i := 1;
      while s in used
        invariant 1 <= i <= |used| + 1
        invariant s == Candidate(base, i - 1)
        invariant forall j :: 0 <= j < i - 1 ==> Candidate(base, j) in used
        decreases |used| + 1 - i
      {
        CandidatesBound(base, used, i);
        s := base + "-" + NatToString(i);
        i := i + 1;
      }
      FirstFreeUnique(base, used, i - 1);
      ids := used + {s};
    }
  }

  /** One step of `ensureHeadingIds`: heading i gets the slug of its text when it has
      no id, and keeps its id otherwise. */
  method NameHeading(ids: array<string>, i: nat, text: string, used: UsedIds, isLetterOrNumber: char -> bool)
    requires i < ids.Length && !isLetterOrNumber('-')
    modifies ids, used
    ensures forall k :: 0 <= k < ids.Length && k != i ==> ids[k] == old(ids[k])
    ensures old(ids[i]) != [] ==> ids[i] == old(ids[i]) && used.ids == old(used.ids)
    ensures old(ids[i]) == [] ==> ids[i] != [] && ids[i] !in old(used.ids) && used.ids == old(used.ids) + {ids[i]}
    ensures old(ids[i]) == [] ==> ids[i] == Numbered(SlugBase(text, isLetterOrNumber), old(used.ids))
  {
    if ids[i] == [] {
      var s := used.Slugify(text, isLetterOrNumber);
      ids[i] := s;
    }
  }

  /** The ids that occur in a sequence of headings. */
  function IdsIn(hs: seq<string>): set<string> {
    set x | x in hs
  }

  /** Adding one heading adds its id. */
  lemma IdsInSnoc(hs: seq<string>, x: string)
    ensures IdsIn(hs + [x]) == IdsIn(hs) + {x}
  {
    assert forall y :: y in hs + [x] <==> y in hs || y == x;
  }

  /** The first n headings are named: each keeps the id it had, and each that had none
      carries the first free numbered form of its slug given the page's ids and the ids
      of the headings before it. */
  ghost predicate HeadingsNamed(orig: seq<string>, cur: seq<string>, texts: seq<string>, pageIds: set<string>,
                                isLetterOrNumber: char -> bool, n: nat)
    requires |orig| == |cur| == |texts| && n <= |cur| && !isLetterOrNumber('-')
  {
    && (forall k :: 0 <= k < n && orig[k] != [] ==> cur[k] == orig[k])
    && (forall k :: 0 <= k < n && orig[k] == [] ==> FreshId(cur[k], cur[..k], texts[k], pageIds, isLetterOrNumber))
  }

  /** The id `slugify` gives a heading with this text after the headings before it. */
  ghost predicate FreshId(id: string, before: seq<string>, text: string, pageIds: set<string>, isLetterOrNumber: char -> bool)
    requires !isLetterOrNumber('-')
  {
    id != [] && id == Numbered(SlugBase(text, isLetterOrNumber), pageIds + IdsIn(before))
  }

  /** A named prefix stays named when nothing in it changes. */
  lemma NamedKept(orig: seq<string>, prev: seq<string>, cur: seq<string>, texts: seq<string>,
                  pageIds: set<string>, isLetterOrNumber: char -> bool, i: nat)
    requires |orig| == |prev| == |cur| == |texts| && i <= |cur| && !isLetterOrNumber('-')
    requires HeadingsNamed(orig, prev, texts, pageIds, isLetterOrNumber, i)
    requires cur[..i] == prev[..i]
    ensures HeadingsNamed(orig, cur, texts, pageIds, isLetterOrNumber, i)
  {
    forall k | 0 <= k < i
      ensures cur[k] == prev[k] && cur[..k] == prev[..k]
    {
      assert cur[k] == cur[..i][k];
      assert cur[..k] == cur[..i][..k];
    }
  }

  /** Naming heading i as `NameHeading` does extends the named prefix by one. */
  lemma {:induction false} NamedStep(orig: seq<string>, prev: seq<string>, cur: seq<string>, texts: seq<string>,
                                     pageIds: set<string>, isLetterOrNumber: char -> bool, i: nat, used: set<string>)
    requires |orig| == |prev| == |cur| == |texts| && i < |cur| && !isLetterOrNumber('-')
    requires HeadingsNamed(orig, prev, texts, pageIds, isLetterOrNumber, i)
    requires forall k :: 0 <= k < |cur| && k != i ==> cur[k] == prev[k]
    requires used == pageIds + IdsIn(prev[..i])
    requires orig[i] != [] ==> cur[i] == orig[i] && orig[i] in pageIds
    requires orig[i] == [] ==> cur[i] != [] && cur[i] == Numbered(SlugBase(texts[i], isLetterOrNumber), used)
    ensures HeadingsNamed(orig, cur, texts, pageIds, isLetterOrNumber, i + 1)
  {
    assert cur[..i] == prev[..i];
    NamedKept(orig, prev, cur, texts, pageIds, isLetterOrNumber, i);
    assert orig[i] == [] ==> FreshId(cur[i], cur[..i], texts[i], pageIds, isLetterOrNumber);
  }

  /** After heading i is named, the ids in use are the page's and those of the first
      i + 1 headings. */
  lemma UsedStep(prev: seq<string>, cur: seq<string>, pageIds: set<string>, i: nat, used: set<string>)
    requires |prev| == |cur| && i < |cur|
    requires forall k :: 0 <= k < |cur| && k != i ==> cur[k] == prev[k]
    requires used == pageIds + IdsIn(prev[..i])
    ensures pageIds + IdsIn(cur[..i + 1]) == used + {cur[i]}
  {
    assert cur[..i] == prev[..i];
    IdsInSnoc(cur[..i], cur[i]);
    assert cur[..i + 1] == cur[..i] + [cur[i]];
  }

  /** In a named sequence every new id differs from every other heading's id. */
  lemma {:induction false} NamedDistinct(orig: seq<string>, cur: seq<string>, texts: seq<string>,
                                         pageIds: set<string>, isLetterOrNumber: char -> bool)
    requires |orig| == |cur| == |texts| && !isLetterOrNumber('-')
    requires forall k :: 0 <= k < |orig| && orig[k] != [] ==> orig[k] in pageIds
    requires HeadingsNamed(orig, cur, texts, pageIds, isLetterOrNumber, |cur|)
    ensures forall k :: 0 <= k < |cur| && orig[k] == [] ==> cur[k] !in pageIds
    ensures forall k, m :: 0 <= k < m < |cur| && (orig[k] == [] || orig[m] == []) ==> cur[k] != cur[m]
  {
    forall k | 0 <= k < |cur| && orig[k] == []
      ensures cur[k] !in pageIds + IdsIn(cur[..k])
    {
      NumberedIsFirstFree(SlugBase(texts[k], isLetterOrNumber), pageIds + IdsIn(cur[..k]));
    }
    forall k, m | 0 <= k < m < |cur| && (orig[k] == [] || orig[m] == [])
      ensures cur[k] != cur[m]
    {
      if orig[m] == [] {
        assert cur[..m][k] == cur[k];
      }
    }
  }

  /** `ensureHeadingIds`: ids holds the id of each heading in document order, empty when
      it has none; pageIds holds every id on the page. Existing ids stay; every heading
      that had none gets one used nowhere else on the page, namely the first free numbered
      form of its text's slug given the page's ids and the ids of the headings before it. */
  method EnsureHeadingIds(ids: array<string>, texts: seq<string>, pageIds: set<string>, isLetterOrNumber: char -> bool)
    requires ids.Length == |texts| && !isLetterOrNumber('-')
    requires forall k :: 0 <= k < ids.Length && ids[k] != [] ==> ids[k] in pageIds
    modifies ids
    ensures forall k :: 0 <= k < ids.Length && old(ids[k]) != [] ==> ids[k] == old(ids[k])
    ensures forall k :: 0 <= k < ids.Length && old(ids[k]) == [] ==> ids[k] != [] && ids[k] !in pageIds
    ensures forall k, m :: 0 <= k < m < ids.Length && (old(ids[k]) == [] || old(ids[m]) == []) ==> ids[k] != ids[m]
    ensures forall k :: 0 <= k < ids.Length && old(ids[k]) == [] ==>
      ids[k] == Numbered(SlugBase(texts[k], isLetterOrNumber), pageIds + IdsIn(ids[..k]))
  {
    ghost var orig := ids[..];
    var used := new UsedIds(pageIds);
    for i := 0 to ids.Length
      invariant HeadingsNamed(orig, ids[..], texts, pageIds, isLetterOrNumber, i)
      invariant forall k :: i <= k < ids.Length ==> ids[k] == orig[k]
      invariant used.ids == pageIds + IdsIn(ids[..i])
    {
      ghost var prev := ids[..];
      ghost var usedBefore := used.ids;
      NameHeading(ids, i, texts[i], used, isLetterOrNumber);
      NamedStep(orig, prev, ids[..], texts, pageIds, isLetterOrNumber, i, usedBefore);
      UsedStep(prev, ids[..], pageIds, i, usedBefore);
    }
    NamedDistinct(orig, ids[..], texts, pageIds, isLetterOrNumber);
  }
}
