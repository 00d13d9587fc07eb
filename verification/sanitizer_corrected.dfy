/** The sanitizer of src/lib/sanitizer.ts with its last pass made to do what its comment
    says, "remove javascript: in any href occurrences". As written, the pass at line 39
    only removes a quoted `javascript:` href. An anchor opener that has no closing `</a>`
    is left alone by the anchor pass (line 22) and is spared by the other-tag pass
    (line 33), so an unquoted `javascript:` href in it reaches the output
    (`UnclosedAnchorKept`). The corrected sanitizer runs the nine passes as written and
    then deletes `href\s*=\s*["']?\s*javascript:` wherever it occurs, quoted or not. It
    repeats that deletion until a scan finds nothing, because a single left-to-right scan
    can join the text on both sides of a deletion into a new occurrence. */
module SanitizerCorrected {
  import opened Text
  import Sanitizer
  import SanitizerProofs

  // ---------------------------------------------------------------------------
  // Deleting the pattern until none is left

  /** One scan deletes text and adds none. A scan that deletes nothing found no
      occurrence anywhere, and a text with no occurrence comes back unchanged. */
  lemma {:induction false} ScanShrinks(s: string)
    ensures |Sanitizer.Rewrite(Sanitizer.ScriptSchemes, s)| <= |s|
    ensures |Sanitizer.Rewrite(Sanitizer.ScriptSchemes, s)| == |s| ==>
      forall i :: 0 <= i < |s| ==> Sanitizer.ScriptSchemeMatch(s[i..]).None?
    ensures (forall i :: 0 <= i < |s| ==> Sanitizer.ScriptSchemeMatch(s[i..]).None?) ==>
      Sanitizer.Rewrite(Sanitizer.ScriptSchemes, s) == s
    decreases |s|
  {
    if s != [] {
      assert s[0..] == s;
      match Sanitizer.MatchAt(Sanitizer.ScriptSchemes, s)
      case Some(h) =>
        ScanShrinks(s[h.len..]);
      case None =>
        ScanShrinks(s[1..]);
        forall i | 1 <= i < |s|
          ensures s[1..][i - 1..] == s[i..]
        {
        }
    }
  }

  /** The pattern deleted again and again until a scan finds nothing: afterwards no
      position of the text starts an occurrence, and a text without one is kept. */
  function StripScriptSchemes(s: string): (r: string)
    ensures |r| <= |s|
    ensures forall i :: 0 <= i < |r| ==> Sanitizer.ScriptSchemeMatch(r[i..]).None?
    ensures (forall i :: 0 <= i < |s| ==> Sanitizer.ScriptSchemeMatch(s[i..]).None?) ==> r == s
    decreases |s|
  {
    ScanShrinks(s);
    var once := Sanitizer.Rewrite(Sanitizer.ScriptSchemes, s);
    if |once| == |s| then s else StripScriptSchemes(once)
  }

  /** `sanitizeHtml` with the last pass corrected: the nine passes as written, then every
      `javascript:` href deleted. */
  function SanitizeHtml(input: string): (r: string)
    ensures input == [] ==> r == []
    ensures forall i :: 0 <= i < |r| ==> Sanitizer.ScriptSchemeMatch(r[i..]).None?
  {
    StripScriptSchemes(Sanitizer.SanitizeHtml(input))
  }

  // ---------------------------------------------------------------------------
  // What the pattern matches

  /** `href`, white space, `=`, white space, no quote or one quote of either kind, white
      space and `javascript:`, followed by r; `href` and `javascript:` in any case. */
  predicate SchemeText(h: string, sp1: string, sp2: string, q: string, sp3: string, js: string, r: string, t: string) {
    SanitizerProofs.NamesCI(h, "href") && SanitizerProofs.NamesCI(js, "javascript:")
    && SanitizerProofs.AllSpaces(sp1) && SanitizerProofs.AllSpaces(sp2) && SanitizerProofs.AllSpaces(sp3)
    && (q == [] || q == "\"" || q == "'")
    && t == h + sp1 + "=" + sp2 + q + sp3 + js + r
  }

  lemma SchemeHead(h: string, sp1: string, sp2: string, q: string, sp3: string, js: string, r: string, t: string, j: nat)
    requires SchemeText(h, sp1, sp2, q, sp3, js, r, t) && j == 4 + |sp1|
    ensures Sanitizer.LitAt(t, 0, "href") && Sanitizer.SkipSpaces(t, 4) == j && j < |t| && t[j] == '='
  {
    forall k | 0 <= k < 4
      ensures SameLetterCI(t[0 + k], "href"[k])
    {
      assert t[k] == h[k];
    }
    forall k | 4 <= k < j
      ensures IsSpace(t[k])
    {
      assert t[k] == sp1[k - 4];
    }
    assert t[j] == '=';
    SanitizerProofs.SkipSpacesAt(t, 4, j);
  }

  lemma SchemeValue(h: string, sp1: string, sp2: string, q: string, sp3: string, js: string, r: string, t: string, j: nat, w: nat)
    requires SchemeText(h, sp1, sp2, q, sp3, js, r, t) && j == 4 + |sp1| && w == j + 1 + |sp2| + |q| + |sp3|
    ensures var v := Sanitizer.SkipSpaces(t, j + 1);
      (if v < |t| && (t[v] == '"' || t[v] == '\'') then Sanitizer.SkipSpaces(t, v + 1) else v) == w
  {
    var v0 := j + 1 + |sp2|;
    assert t[w] == js[0];
    assert SameLetterCI(js[0], 'j');
    forall k | j + 1 <= k < v0
      ensures IsSpace(t[k])
    {
      assert t[k] == sp2[k - j - 1];
    }
    forall k | v0 + |q| <= k < w
      ensures IsSpace(t[k])
    {
      assert t[k] == sp3[k - v0 - |q|];
    }
    if q == [] {
      SanitizerProofs.SkipSpacesAt(t, j + 1, w);
    } else {
      assert t[v0] == q[0];
      SanitizerProofs.SkipSpacesAt(t, j + 1, v0);
      SanitizerProofs.SkipSpacesAt(t, v0 + 1, w);
    }
  }

  lemma SchemeWord(h: string, sp1: string, sp2: string, q: string, sp3: string, js: string, r: string, t: string, w: nat)
    requires SchemeText(h, sp1, sp2, q, sp3, js, r, t) && w == 5 + |sp1| + |sp2| + |q| + |sp3|
    ensures Sanitizer.LitAt(t, w, "javascript:") && w + 11 == |t| - |r|
  {
    forall k | 0 <= k < 11
      ensures SameLetterCI(t[w + k], "javascript:"[k])
    {
      assert t[w + k] == js[k];
    }
  }

  lemma SchemeMatchAt(t: string, j: nat, w: nat)
    requires Sanitizer.LitAt(t, 0, "href") && Sanitizer.SkipSpaces(t, 4) == j && j < |t| && t[j] == '='
    requires var v := Sanitizer.SkipSpaces(t, j + 1);
      (if v < |t| && (t[v] == '"' || t[v] == '\'') then Sanitizer.SkipSpaces(t, v + 1) else v) == w
    requires Sanitizer.LitAt(t, w, "javascript:")
    ensures Sanitizer.ScriptSchemeMatch(t) == Some(Sanitizer.Hit(w + 11, ""))
  {
  }

  /** Every spelling of the pattern is matched, and the match ends right behind
      `javascript:`. */
  lemma SchemeMatched(h: string, sp1: string, sp2: string, q: string, sp3: string, js: string, r: string, t: string)
    requires SchemeText(h, sp1, sp2, q, sp3, js, r, t)
    ensures Sanitizer.ScriptSchemeMatch(t) == Some(Sanitizer.Hit(|t| - |r|, ""))
  {
    var j := 4 + |sp1|;
    var w := j + 1 + |sp2| + |q| + |sp3|;
    SchemeHead(h, sp1, sp2, q, sp3, js, r, t, j);
    SchemeValue(h, sp1, sp2, q, sp3, js, r, t, j, w);
    SchemeWord(h, sp1, sp2, q, sp3, js, r, t, w);
    SchemeMatchAt(t, j, w);
  }

  /** No spelling of a `javascript:` href, quoted or not, in any letter case and with any
      white space around `=`, starts anywhere in the corrected output. */
  lemma NoScriptSchemeLeft(input: string, i: nat, h: string, sp1: string, sp2: string, q: string, sp3: string, js: string, post: string)
    requires i <= |SanitizeHtml(input)|
    requires SchemeText(h, sp1, sp2, q, sp3, js, post, h + sp1 + "=" + sp2 + q + sp3 + js + post)
    ensures SanitizeHtml(input)[i..] != h + sp1 + "=" + sp2 + q + sp3 + js + post
  {
    SchemeMatched(h, sp1, sp2, q, sp3, js, post, h + sp1 + "=" + sp2 + q + sp3 + js + post);
  }

  // ---------------------------------------------------------------------------
  // The unclosed anchor, as written and corrected

  /** No pass of the source matches text that starts with none of `<`, a carriage return,
      a space and an `h`. */
  lemma InertStart(p: Sanitizer.Pass, u: string)
    requires u != [] && u[0] != '<' && u[0] != '\r' && u[0] != ' ' && u[0] != 'h' && u[0] != 'H'
    ensures Sanitizer.MatchAt(p, u).None?
  {
    assert !SameLetterCI(u[0], 'h');
    SanitizerProofs.NotLitAt(u, 0, "href");
  }

  /** Each pass of the source leaves `<a href=javascript:x>y` alone at its first
      character: the anchor pass finds no `</a>` after the opening tag, and every other
      pass needs another shape. */
  lemma UnclosedAnchorHead(p: Sanitizer.Pass, t: string)
    requires t == "<a href=javascript:x>y" && p != Sanitizer.ScriptSchemes
    ensures Sanitizer.MatchAt(p, t).None?
  {
    assert Sanitizer.SkipSpaces(t, 1) == 1;
    SanitizerProofs.NotLitAt(t, 0, "href");
    SanitizerProofs.NotLitAt(t, 1, "strong");
    SanitizerProofs.NotLitAt(t, 1, "em");
    SanitizerProofs.NotLitAt(t, 1, "code");
    SanitizerProofs.NotLitAt(t, 1, "br");
    SanitizerProofs.LitAtOne(t, 1, 'a');
    assert Sanitizer.AllowedNameAt(t, 1);
    if p == Sanitizer.Anchors {
      UnclosedAnchorNoCloser(t);
    }
  }

  /** The anchor pattern finds the opening tag but no `</a>` after it. */
  lemma UnclosedAnchorNoCloser(t: string)
    requires t == "<a href=javascript:x>y"
    ensures Sanitizer.AnchorMatch(t).None?
  {
    SanitizerProofs.FindCharAt(t, '>', 2, 20);
    assert Sanitizer.AnchorCloserLen(t[21..]).None?;
    assert Sanitizer.AnchorCloserLen(t[22..]).None?;
    assert Sanitizer.FirstAnchorCloser(t, 22).None?;
    assert Sanitizer.FirstAnchorCloser(t, 21).None?;
  }

  /** The space before `href`: the handler pass needs `on` after it. */
  lemma SpaceBeforeHref(p: Sanitizer.Pass, u: string)
    requires u == " href=javascript:x>y" && p != Sanitizer.ScriptSchemes
    ensures Sanitizer.MatchAt(p, u).None?
  {
    SanitizerProofs.NotLitAt(u, 1, "on");
    SanitizerProofs.NotLitAt(u, 0, "href");
  }

  /** The `href` itself: the script-href pass needs a quote before `javascript:`. */
  lemma UnquotedHref(p: Sanitizer.Pass, v: string)
    requires v == "href=javascript:x>y" && p != Sanitizer.ScriptSchemes
    ensures Sanitizer.MatchAt(p, v).None?
  {
    assert Sanitizer.SkipSpaces(v, 4) == 4;
    assert Sanitizer.SkipSpaces(v, 5) == 5;
  }

  lemma UnclosedAnchorHref(p: Sanitizer.Pass, t: string)
    requires t == "<a href=javascript:x>y" && p != Sanitizer.ScriptSchemes
    ensures Sanitizer.MatchAt(p, t[2..]).None? && Sanitizer.MatchAt(p, t[3..]).None?
  {
    assert t[2..] == " href=javascript:x>y";
    assert t[3..] == "href=javascript:x>y";
    SpaceBeforeHref(p, t[2..]);
    UnquotedHref(p, t[3..]);
  }

  lemma UnclosedAnchorInert(p: Sanitizer.Pass, t: string, i: nat)
    requires t == "<a href=javascript:x>y" && p != Sanitizer.ScriptSchemes && i < |t|
    ensures Sanitizer.MatchAt(p, t[i..]).None?
  {
    if i == 0 {
      assert t[0..] == t;
      UnclosedAnchorHead(p, t);
    } else if i == 2 || i == 3 {
      UnclosedAnchorHref(p, t);
    } else {
      InertStart(p, t[i..]);
    }
  }

  lemma UnclosedAnchorPass(p: Sanitizer.Pass, t: string)
    requires t == "<a href=javascript:x>y" && p != Sanitizer.ScriptSchemes
    ensures Sanitizer.Rewrite(p, t) == t
  {
    forall i | 0 <= i < |t|
      ensures Sanitizer.MatchAt(p, (t + [])[i..]).None?
    {
      assert t + [] == t;
      UnclosedAnchorInert(p, t, i);
    }
    SanitizerProofs.RewriteKeep(p, t, []);
    assert t + [] == t;
  }

  /** The opener's href is a match of the corrected last pass. */
  lemma UnclosedAnchorScheme(u: string)
    requires u == "<a href=javascript:x>y"[3..]
    ensures Sanitizer.ScriptSchemeMatch(u).Some?
  {
    assert u == "href=javascript:x>y";
    assert u == "href" + "" + "=" + "" + "" + "" + "javascript:" + "x>y";
    SchemeMatched("href", "", "", "", "", "javascript:", "x>y", u);
  }

  /** As written, an anchor opener with an unquoted `javascript:` href and no closing
      `</a>` comes through `sanitizeHtml` unchanged, `javascript:` href included. */
  lemma UnclosedAnchorKept()
    ensures Sanitizer.SanitizeHtml("<a href=javascript:x>y") == "<a href=javascript:x>y"
    ensures Sanitizer.ScriptSchemeMatch("<a href=javascript:x>y"[3..]).Some?
  {
    UnclosedAnchorPasses("<a href=javascript:x>y");
    UnclosedAnchorScheme("<a href=javascript:x>y"[3..]);
  }

  lemma UnclosedAnchorPasses(t: string)
    requires t == "<a href=javascript:x>y"
    ensures Sanitizer.SanitizeHtml(t) == t
  {
    UnclosedAnchorPass(Sanitizer.Newlines, t);
    UnclosedAnchorPass(Sanitizer.Anchors, t);
    UnclosedAnchorPass(Sanitizer.FormatOpeners, t);
    UnclosedAnchorPass(Sanitizer.FormatClosers, t);
    UnclosedAnchorPass(Sanitizer.LineBreaks, t);
    UnclosedAnchorPass(Sanitizer.StrayClosers, t);
    UnclosedAnchorPass(Sanitizer.OtherTags, t);
    UnclosedAnchorPass(Sanitizer.EventHandlers, t);
    UnclosedAnchorPass(Sanitizer.ScriptHrefs, t);
  }

  /** No occurrence starts in text that has no `h` or `H`. */
  lemma NoHNoScheme(s: string)
    requires forall i :: 0 <= i < |s| ==> s[i] != 'h' && s[i] != 'H'
    ensures forall i :: 0 <= i < |s| ==> Sanitizer.ScriptSchemeMatch(s[i..]).None?
  {
    forall i | 0 <= i < |s|
      ensures Sanitizer.ScriptSchemeMatch(s[i..]).None?
    {
      assert s[i..][0] == s[i];
      SanitizerProofs.NotLitAt(s[i..], 0, "href");
    }
  }

  /** No occurrence starts at a position of `a` when `a` has no `h` or `H`. */
  lemma KeptAround(a: string, b: string)
    requires forall i :: 0 <= i < |a| ==> a[i] != 'h' && a[i] != 'H'
    ensures forall i :: 0 <= i < |a| ==> Sanitizer.MatchAt(Sanitizer.ScriptSchemes, (a + b)[i..]).None?
  {
    forall i | 0 <= i < |a|
      ensures Sanitizer.ScriptSchemeMatch((a + b)[i..]).None?
    {
      assert (a + b)[i..][0] == a[i];
      SanitizerProofs.NotLitAt((a + b)[i..], 0, "href");
    }
  }

  lemma SchemeDeleted(m: string, b: string)
    requires m == "href=javascript:" && b == "x>y"
    ensures Sanitizer.Rewrite(Sanitizer.ScriptSchemes, m + b) == b
  {
    SchemeAtHead(m, b);
    SanitizerProofs.RewriteMatch(Sanitizer.ScriptSchemes, m, b, "");
    TailKept(b);
  }

  lemma SchemeAtHead(m: string, b: string)
    requires m == "href=javascript:" && b == "x>y"
    ensures Sanitizer.MatchAt(Sanitizer.ScriptSchemes, m + b) == Some(Sanitizer.Hit(|m|, ""))
  {
    assert m + b == "href" + "" + "=" + "" + "" + "" + "javascript:" + b;
    SchemeMatched("href", "", "", "", "", "javascript:", b, m + b);
  }

  lemma TailKept(b: string)
    requires b == "x>y"
    ensures Sanitizer.Rewrite(Sanitizer.ScriptSchemes, b) == b
  {
    KeptAround(b, []);
    SanitizerProofs.RewriteKeep(Sanitizer.ScriptSchemes, b, []);
    assert b + [] == b;
  }

  /** One scan of the corrected last pass deletes `href=javascript:` from the opener. */
  lemma UnclosedAnchorScan(t: string, a: string, m: string, b: string)
    requires t == "<a href=javascript:x>y" && a == "<a " && m == "href=javascript:" && b == "x>y"
    ensures Sanitizer.Rewrite(Sanitizer.ScriptSchemes, t) == a + b
  {
    assert t == a + (m + b);
    KeptAround(a, m + b);
    SanitizerProofs.RewriteKeep(Sanitizer.ScriptSchemes, a, m + b);
    SchemeDeleted(m, b);
  }

  lemma UnclosedAnchorStrip(t: string, once: string)
    requires t == "<a href=javascript:x>y" && once == "<a x>y"
    ensures StripScriptSchemes(t) == once
  {
    UnclosedAnchorScan(t, "<a ", "href=javascript:", "x>y");
    assert "<a " + "x>y" == once;
    NoHNoScheme(once);
    assert StripScriptSchemes(once) == once;
  }

  /** Corrected, the same input keeps its text but loses the `javascript:` href. */
  lemma UnclosedAnchorCleaned()
    ensures SanitizeHtml("<a href=javascript:x>y") == "<a x>y"
  {
    UnclosedAnchorPasses("<a href=javascript:x>y");
    UnclosedAnchorStrip("<a href=javascript:x>y", "<a x>y");
  }

  // ---------------------------------------------------------------------------
  // The correction changes nothing the source already handles

  /** Text without `=` holds no occurrence. */
  lemma NoEqualsNoScheme(s: string)
    requires '=' !in s
    ensures forall i :: 0 <= i < |s| ==> Sanitizer.ScriptSchemeMatch(s[i..]).None?
  {
    forall i | 0 <= i < |s|
      ensures Sanitizer.ScriptSchemeMatch(s[i..]).None?
    {
      var u := s[i..];
      if Sanitizer.LitAt(u, 0, "href") {
        var j := Sanitizer.SkipSpaces(u, 4);
        if j < |u| {
          assert u[j] == s[i + j];
        }
      }
    }
  }

  /** Well-formed pieces sanitise to their visible rendering, as with the source. */
  lemma WellFormedUnchanged(ps: seq<SanitizerProofs.Piece>)
    requires SanitizerProofs.Clean(ps)
    ensures SanitizeHtml(SanitizerProofs.Render(ps)) == SanitizerProofs.Render(SanitizerProofs.Visible(ps))
  {
    SanitizerProofs.SanitizeWellFormed(ps);
    var out := SanitizerProofs.Render(SanitizerProofs.Visible(ps));
    VisibleClean(ps);
    SanitizerProofs.RenderNoEquals(SanitizerProofs.Visible(ps));
    NoEqualsNoScheme(out);
  }

  lemma {:induction false} VisibleClean(ps: seq<SanitizerProofs.Piece>)
    requires SanitizerProofs.Clean(ps)
    ensures SanitizerProofs.Clean(SanitizerProofs.Visible(ps))
  {
    if ps != [] {
      VisibleClean(ps[1..]);
    }
  }

  /** Text without `<`, `=` and carriage returns is left as it is. */
  lemma PlainTextKept(s: string)
    requires forall i :: 0 <= i < |s| ==> s[i] != '<' && s[i] != '=' && s[i] != '\r'
    ensures SanitizeHtml(s) == s
  {
    SanitizerProofs.PlainTextKept(s);
    NoEqualsNoScheme(s);
  }
}
