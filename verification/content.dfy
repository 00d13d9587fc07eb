/** Moderation signals and content preparation for a new annotation
    (src/lib/annotations/content.ts and `moderationFlags` in src/server/services.ts). */
module Content {
  import opened Text
  import opened Kinds
  import Sanitizer
  import SanitizerProofs
  import SanitizerCorrected

  // ---------------------------------------------------------------------------
  // Counting links: the global, case-insensitive pattern `https?:\/\/`

  /** The length of the `https?://` match at the start of t, or 0 when there is none.
      After `http` the optional `s` is tried first; without `://` after it the pattern
      backtracks and needs `://` right after `http`. */
  function UrlLenAt(t: string): (n: nat)
    ensures n == 0 || n == 7 || n == 8
    ensures n > 0 ==> n <= |t| && SameLetterCI(t[0], 'h')
    ensures n == 0 <==> !StartsWithCI(t, "https://") && !StartsWithCI(t, "http://")
  {
    if StartsWithCI(t, "https://") then 8
    else if StartsWithCI(t, "http://") then 7
    else 0
  }

  /** `(s.match(/https?:\/\//gi) || []).length`: the scan restarts after each match, so
      every match takes at least the seven characters of `http://` for itself. */
  function UrlCount(s: string): (n: nat)
    ensures 7 * n <= |s|
    ensures n == 0 <==> forall i :: 0 <= i < |s| ==> UrlLenAt(s[i..]) == 0
    decreases |s|
  {
    if s == [] then 0
    else if UrlLenAt(s) > 0 then
      assert s[0..] == s;
      1 + UrlCount(s[UrlLenAt(s)..])
    else
      assert s[0..] == s;
      assert forall i :: 1 <= i < |s| ==> s[1..][i - 1..] == s[i..];
      UrlCount(s[1..])
  }

  /** The number of positions of s at which `http://` or `https://` starts, in any case. */
  function UrlStarts(s: string): nat
    decreases |s|
  {
    if s == [] then 0
    else (if UrlLenAt(s) > 0 then 1 else 0) + UrlStarts(s[1..])
  }

  /** Inside a match no other match starts: none of `ttp://` or `ttps://` is an `h`. */
  lemma {:induction false} NoStartInside(s: string, k: nat)
    requires UrlLenAt(s) > 0 && 1 <= k <= UrlLenAt(s)
    ensures UrlStarts(s[k..]) == UrlStarts(s[UrlLenAt(s)..])
    decreases UrlLenAt(s) - k
  {
    if k < UrlLenAt(s) {
      NoStartInside(s, k + 1);
      var u := s[k..];
      assert u[0] == s[k];
      assert !SameLetterCI(s[k], 'h') by {
        if StartsWithCI(s, "https://") {
          assert SameLetterCI(s[k], "https://"[k]);
        } else {
          assert SameLetterCI(s[k], "http://"[k]);
        }
      }
      assert UrlLenAt(u) == 0;
      assert u[1..] == s[k + 1..];
    }
  }

  /** The match count equals the count of start positions: matches never overlap. */
  lemma {:induction false} UrlCountIsStarts(s: string)
    ensures UrlCount(s) == UrlStarts(s)
    decreases |s|
  {
    if s != [] {
      var n := UrlLenAt(s);
      if n > 0 {
        UrlCountIsStarts(s[n..]);
        NoStartInside(s, 1);
      } else {
        UrlCountIsStarts(s[1..]);
      }
    }
  }

  // ---------------------------------------------------------------------------
  // Preparing an annotation body

  datatype Signals = Signals(urlCount: nat, tooLong: bool, idempotencyKey: string)

  datatype Prepared = Prepared(
    sanitizedHtml: string,
    urlCount: nat,
    tooLong: bool,
    state: State,
    kind: Kind,
    signals: Signals)

  /** The moderation rule shared by every write path: hold a long or link-heavy body. */
  function ModerationState(urlCount: nat, tooLong: bool): (s: State)
    ensures s == Pending <==> tooLong || urlCount > ModerationUrlThreshold
    ensures s != Rejected
  {
    if tooLong || urlCount > ModerationUrlThreshold then Pending else Published
  }

  /** `String.prototype.slice(0, n)` for n >= 0. */
  function Prefix(s: string, n: nat): (r: string)
    ensures |r| == if |s| <= n then |s| else n
    ensures r == s[..|r|]
  {
    if |s| <= n then s else s[..n]
  }

  /** `prepareAnnotationContent`: signals are taken on the raw body, the stored body is the
      first 8000 characters passed through `sanitizeHtml` as written. */
  function PrepareContent(bodyHtml: string, idempotencyKey: string, kindInput: Option<string>): (p: Prepared)
    ensures p.urlCount == UrlCount(bodyHtml) && p.tooLong == (|bodyHtml| > ModerationTextLengthThreshold)
    ensures p.state == Pending <==> |bodyHtml| > ModerationTextLengthThreshold || UrlCount(bodyHtml) > ModerationUrlThreshold
    ensures p.state != Rejected
    ensures p.sanitizedHtml == Sanitizer.SanitizeHtml(Prefix(bodyHtml, BodyHtmlMaxLength))
    ensures p.signals == Signals(p.urlCount, p.tooLong, idempotencyKey)
    ensures p.kind == NormalizeKind(kindInput)
  {
    var urlCount := UrlCount(bodyHtml);
    var tooLong := |bodyHtml| > ModerationTextLengthThreshold;
    Prepared(
      Sanitizer.SanitizeHtml(Prefix(bodyHtml, BodyHtmlMaxLength)),
      urlCount,
      tooLong,
      ModerationState(urlCount, tooLong),
      NormalizeKind(kindInput),
      Signals(urlCount, tooLong, idempotencyKey))
  }

  /** The preparation with the corrected sanitiser of the Findings row: every field as
      `PrepareContent` gives it but the stored body, which is the source's body with every
      `javascript:` href deleted; it holds none, and it is the source's body whenever that
      held none already. */
  function PrepareContentCorrected(bodyHtml: string, idempotencyKey: string, kindInput: Option<string>): (p: Prepared)
    ensures var q := PrepareContent(bodyHtml, idempotencyKey, kindInput);
      p.(sanitizedHtml := q.sanitizedHtml) == q &&
      p.sanitizedHtml == SanitizerCorrected.StripScriptSchemes(q.sanitizedHtml) &&
      ((forall i :: 0 <= i < |q.sanitizedHtml| ==> Sanitizer.ScriptSchemeMatch(q.sanitizedHtml[i..]).None?) ==> p == q)
    ensures forall i :: 0 <= i < |p.sanitizedHtml| ==> Sanitizer.ScriptSchemeMatch(p.sanitizedHtml[i..]).None?
  {
    var q := PrepareContent(bodyHtml, idempotencyKey, kindInput);
    q.(sanitizedHtml := SanitizerCorrected.SanitizeHtml(Prefix(bodyHtml, BodyHtmlMaxLength)))
  }

  datatype Flags = Flags(urlCount: nat, tooLong: bool, state: State)

  /** `moderationFlags` of the Express server: the same three signals. */
  function ModerationFlags(html: string): (f: Flags)
    ensures f.state == Pending <==> |html| > 2000 || f.urlCount > 3
    ensures f.state != Rejected
  {
    var urlCount := UrlCount(html);
    var tooLong := |html| > 2000;
    Flags(urlCount, tooLong, ModerationState(urlCount, tooLong))
  }

  /** The Express flags and the shared preparation agree on every body. */
  lemma FlagsAgreeWithPrepare(html: string, key: string, kind: Option<string>)
    ensures var p := PrepareContent(html, key, kind);
      ModerationFlags(html) == Flags(p.urlCount, p.tooLong, p.state)
  {
  }

  /** `applyRepeatHold`: a quote repeated moments ago forces review. */
  function ApplyRepeatHold(current: State, repeatCount: nat): (s: State)
    ensures repeatCount > 0 ==> s == Pending
    ensures repeatCount == 0 ==> s == current
  {
    if repeatCount > 0 then Pending else current
  }

  /** A body of plain characters (no `<`, `=` or carriage return) longer than the cap is
      cut to exactly 8000 characters, passes the sanitiser unchanged and is held. */
  lemma LongPlainBodyTruncated(body: string, key: string, kind: Option<string>)
    requires |body| > BodyHtmlMaxLength
    requires forall i :: 0 <= i < |body| ==> body[i] != '<' && body[i] != '=' && body[i] != '\r'
    ensures var p := PrepareContent(body, key, kind);
      p.sanitizedHtml == body[..BodyHtmlMaxLength] && |p.sanitizedHtml| == 8000 && p.state == Pending
  {
    var cut := body[..BodyHtmlMaxLength];
    SanitizerProofs.PlainTextKept(cut);
  }
}
