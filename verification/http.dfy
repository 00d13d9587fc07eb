/** Request and response helpers of both runtimes: client address, origin check, cookies
    and JSON responses (src/lib/http.ts for Workers, src/server/utils.ts for Express). A
    request header is `None` when it is absent. URL parsing and URI component coding are
    calls into the platform and are parameters. */
module Http {
  import opened Text
  import opened Validation

  // ---------------------------------------------------------------------------
  // Strings

  /** The part of s before its first c, or all of s. */
  function UpTo(s: string, c: char): (r: string)
    ensures |r| <= |s| && r == s[..|r|] && c !in r
    ensures |r| < |s| ==> s[|r|] == c
  {
    if s == [] || s[0] == c then [] else [s[0]] + UpTo(s[1..], c)
  }

  lemma {:induction false} SplitFirstIsUpTo(s: string, c: char)
    ensures Split(s, c)[0] == UpTo(s, c)
    decreases |s|
  {
    if s != [] && s[0] != c {
      SplitFirstIsUpTo(s[1..], c);
    }
  }

  /** The first position at which pat occurs in s. */
  function FindSub(s: string, pat: string, from: nat): (r: Option<nat>)
    requires from <= |s|
    ensures r.Some? ==> from <= r.value && r.value + |pat| <= |s| && s[r.value..r.value + |pat|] == pat
    ensures r.Some? ==> forall k :: from <= k < r.value ==> !StartsWith(s[k..], pat)
    ensures r.None? ==> forall k :: from <= k <= |s| ==> !StartsWith(s[k..], pat)
    decreases |s| - from
  {
    if StartsWith(s[from..], pat) then Some(from)
    else if from == |s| then None
    else FindSub(s, pat, from + 1)
  }

  /** `s.replace(pat, rep)` with a string pattern: only the first occurrence is replaced. */
  function ReplaceFirst(s: string, pat: string, rep: string): (r: string)
    ensures FindSub(s, pat, 0).None? ==> r == s
  {
    match FindSub(s, pat, 0)
    case None => s
    case Some(k) => s[..k] + rep + s[k + |pat|..]
  }

  // ---------------------------------------------------------------------------
  // Client address

  /** `getIp` on Workers: `cf-connecting-ip`, else `x-forwarded-for`; the first
      comma-separated part, trimmed. An empty `cf-connecting-ip` counts as absent. */
  function GetIpWorkers(cfConnectingIp: Option<string>, forwardedFor: Option<string>): (r: Option<string>)
    ensures r.None? <==> !Truthy(cfConnectingIp) && forwardedFor.None?
    ensures Truthy(cfConnectingIp) ==> r == Some(Trim(UpTo(cfConnectingIp.value, ',')))
    ensures !Truthy(cfConnectingIp) && forwardedFor.Some? ==> r == Some(Trim(UpTo(forwardedFor.value, ',')))
    ensures r.Some? ==> ',' !in r.value
  {
    var h := if Truthy(cfConnectingIp) then cfConnectingIp else forwardedFor;
    if h.None? then None
    else
      SplitFirstIsUpTo(h.value, ',');
      Some(Trim(Split(h.value, ',')[0]))
  }

  const MappedPrefix := "::ffff:"

  /** `h || ''`: the header, or the empty string when it is absent. */
  function OrEmpty(h: Option<string>): (r: string)
    ensures r == [] <==> !Truthy(h)
  {
    if Truthy(h) then h.value else ""
  }

  /** `getIp` on Express: the first `x-forwarded-for` part if it is non-empty, else the
      socket address with its first `::ffff:` removed; trimmed, and undefined when empty. */
  function GetIpExpress(forwardedFor: Option<string>, remoteAddress: Option<string>): (r: Option<string>)
    ensures r.Some? ==> r.value != [] && r.value == Trim(r.value)
  {
    var xf := OrEmpty(forwardedFor);
    var ip := ReplaceFirst(OrEmpty(remoteAddress), MappedPrefix, "");
    var first := Split(xf, ',')[0];
    var picked := if first != [] then first else ip;
    var t := Trim(picked);
    TrimIdempotent(picked);
    if t == [] then None else Some(t)
  }

  lemma TrimIdempotent(s: string)
    ensures Trim(Trim(s)) == Trim(s)
  {
    var t := Trim(s);
    if t != [] {
      assert !IsSpace(t[0]) && !IsSpace(t[|t| - 1]);
      assert TrimStart(t) == t;
      assert TrimEnd(t) == t;
    }
  }

  /** An IPv4-mapped socket address without a forwarded header reads as the plain IPv4
      address. */
  lemma MappedAddressStripped(v4: string)
    requires v4 != [] && v4 == Trim(v4)
    ensures GetIpExpress(None, Some(MappedPrefix + v4)) == Some(v4)
  {
    PrefixReplaced(v4);
    SocketWhenNotForwarded(MappedPrefix + v4);
  }

  /** Without a forwarded header the socket address decides. */
  lemma SocketWhenNotForwarded(remote: string)
    ensures var t := Trim(ReplaceFirst(remote, MappedPrefix, ""));
      GetIpExpress(None, Some(remote)) == if t == [] then None else Some(t)
  {
    var xf := OrEmpty(None);
    assert xf == [];
    assert Split(xf, ',') == [[]];
    var ip := ReplaceFirst(remote, MappedPrefix, "");
    assert OrEmpty(Some(remote)) == remote;
    var t := Trim(ip);
    assert GetIpExpress(None, Some(remote)) == if t == [] then None else Some(t);
  }

  lemma PrefixReplaced(v4: string)
    ensures ReplaceFirst(MappedPrefix + v4, MappedPrefix, "") == v4
  {
    var s := MappedPrefix + v4;
    assert StartsWith(s[0..], MappedPrefix) by {
      assert s[0..][..|MappedPrefix|] == MappedPrefix;
    }
    assert FindSub(s, MappedPrefix, 0) == Some(0);
    assert s[|MappedPrefix|..] == v4;
  }

  /** A forwarded header whose first part is blank hides the socket address: the result
      is undefined even though the socket address is known. */
  lemma BlankForwardedPartHidesSocket(remote: string)
    ensures GetIpExpress(Some(" ,10.0.0.1"), Some(remote)) == None
  {
    SplitFirstIsUpTo(" ,10.0.0.1", ',');
    assert UpTo(" ,10.0.0.1", ',') == " ";
    assert IsSpace(' ');
  }

  // ---------------------------------------------------------------------------
  // Origin check

  /** `sameOriginOnly` on Workers. `hostOf` is the URL parser's `host`, None when the URL
      does not parse. With no configured host every request passes. */
  function SameOriginWorkers(originHost: Option<string>, origin: Option<string>, referer: Option<string>,
                             hostOf: string -> Option<string>): (ok: bool)
    ensures !Truthy(originHost) ==> ok
    ensures Truthy(originHost) && !Truthy(origin) && !Truthy(referer) ==> !ok
    ensures Truthy(originHost) && Truthy(origin) ==> (ok <==> hostOf(origin.value) == Some(originHost.value))
    ensures Truthy(originHost) && !Truthy(origin) && Truthy(referer) ==> (ok <==> hostOf(referer.value) == Some(originHost.value))
  {
    if !Truthy(originHost) then true
    else
      var o := if Truthy(origin) then origin else referer;
      if !Truthy(o) then false
      else hostOf(o.value) == Some(originHost.value)
  }

  /** `sameOriginOnly` on Express: no development fallback. */
  function SameOriginExpress(originHost: string, origin: Option<string>, referer: Option<string>,
                             hostOf: string -> Option<string>): (ok: bool)
    ensures !Truthy(origin) && !Truthy(referer) ==> !ok
    ensures ok ==> exists h :: (h == origin || h == referer) && Truthy(h) && hostOf(h.value) == Some(originHost)
  {
    var o := if Truthy(origin) then origin else referer;
    if !Truthy(o) then false
    else hostOf(o.value) == Some(originHost)
  }

  /** With a configured host the two runtimes decide alike. */
  lemma SameOriginAgree(originHost: string, origin: Option<string>, referer: Option<string>,
                        hostOf: string -> Option<string>)
    requires originHost != []
    ensures SameOriginWorkers(Some(originHost), origin, referer, hostOf)
      == SameOriginExpress(originHost, origin, referer, hostOf)
  {
  }

  // ---------------------------------------------------------------------------
  // Cookies

  /** The characters `getCookie` escapes before building its pattern: every character
      with a meaning in a regular expression outside a class. */
  predicate IsRegexMeta(c: char) {
    c == '.' || c == '$' || c == '?' || c == '*' || c == '|' || c == '{' || c == '}'
    || c == '(' || c == ')' || c == '[' || c == ']' || c == '\\' || c == '/' || c == '+' || c == '^'
  }

  /** `name.replace(/([.$?*|{}()\[\]\\\/\+^])/g, '\\$1')`. */
  function EscapeRegex(name: string): (p: string)
    ensures |p| >= |name|
  {
    if name == [] then []
    else (if IsRegexMeta(name[0]) then ['\\', name[0]] else [name[0]]) + EscapeRegex(name[1..])
  }

  /** The literal text a pattern of plain characters and escaped characters matches:
      `\c` matches c, any other character itself. None if some metacharacter is unescaped. */
  function PatternLiteral(p: string): Option<string>
    decreases |p|
  {
    if p == [] then Some([])
    else if p[0] == '\\' then
      if |p| == 1 then None
      else match PatternLiteral(p[2..])
        case None => None
        case Some(rest) => Some([p[1]] + rest)
    else if IsRegexMeta(p[0]) then None
    else match PatternLiteral(p[1..])
      case None => None
      case Some(rest) => Some([p[0]] + rest)
  }

  /** The escaped name is a pattern of literals only, and it matches the name itself. */
  lemma {:induction false} EscapedNameIsLiteral(name: string)
    ensures PatternLiteral(EscapeRegex(name)) == Some(name)
  {
    if name != [] {
      EscapedNameIsLiteral(name[1..]);
      var p := EscapeRegex(name);
      if IsRegexMeta(name[0]) {
        assert p[2..] == EscapeRegex(name[1..]);
      } else {
        assert p[1..] == EscapeRegex(name[1..]);
      }
      assert [name[0]] + name[1..] == name;
    }
  }

  /** Where `(?:^|; )name=` matches at p: at the very start, or after `; `. Returns the
      position of the value. */
  function CookieMatchAt(c: string, name: string, p: nat): (r: Option<nat>)
    requires p <= |c|
    ensures r.Some? ==> |name| + 1 <= r.value <= |c| && c[r.value - 1] == '='
  {
    var lit := name + "=";
    if p == 0 && StartsWith(c, lit) then Some(|lit|)
    else if StartsWith(c[p..], "; ") && StartsWith(c[p + 2..], lit) then Some(p + 2 + |lit|)
    else None
  }

  /** The leftmost match at or after p. */
  function FindCookie(c: string, name: string, p: nat): (r: Option<nat>)
    requires p <= |c|
    ensures r.Some? ==> exists q :: p <= q <= |c| && CookieMatchAt(c, name, q) == r
    ensures r.None? ==> forall q :: p <= q <= |c| ==> CookieMatchAt(c, name, q).None?
    decreases |c| - p
  {
    if CookieMatchAt(c, name, p).Some? then CookieMatchAt(c, name, p)
    else if p == |c| then None
    else FindCookie(c, name, p + 1)
  }

  /** `getCookie`: the value of the first `name=` at the start of the header or after `; `,
      up to the next `;`, decoded by `decode` (`decodeURIComponent`). */
  function GetCookie(header: Option<string>, name: string, decode: string -> string): (r: Option<string>)
    ensures r.Some? <==> exists q :: 0 <= q <= |OrEmpty(header)| && CookieMatchAt(OrEmpty(header), name, q).Some?
  {
    var c := OrEmpty(header);
    match FindCookie(c, name, 0)
    case None => None
    case Some(v) => Some(decode(UpTo(c[v..], ';')))
  }

  /** A cookie header holding only `name=value` gives back the decoded value. */
  lemma SingleCookie(name: string, value: string, decode: string -> string)
    requires ';' !in value
    ensures GetCookie(Some(name + "=" + value), name, decode) == Some(decode(value))
  {
    var c := name + "=" + value;
    assert StartsWith(c, name + "=");
    assert c[|name| + 1..] == value;
    UpToWhole(value, ';');
  }

  /** The first cookie of that name wins over a later one. */
  lemma FirstCookieWins(name: string, value: string, rest: string, decode: string -> string)
    requires ';' !in value
    ensures GetCookie(Some(name + "=" + value + ";" + rest), name, decode) == Some(decode(value))
  {
    var c := name + "=" + value + ";" + rest;
    assert c[..|name| + 1] == name + "=";
    assert c[|name| + 1..] == value + ";" + rest;
    UpToStops(value, rest, ';');
  }

  lemma {:induction false} UpToStops(s: string, rest: string, c: char)
    requires c !in s
    ensures UpTo(s + [c] + rest, c) == s
    decreases |s|
  {
    if s != [] {
      UpToStops(s[1..], rest, c);
      assert (s + [c] + rest)[1..] == s[1..] + [c] + rest;
    }
  }

  /** A name is matched only where a cookie starts: `name=` inside another cookie's
      name is not found. */
  lemma NameInsideOtherNotFound(name: string, value: string, decode: string -> string)
    requires name != [] && ';' !in name && '=' !in name && ';' !in value
    ensures GetCookie(Some("x" + name + "=" + value), name, decode) == None
  {
    var c := "x" + name + "=" + value;
    assert ';' !in c;
    forall q | 0 <= q <= |c|
      ensures CookieMatchAt(c, name, q).None?
    {
      assert q < |c| ==> c[q..][0] == c[q] && c[q] in c;
      assert name[|name| - 1] in name;
      assert c[|name|] == name[|name| - 1];
    }
  }

  lemma UpToWhole(s: string, c: char)
    requires c !in s
    ensures UpTo(s, c) == s
  {
  }

  /** A number as `String(n)` prints it. */
  function IntToString(n: int): (s: string)
    ensures s != []
  {
    if n < 0 then "-" + NatToString(-n) else NatToString(n)
  }

  /** Joins attribute parts with `; `. */
  function JoinParts(parts: seq<string>): string
    requires |parts| >= 1
  {
    if |parts| == 1 then parts[0] else parts[0] + "; " + JoinParts(parts[1..])
  }

  /** The `Max-Age` part, present only when the option is truthy (given and not 0). */
  function MaxAgePart(maxAge: Option<int>): (r: seq<string>)
    ensures |r| <= 1
    ensures r != [] <==> maxAge.Some? && maxAge.value != 0
  {
    if maxAge.Some? && maxAge.value != 0 then ["Max-Age=" + IntToString(maxAge.value)] else []
  }

  /** The Set-Cookie parts on Workers: Secure before HttpOnly. */
  function WorkersCookieParts(name: string, encoded: string, maxAge: Option<int>): (parts: seq<string>)
    ensures |parts| >= 5 && parts[0] == name + "=" + encoded
    ensures parts[1..5] == ["Path=/", "Secure", "HttpOnly", "SameSite=Lax"]
    ensures parts[5..] == MaxAgePart(maxAge)
  {
    [name + "=" + encoded, "Path=/", "Secure", "HttpOnly", "SameSite=Lax"] + MaxAgePart(maxAge)
  }

  /** The Set-Cookie parts on Express: HttpOnly before Secure. */
  function ExpressCookieParts(name: string, encoded: string, maxAge: Option<int>): (parts: seq<string>)
    ensures |parts| >= 5 && parts[0] == name + "=" + encoded
    ensures parts[1..5] == ["Path=/", "HttpOnly", "Secure", "SameSite=Lax"]
    ensures parts[5..] == MaxAgePart(maxAge)
  {
    [name + "=" + encoded, "Path=/", "HttpOnly", "Secure", "SameSite=Lax"] + MaxAgePart(maxAge)
  }

  /** The parts a user agent reads back from a Set-Cookie line, as section 5.2 of
      RFC 6265 describes: the pieces between `;`, each without the one space that
      follows the separator. */
  function ReadParts(line: string): (parts: seq<string>)
    ensures |parts| >= 1
  {
    var raw := Split(line, ';');
    [raw[0]] + seq(|raw| - 1, i requires 0 <= i < |raw| - 1 => DropSpace(raw[i + 1]))
  }

  function DropSpace(s: string): string {
    if s != [] && s[0] == ' ' then s[1..] else s
  }

  /** The pieces JoinParts puts between the separators. */
  function Spaced(parts: seq<string>): (r: seq<string>)
    requires |parts| >= 1
    ensures |r| == |parts| && r[0] == parts[0]
    ensures forall i :: 1 <= i < |r| ==> r[i] == " " + parts[i]
  {
    [parts[0]] + seq(|parts| - 1, i requires 0 <= i < |parts| - 1 => " " + parts[i + 1])
  }

  lemma {:induction false} JoinPartsIsJoin(parts: seq<string>)
    requires |parts| >= 1
    ensures JoinParts(parts) == Join(Spaced(parts), ';')
    decreases |parts|
  {
    if |parts| > 1 {
      JoinPartsIsJoin(parts[1..]);
      var sp := Spaced(parts);
      var tail := Spaced(parts[1..]);
      assert sp[1..] == [" " + tail[0]] + tail[1..];
      assert Join(sp, ';') == parts[0] + [';'] + Join(sp[1..], ';');
      JoinPrefixedHead(tail, " ", ';');
    }
  }

  /** Prefixing the first piece prefixes the joined text. */
  lemma JoinPrefixedHead(ps: seq<string>, pre: string, sep: char)
    requires |ps| >= 1
    ensures Join([pre + ps[0]] + ps[1..], sep) == pre + Join(ps, sep)
  {
    var qs := [pre + ps[0]] + ps[1..];
    if |ps| > 1 {
      assert qs[1..] == ps[1..];
    }
  }

  /** Split undoes Join when no piece holds the separator. */
  lemma {:induction false} SplitOfJoin(ps: seq<string>, sep: char)
    requires |ps| >= 1
    requires forall i :: 0 <= i < |ps| ==> sep !in ps[i]
    ensures Split(Join(ps, sep), sep) == ps
    decreases |ps|
  {
    if |ps| == 1 {
      SplitNoSep(ps[0], sep);
    } else {
      SplitOfJoin(ps[1..], sep);
      SplitConcat(ps[0], Join(ps[1..], sep), sep);
      assert [ps[0]] + ps[1..] == ps;
    }
  }

  /** A Set-Cookie line is read back as the parts it was built from. */
  lemma ReadPartsOfJoin(parts: seq<string>)
    requires |parts| >= 1
    requires forall i :: 0 <= i < |parts| ==> ';' !in parts[i]
    ensures ReadParts(JoinParts(parts)) == parts
  {
    JoinPartsIsJoin(parts);
    var sp := Spaced(parts);
    SpacedHasNoSeparator(parts);
    SplitOfJoin(sp, ';');
    ReadPartsOfSpaced(parts);
  }

  lemma SpacedHasNoSeparator(parts: seq<string>)
    requires |parts| >= 1
    requires forall i :: 0 <= i < |parts| ==> ';' !in parts[i]
    ensures forall i :: 0 <= i < |parts| ==> ';' !in Spaced(parts)[i]
  {
    var sp := Spaced(parts);
    forall i | 0 <= i < |sp|
      ensures ';' !in sp[i]
    {
      if i > 0 {
        assert sp[i] == " " + parts[i];
      }
    }
  }

  /** Dropping the space after each separator gives the parts back. */
  lemma ReadPartsOfSpaced(parts: seq<string>)
    requires |parts| >= 1
    requires Split(Join(Spaced(parts), ';'), ';') == Spaced(parts)
    ensures ReadParts(Join(Spaced(parts), ';')) == parts
  {
    var sp := Spaced(parts);
    var r := ReadParts(Join(sp, ';'));
    assert |r| == |parts|;
    forall i | 0 <= i < |parts|
      ensures r[i] == parts[i]
    {
      if i > 0 {
        assert r[i] == DropSpace(sp[i]);
        assert (" " + parts[i])[1..] == parts[i];
      }
    }
  }

  /** The Workers cookie carries the name and encoded value, then Path, Secure, HttpOnly
      and SameSite=Lax, then Max-Age only when one is given. */
  lemma WorkersCookieReadBack(name: string, encoded: string, maxAge: Option<int>)
    requires ';' !in name && ';' !in encoded
    ensures ReadParts(JoinParts(WorkersCookieParts(name, encoded, maxAge))) == WorkersCookieParts(name, encoded, maxAge)
  {
    var parts := WorkersCookieParts(name, encoded, maxAge);
    forall i | 0 <= i < |parts|
      ensures ';' !in parts[i]
    {
      if i >= 5 {
        assert parts[i] == "Max-Age=" + IntToString(maxAge.value);
      }
    }
    ReadPartsOfJoin(parts);
  }

  /** The Express cookie carries the same attributes with HttpOnly before Secure. */
  lemma ExpressCookieReadBack(name: string, encoded: string, maxAge: Option<int>)
    requires ';' !in name && ';' !in encoded
    ensures ReadParts(JoinParts(ExpressCookieParts(name, encoded, maxAge))) == ExpressCookieParts(name, encoded, maxAge)
  {
    var parts := ExpressCookieParts(name, encoded, maxAge);
    forall i | 0 <= i < |parts|
      ensures ';' !in parts[i]
    {
      if i >= 5 {
        assert parts[i] == "Max-Age=" + IntToString(maxAge.value);
      }
    }
    ReadPartsOfJoin(parts);
  }

  lemma {:induction false} SplitNoSep(s: string, sep: char)
    requires sep !in s
    ensures Split(s, sep) == [s]
    decreases |s|
  {
    if s != [] {
      SplitNoSep(s[1..], sep);
      assert [s[0]] + s[1..] == s;
    }
  }

  /** Splitting `a + [sep] + b` with sep not in a. */
  lemma {:induction false} SplitConcat(a: string, b: string, sep: char)
    requires sep !in a
    ensures Split(a + [sep] + b, sep) == [a] + Split(b, sep)
    decreases |a|
  {
    if a == [] {
      assert a + [sep] + b == [sep] + b;
      assert ([sep] + b)[1..] == b;
    } else {
      SplitConcat(a[1..], b, sep);
      assert (a + [sep] + b)[1..] == a[1..] + [sep] + b;
      assert [a[0]] + a[1..] == a;
    }
  }

  // ---------------------------------------------------------------------------
  // Response headers

  /** A response header list with names in lower case, in insertion order. Both runtimes
      append to it in place. */
  class HeaderList {
    var entries: seq<(string, string)>

    constructor ()
      ensures entries == []
    {
      entries := [];
    }

    /** `Headers.append` / `res.append`: one more entry at the end. */
    method Append(name: string, value: string)
      modifies this
      ensures entries == old(entries) + [(Lower(name), value)]
    {
      entries := entries + [(Lower(name), value)];
    }
  }

  /** `setCookie` on Workers appends exactly one `set-cookie` entry. */
  method SetCookieWorkers(headers: HeaderList, name: string, value: string, maxAge: Option<int>,
                          encode: string -> string)
    modifies headers
    ensures headers.entries == old(headers.entries) + [("set-cookie", JoinParts(WorkersCookieParts(name, encode(value), maxAge)))]
  {
    var parts := [name + "=" + encode(value), "Path=/", "Secure", "HttpOnly", "SameSite=Lax"];
    if maxAge.Some? && maxAge.value != 0 {
      parts := parts + ["Max-Age=" + IntToString(maxAge.value)];
    }
    assert parts == WorkersCookieParts(name, encode(value), maxAge);
    CookieHeaderNames();
    headers.Append("set-cookie", JoinParts(parts));
  }

  /** `setCookie` on Express appends exactly one `Set-Cookie` entry. */
  method SetCookieExpress(headers: HeaderList, name: string, value: string, maxAge: Option<int>,
                          encode: string -> string)
    modifies headers
    ensures headers.entries == old(headers.entries) + [("set-cookie", JoinParts(ExpressCookieParts(name, encode(value), maxAge)))]
  {
    var parts := [name + "=" + encode(value), "Path=/", "HttpOnly", "Secure", "SameSite=Lax"];
    if maxAge.Some? && maxAge.value != 0 {
      parts := parts + ["Max-Age=" + IntToString(maxAge.value)];
    }
    assert parts == ExpressCookieParts(name, encode(value), maxAge);
    CookieHeaderNames();
    headers.Append("Set-Cookie", JoinParts(parts));
  }

  /** Both spellings of the header name are stored as `set-cookie`. */
  lemma CookieHeaderNames()
    ensures Lower("set-cookie") == "set-cookie" && Lower("Set-Cookie") == "set-cookie"
  {
    var a := "set-cookie";
    var b := "Set-Cookie";
    assert forall i :: 0 <= i < |a| ==> LowerChar(a[i]) == a[i];
    LowerPointwise(a, a);
    assert forall i :: 0 <= i < |b| ==> LowerChar(b[i]) == a[i];
    LowerPointwise(b, a);
  }

  lemma LowerPointwise(s: string, t: string)
    requires |s| == |t| && forall i :: 0 <= i < |s| ==> LowerChar(s[i]) == t[i]
    ensures Lower(s) == t
  {
  }

  /** `Headers.set`: the first entry of that name takes the value, later ones go, and a
      missing name is appended. */
  function SetHeader(hs: seq<(string, string)>, name: string, value: string): (r: seq<(string, string)>)
    ensures forall i :: 0 <= i < |r| ==> r[i].0 == name ==> r[i].1 == value
    ensures exists i :: 0 <= i < |r| && r[i] == (name, value)
    ensures Without(r, name) == Without(hs, name)
  {
    if exists i :: 0 <= i < |hs| && hs[i].0 == name then ReplaceFirstHeader(hs, name, value)
    else
      WithoutAppend(hs, [(name, value)], name);
      var r := hs + [(name, value)];
      assert r[|hs|] == (name, value);
      r
  }

  /** The entries whose name is not `name`, in order. */
  function Without(hs: seq<(string, string)>, name: string): seq<(string, string)> {
    if hs == [] then [] else (if hs[0].0 == name then [] else [hs[0]]) + Without(hs[1..], name)
  }

  lemma {:induction false} WithoutAppend(a: seq<(string, string)>, b: seq<(string, string)>, name: string)
    requires forall i :: 0 <= i < |b| ==> b[i].0 == name
    ensures Without(a + b, name) == Without(a, name)
    decreases |a| + |b|
  {
    if a == [] {
      if b != [] {
        assert a + b == b;
        assert [] + b[1..] == b[1..];
        WithoutAppend([], b[1..], name);
      }
    } else {
      assert (a + b)[1..] == a[1..] + b;
      WithoutAppend(a[1..], b, name);
    }
  }

  function ReplaceFirstHeader(hs: seq<(string, string)>, name: string, value: string): (r: seq<(string, string)>)
    requires exists i :: 0 <= i < |hs| && hs[i].0 == name
    ensures forall i :: 0 <= i < |r| ==> r[i].0 == name ==> r[i].1 == value
    ensures exists i :: 0 <= i < |r| && r[i] == (name, value)
    ensures Without(r, name) == Without(hs, name)
  {
    if hs[0].0 == name then
      DropNamed(hs[1..], name);
      var w := Without(hs[1..], name);
      var r := [(name, value)] + w;
      assert r[0] == (name, value);
      assert r[1..] == w;
      r
    else
      var rest := ReplaceFirstHeader(hs[1..], name, value);
      assert ([hs[0]] + rest)[1..] == rest;
      [hs[0]] + rest
  }

  lemma {:induction false} DropNamed(hs: seq<(string, string)>, name: string)
    ensures forall i :: 0 <= i < |Without(hs, name)| ==> Without(hs, name)[i].0 != name
    ensures Without(Without(hs, name), name) == Without(hs, name)
  {
    if hs != [] {
      DropNamed(hs[1..], name);
      var w := Without(hs[1..], name);
      if hs[0].0 == name {
        assert Without(hs, name) == [] + w == w;
      } else {
        assert Without(hs, name) == [hs[0]] + w;
        assert ([hs[0]] + w)[1..] == w;
      }
    }
  }

  datatype Init = Init(status: Option<int>, headers: seq<(string, string)>)

  datatype HttpResponse<T> = HttpResponse(status: int, headers: seq<(string, string)>, data: T)

  const JsonContentType := "application/json; charset=utf-8"

  /** `json(data, init)`: the init's status (200 when absent) and headers, with the JSON
      content type set. */
  function Json<T>(data: T, init: Init): (r: HttpResponse<T>)
    ensures r.status == if init.status.Some? then init.status.value else 200
    ensures forall i :: 0 <= i < |r.headers| ==> r.headers[i].0 == "content-type" ==> r.headers[i].1 == JsonContentType
    ensures exists i :: 0 <= i < |r.headers| && r.headers[i] == ("content-type", JsonContentType)
    ensures Without(r.headers, "content-type") == Without(init.headers, "content-type")
    ensures r.data == data
  {
    HttpResponse(if init.status.Some? then init.status.value else 200,
                 SetHeader(init.headers, "content-type", JsonContentType), data)
  }

  datatype ErrorData = ErrorData(error: ErrorCode, message: Option<string>)

  /** `error(status, code, message)`. */
  function Error(status: int, code: ErrorCode, message: Option<string>): (r: HttpResponse<ErrorData>)
    ensures r.status == status && r.data == ErrorData(code, message)
    ensures r.headers == [("content-type", JsonContentType)]
  {
    Json(ErrorData(code, message), Init(Some(status), []))
  }
}
