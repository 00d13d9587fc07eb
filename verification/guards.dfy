/** The guards of the write pipeline that read or write the store: the rate limiter and
    the idempotency reservation of src/server/services.ts, which the Workers handlers
    repeat inline. The outside world a request meets (clocks, the HMAC, the URL parser,
    the URI coder, the Turnstile outcome, the UUID source and store faults) is a value. */
module Guards {
  import opened Text
  import opened Validation
  import opened Hex
  import opened Storage

  /** The Turnstile call: it answers success or failure, or it throws. */
  datatype Verdict = Passed | Rejected | Errored

  /** What one request sees of the outside world. `nowSecs` is the database clock of
      `datetime('now')`, `nowMs` is `Date.now()`, `parseMs` is `Date.parse` of a stored
      timestamp (None for NaN), `today` is `isoDateUTC()`. The three fault flags make
      the reservation insert, the annotation insert and the final settings update throw. */
  datatype World = World(
    hostOf: string -> Option<string>,
    decode: string -> string,
    encode: string -> string,
    mac: (string, string) -> seq<byte>,
    today: string,
    uuid: string,
    turnstile: Verdict,
    nowSecs: int,
    nowMs: int,
    parseMs: int -> Option<int>,
    reserveFails: bool,
    insertFails: bool,
    finalizeFails: bool)

  const IpWindowSecs := 60
  const IpWindowMax := 5
  const VisitorGapMs := 15000
  const RepeatWindowSecs := 30

  // ---------------------------------------------------------------------------
  // Rate limits

  /** `ip ? await hmacIpHash(salt, ip, isoDateUTC()) : ''`. */
  function IpHashFor(mac: (string, string) -> seq<byte>, salt: string, ip: Option<string>, today: string): (h: string)
    ensures !Truthy(ip) ==> h == ""
    ensures Truthy(ip) ==> h == IpHash(mac, salt, ip.value, today)
  {
    if Truthy(ip) then IpHash(mac, salt, ip.value, today) else ""
  }

  /** Rule one: five or more rows of this fingerprint in the trailing 60 seconds. An
      empty fingerprint skips the rule. */
  predicate PerIpLimited(rows: seq<Row>, ipHash: string, nowSecs: int) {
    ipHash != [] && Count(rows, FromIpSince(ipHash, nowSecs - IpWindowSecs)) >= IpWindowMax
  }

  /** Rule two: the visitor's latest row is under 15000 ms old. A timestamp that does not
      parse never limits. */
  predicate PerVisitorLimited(rows: seq<Row>, visitorId: string, nowMs: int, parseMs: int -> Option<int>) {
    match LatestByVisitor(rows, visitorId)
    case None => false
    case Some(t) =>
      match parseMs(t)
      case None => false
      case Some(ms) => nowMs - ms < VisitorGapMs
  }

  predicate RateLimited(rows: seq<Row>, ipHash: string, visitorId: string, w: World) {
    PerIpLimited(rows, ipHash, w.nowSecs) || PerVisitorLimited(rows, visitorId, w.nowMs, w.parseMs)
  }

  /** `rateLimit`: the verdict of both rules and the fingerprint it computed. */
  method RateLimit(st: Store, salt: string, ip: Option<string>, visitorId: string, w: World)
    returns (limited: bool, ipHash: string)
    ensures ipHash == IpHashFor(w.mac, salt, ip, w.today)
    ensures limited <==> PerIpLimited(st.rows, ipHash, w.nowSecs) || PerVisitorLimited(st.rows, visitorId, w.nowMs, w.parseMs)
  {
    ipHash := if Truthy(ip) then IpHash(w.mac, salt, ip.value, w.today) else "";
    if ipHash != "" {
      var c := Count(st.rows, FromIpSince(ipHash, w.nowSecs - IpWindowSecs));
      if c >= IpWindowMax {
        limited := true;
        return;
      }
    }
    var last := LatestByVisitor(st.rows, visitorId);
    if last.Some? {
      var lastTs := w.parseMs(last.value);
      if lastTs.Some? && w.nowMs - lastTs.value < VisitorGapMs {
        limited := true;
        return;
      }
    }
    limited := false;
  }

  /** Without an address the fingerprint is empty and only the visitor rule decides. */
  lemma NoAddressOnlyVisitorRule(rows: seq<Row>, salt: string, ip: Option<string>, visitorId: string, w: World)
    requires !Truthy(ip)
    ensures RateLimited(rows, IpHashFor(w.mac, salt, ip, w.today), visitorId, w)
      == PerVisitorLimited(rows, visitorId, w.nowMs, w.parseMs)
  {
  }

  /** An accepted row from this fingerprint adds one to its window. */
  lemma {:induction false} AcceptedRowEntersWindow(rows: seq<Row>, r: Row, h: string, since: int)
    requires r.ipHash == Some(h) && r.createdAt > since
    ensures Count(rows + [r], FromIpSince(h, since)) == Count(rows, FromIpSince(h, since)) + 1
  {
    CountAppend(rows, r, FromIpSince(h, since));
  }

  /** The visitor rule with timestamps that parse to whole seconds: the visitor may post
      again exactly when 15000 ms have passed since the latest row. */
  lemma VisitorGap(rows: seq<Row>, visitorId: string, w: World, t: int)
    requires LatestByVisitor(rows, visitorId) == Some(t)
    requires w.parseMs(t) == Some(1000 * t)
    ensures PerVisitorLimited(rows, visitorId, w.nowMs, w.parseMs) <==> w.nowMs < 1000 * t + VisitorGapMs
  {
  }

  // ---------------------------------------------------------------------------
  // Idempotency

  /** `idem:${visitorId}:${key}`. */
  function IdemKey(visitorId: string, key: string): (k: string)
    ensures k == "idem:" + visitorId + ":" + key
  {
    "idem:" + visitorId + ":" + key
  }

  /** Distinct requests never share a key as long as visitor ids hold no `:` (minted
      UUIDs never do). */
  lemma IdemKeyInjective(v1: string, k1: string, v2: string, k2: string)
    requires ':' !in v1 && ':' !in v2
    requires IdemKey(v1, k1) == IdemKey(v2, k2)
    ensures v1 == v2 && k1 == k2
  {
    var m := if |v1| <= |v2| then |v1| else |v2|;
    KeyCharAt(v1, k1, m);
    KeyCharAt(v2, k2, m);
    var a := IdemKey(v1, k1);
    assert |v1| == |v2|;
    assert v1 == a[5..5 + |v1|] == v2;
    assert k1 == a[6 + |v1|..] == k2;
  }

  /** The character at 5 + i of a key: the visitor id's, then the separating colon. */
  lemma KeyCharAt(v: string, k: string, i: nat)
    requires i <= |v|
    ensures i < |v| ==> IdemKey(v, k)[5 + i] in v
    ensures i == |v| ==> IdemKey(v, k)[5 + i] == ':'
  {
    if i < |v| {
      assert IdemKey(v, k)[5 + i] == v[i];
    }
  }

  datatype Reservation = Reserved | Conflicted(id: Option<nat>)

  const ReservedMark := "reserved"

  /** `reserveIdempotency`: a non-empty stored value is a conflict carrying
      `Number(value) || undefined`; otherwise the key is inserted as `'reserved'`, and a
      failed insert (the key exists with an empty value, or the store throws) is a
      conflict without id. */
  function Reserve(db: Db, key: string, fails: bool): (r: (Db, Reservation))
    ensures r.1 == Reserved <==> key !in db.settings && !fails
    ensures r.1 == Reserved ==> r.0 == db.(settings := db.settings[key := ReservedMark])
    ensures r.1.Conflicted? ==> r.0 == db
    ensures r.1.Conflicted? && r.1.id.Some? ==>
              key in db.settings && r.1.id.value > 0 && NumberOf(db.settings[key]) == r.1.id
  {
    if key in db.settings && db.settings[key] != [] then (db, Conflicted(TruthyNumber(db.settings[key])))
    else if key in db.settings || fails then (db, Conflicted(None))
    else (db.(settings := db.settings[key := ReservedMark]), Reserved)
  }

  method ReserveIdempotency(st: Store, visitorId: string, key: string, fails: bool) returns (r: Reservation)
    modifies st
    ensures (st.Snapshot(), r) == Reserve(old(st.Snapshot()), IdemKey(visitorId, key), fails)
  {
    var idemKey := "idem:" + visitorId + ":" + key;
    if idemKey in st.settings && st.settings[idemKey] != [] {
      return Conflicted(TruthyNumber(st.settings[idemKey]));
    }
    if fails {
      return Conflicted(None);
    }
    var ok := st.InsertSetting(idemKey, ReservedMark);
    r := if ok then Reserved else Conflicted(None);
  }

  /** A second reservation of a key conflicts, whatever the store does. */
  lemma SecondReserveConflicts(db: Db, key: string, f1: bool, f2: bool)
    requires Reserve(db, key, f1).1 == Reserved
    ensures Reserve(Reserve(db, key, f1).0, key, f2) == (Reserve(db, key, f1).0, Conflicted(None))
  {
    assert Reserve(db, key, f1).0.settings[key] == ReservedMark;
    assert TruthyNumber(ReservedMark) == None by {
      assert !IsDigit(ReservedMark[0]);
    }
  }

  /** Once the key holds an annotation id, a reservation conflicts with that id. */
  lemma FinalizedKeyReportsId(db: Db, key: string, id: nat, fails: bool)
    requires id > 0 && key in db.settings && db.settings[key] == NatToString(id)
    ensures Reserve(db, key, fails) == (db, Conflicted(Some(id)))
  {
    ParseNatToString(id);
  }

  /** `SELECT COUNT(1) … WHERE quote = ? AND created_at > datetime('now', '-30 seconds')`. */
  function RepeatCount(rows: seq<Row>, quote: string, nowSecs: int): (n: nat)
    ensures n <= |rows|
  {
    Count(rows, QuotedSince(quote, nowSecs - RepeatWindowSecs))
  }
}
