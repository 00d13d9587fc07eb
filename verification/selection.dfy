/** The selection serializer of the JavaScript reader (public/annotate.js). The article is
    the sequence of its text nodes in document order; a text is a sequence of UTF-16 code
    units, which is what `length` and `slice` count, although the position selector it
    produces is labelled `codepoint`. */
module Selection {
  import opened Text

  /** A UTF-16 code unit. */
  newtype Unit = x: int | 0 <= x < 0x1_0000

  type JsText = seq<Unit>

  // ---------------------------------------------------------------------------
  // Text content and offsets

  /** The total length of the nodes. */
  function SumLengths(nodes: seq<JsText>): nat {
    if nodes == [] then 0 else SumLengths(nodes[..|nodes| - 1]) + |nodes[|nodes| - 1]|
  }

  /** `textContentWithin`: the node texts joined in document order. */
  function Concat(nodes: seq<JsText>): (t: JsText)
    ensures |t| == SumLengths(nodes)
  {
    if nodes == [] then [] else Concat(nodes[..|nodes| - 1]) + nodes[|nodes| - 1]
  }

  /** The text of the first m nodes begins the whole text. */
  lemma {:induction false} ConcatPrefix(nodes: seq<JsText>, m: nat)
    requires m <= |nodes|
    ensures SumLengths(nodes[..m]) <= SumLengths(nodes)
    ensures Concat(nodes[..m]) == Concat(nodes)[..SumLengths(nodes[..m])]
    decreases |nodes| - m
  {
    if m < |nodes| {
      ConcatPrefix(nodes, m + 1);
      assert nodes[..m + 1][..m] == nodes[..m];
      assert Concat(nodes[..m + 1]) == Concat(nodes[..m]) + nodes[m];
    } else {
      assert nodes[..m] == nodes;
    }
  }

  /** What a range boundary points into: a text node of the article, given by its place
      among the text nodes, some other node inside the article, or a node outside it. */
  datatype Container = TextNode(index: nat) | OtherNode(id: nat) | Outside

  datatype Boundary = Boundary(container: Container, offset: nat)

  /** The first range of the selection; a collapsed range has equal boundaries. */
  datatype Range = Range(start: Boundary, end: Boundary)

  /** What `offsetWithin` computes: the length of the text before the node plus the
      offset, or the whole length when the container is not one of the text nodes. */
  function OffsetOf(nodes: seq<JsText>, b: Boundary): nat {
    if b.container.TextNode? && b.container.index < |nodes| then SumLengths(nodes[..b.container.index]) + b.offset
    else SumLengths(nodes)
  }

  /** `offsetWithin`: walks the text nodes adding up their lengths until it meets the
      container. */
  method OffsetWithin(nodes: seq<JsText>, b: Boundary) returns (total: nat)
    ensures total == OffsetOf(nodes, b)
  {
    total := 0;
    for i := 0 to |nodes|
      invariant total == SumLengths(nodes[..i])
      invariant b.container.TextNode? && b.container.index < |nodes| ==> i <= b.container.index
    {
      if b.container == TextNode(i) {
        return total + b.offset;
      }
      assert nodes[..i + 1][..i] == nodes[..i];
      total := total + |nodes[i]|;
    }
    assert nodes[..|nodes|] == nodes;
  }

  /** An offset inside a text node names the same code unit in the joined text. */
  lemma OffsetLocatesUnit(nodes: seq<JsText>, k: nat, j: nat)
    requires k < |nodes| && j < |nodes[k]|
    ensures OffsetOf(nodes, Boundary(TextNode(k), j)) < |Concat(nodes)|
    ensures Concat(nodes)[OffsetOf(nodes, Boundary(TextNode(k), j))] == nodes[k][j]
  {
    ConcatPrefix(nodes, k + 1);
    assert nodes[..k + 1][..k] == nodes[..k];
    assert SumLengths(nodes[..k + 1]) == SumLengths(nodes[..k]) + |nodes[k]|;
    assert Concat(nodes[..k + 1]) == Concat(nodes[..k]) + nodes[k];
  }

  // ---------------------------------------------------------------------------
  // Serialising a selection

  const ContextUnits := 30

  /** `s.slice(a, b)` for non-negative a and b: both are clipped to the length, and a
      start past the end gives the empty text. */
  function Slice(s: JsText, a: nat, b: nat): (r: JsText)
    ensures a <= b <= |s| ==> r == s[a..b]
    ensures |r| <= |s|
  {
    var a' := if a < |s| then a else |s|;
    var b' := if b < |s| then b else |s|;
    if a' <= b' then s[a'..b'] else []
  }

  /** The serialised selection: the position selector's `start` and `end`, the quote
      selector's `exact`, `prefix` and `suffix`, the source path, and the quote. */
  datatype Serialized = Serialized(
    source: JsText,
    start: nat,
    end: nat,
    exact: JsText,
    prefix: JsText,
    suffix: JsText,
    quote: JsText)

  /** `serializeSelection`: nothing without a range, with an end outside the article, or
      for a collapsed range; otherwise the serialisation of the two offsets. */
  function SerializeSelection(nodes: seq<JsText>, range: Option<Range>, pathname: JsText): (r: Option<Serialized>)
    ensures r.None? <==> (range.None? || range.value.start.container.Outside?
      || range.value.end.container.Outside? || range.value.start == range.value.end)
    ensures r.Some? ==> r.value.start <= r.value.end && r.value.quote == r.value.exact && r.value.source == pathname
  {
    if range.None? then None
    else
      var rg := range.value;
      if rg.start.container.Outside? || rg.end.container.Outside? then None
      else if rg.start == rg.end then None
      else Some(SerializeOffsets(Concat(nodes), OffsetOf(nodes, rg.start), OffsetOf(nodes, rg.end), pathname))
  }

  /** Positions ordered by min and max, the text between them, and up to 30 units of
      context on each side. */
  function SerializeOffsets(full: JsText, s: nat, e: nat, pathname: JsText): (r: Serialized)
    ensures r.start <= r.end && r.quote == r.exact && r.source == pathname
  {
    var startPos := if s < e then s else e;
    var endPos := if s < e then e else s;
    var exact := Slice(full, startPos, endPos);
    var prefix := Slice(full, if startPos < ContextUnits then 0 else startPos - ContextUnits, startPos);
    var suffix := Slice(full, endPos, if |full| < endPos + ContextUnits then |full| else endPos + ContextUnits);
    Serialized(pathname, startPos, endPos, exact, prefix, suffix, exact)
  }

  /** Within the text, the quote is the text between the positions, and prefix, quote and
      suffix are one stretch of it: at most 30 units before and after, fewer only at the
      ends of the text. */
  lemma SerializedIsContiguous(full: JsText, s: nat, e: nat, pathname: JsText)
    requires s <= |full| && e <= |full|
    ensures var r := SerializeOffsets(full, s, e, pathname);
      && r.exact == full[r.start..r.end]
      && |r.prefix| == (if r.start < ContextUnits then r.start else ContextUnits)
      && |r.suffix| == (if |full| - r.end < ContextUnits then |full| - r.end else ContextUnits)
      && full[r.start - |r.prefix|..r.end + |r.suffix|] == r.prefix + r.exact + r.suffix
  {
    var r := SerializeOffsets(full, s, e, pathname);
    ContextAroundSlice(full, r.start, r.end);
  }

  lemma ContextAroundSlice(full: JsText, a: nat, b: nat)
    requires a <= b <= |full|
    ensures var prefix := Slice(full, if a < ContextUnits then 0 else a - ContextUnits, a);
      var exact := Slice(full, a, b);
      var suffix := Slice(full, b, if |full| < b + ContextUnits then |full| else b + ContextUnits);
      && exact == full[a..b]
      && |prefix| == (if a < ContextUnits then a else ContextUnits)
      && |suffix| == (if |full| - b < ContextUnits then |full| - b else ContextUnits)
      && full[a - |prefix|..b + |suffix|] == prefix + exact + suffix
  {
    var lo := if a < ContextUnits then 0 else a - ContextUnits;
    var hi := if |full| < b + ContextUnits then |full| else b + ContextUnits;
    assert full[lo..hi] == full[lo..a] + full[a..b] + full[b..hi];
  }

  /** Two boundaries in one text node give the positions of the shorter offset first. */
  lemma SameNodeSelection(nodes: seq<JsText>, k: nat, j1: nat, j2: nat, pathname: JsText)
    requires k < |nodes| && j1 != j2
    ensures var r := SerializeSelection(nodes, Some(Range(Boundary(TextNode(k), j1), Boundary(TextNode(k), j2))), pathname).value;
      var base := SumLengths(nodes[..k]);
      r.start == base + (if j1 < j2 then j1 else j2) && r.end == base + (if j1 < j2 then j2 else j1)
  {
  }

  // ---------------------------------------------------------------------------
  // Opening the composer

  /** The units `String.prototype.trim` removes (all in the Basic Multilingual Plane). */
  predicate IsSpaceUnit(u: Unit) {
    u == 0x09 || u == 0x0A || u == 0x0B || u == 0x0C || u == 0x0D || u == 0x20
    || u == 0xA0 || u == 0x1680 || (0x2000 <= u <= 0x200A) || u == 0x2028 || u == 0x2029
    || u == 0x202F || u == 0x205F || u == 0x3000 || u == 0xFEFF
  }

  function TrimStartUnits(s: JsText): (r: JsText)
    ensures |r| <= |s| && r == s[|s| - |r|..]
    ensures r == [] || !IsSpaceUnit(r[0])
    ensures forall i :: 0 <= i < |s| - |r| ==> IsSpaceUnit(s[i])
  {
    if s != [] && IsSpaceUnit(s[0]) then TrimStartUnits(s[1..]) else s
  }

  function TrimEndUnits(s: JsText): (r: JsText)
    ensures |r| <= |s| && r == s[..|r|]
    ensures forall i :: |r| <= i < |s| ==> IsSpaceUnit(s[i])
  {
    if s != [] && IsSpaceUnit(s[|s| - 1]) then TrimEndUnits(s[..|s| - 1]) else s
  }

  /** `String.prototype.trim`. */
  function TrimUnits(s: JsText): JsText {
    TrimEndUnits(TrimStartUnits(s))
  }

  /** `openForSelection` goes on only for a serialised selection whose quote is
      non-empty and not all white space. */
  predicate OpensComposer(data: Option<Serialized>) {
    data.Some? && data.value.quote != [] && |TrimUnits(data.value.quote)| >= 1
  }

  /** The composer opens exactly when the quote holds a unit that is not white space. */
  lemma OpensIffVisibleQuote(data: Option<Serialized>)
    ensures OpensComposer(data) <==>
      data.Some? && exists i :: 0 <= i < |data.value.quote| && !IsSpaceUnit(data.value.quote[i])
  {
    if data.Some? {
      var q := data.value.quote;
      var t := TrimStartUnits(q);
      if exists i :: 0 <= i < |q| && !IsSpaceUnit(q[i]) {
        var i :| 0 <= i < |q| && !IsSpaceUnit(q[i]);
        assert i >= |q| - |t|;
        assert t != [] && !IsSpaceUnit(t[0]);
        assert |TrimEndUnits(t)| >= 1;
      } else if q != [] {
        assert t == [];
        assert TrimUnits(q) == [];
      }
    }
  }

  // ---------------------------------------------------------------------------
  // UTF-16 lengths against code points

  /** Characters outside the Basic Multilingual Plane take two code units. */
  function Utf16Length(c: char): nat {
    if c as int < 0x1_0000 then 1 else 2
  }

  /** The UTF-16 encoding of text made of Unicode scalar values. */
  function Utf16(s: string): (u: JsText)
    ensures |u| == Units(s)
  {
    if s == [] then []
    else
      var c := s[|s| - 1] as int;
      Utf16(s[..|s| - 1])
      + (if c < 0x1_0000 then [c as Unit]
         else [(0xD800 + (c - 0x1_0000) / 0x400) as Unit, (0xDC00 + (c - 0x1_0000) % 0x400) as Unit])
  }

  /** The number of code units the text takes. */
  function Units(s: string): nat {
    if s == [] then 0 else Units(s[..|s| - 1]) + Utf16Length(s[|s| - 1])
  }

  /** A UTF-16 offset counts code points exactly when no character before it lies outside
      the Basic Multilingual Plane; each such character adds one. */
  lemma {:induction false} UnitsCountCodePoints(s: string)
    ensures Units(s) >= |s|
    ensures Units(s) == |s| <==> forall i :: 0 <= i < |s| ==> s[i] as int < 0x1_0000
  {
    if s != [] {
      var init := s[..|s| - 1];
      UnitsCountCodePoints(init);
      assert forall i :: 0 <= i < |init| ==> init[i] == s[i];
    }
  }
}
