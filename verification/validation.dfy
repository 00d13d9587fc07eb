/** Request bodies of the annotation write endpoints and the three ways the code base
    validates them: the shared library validator (src/lib/annotations/validation.ts), the
    older Express validator (src/server/validators.ts) and the checks written inline in the
    Workers handlers (functions/api/annotations/create.ts and reply.ts). */
module Validation {
  import opened Text
  import opened Kinds

  /** One entry of `target.selector`, after the TextQuoteSelector and TextPositionSelector
      of the W3C Web Annotation Data Model (sections 4.2.4 and 4.2.5). Any other entry,
      including one that is not an object, is `OtherSelector` with its `type`, if any. */
  datatype Selector =
    | TextQuote(exact: string, prefix: Option<string>, suffix: Option<string>)
    | TextPosition(start: int, end: int, unit: string)
    | OtherSelector(typeTag: Option<string>)

  function TypeTag(s: Selector): Option<string> {
    match s
    case TextQuote(_, _, _) => Some("TextQuoteSelector")
    case TextPosition(_, _, _) => Some("TextPositionSelector")
    case OtherSelector(t) => t
  }

  /** The `selectors` envelope. `selector` is None when `target` or `target.selector` is
      missing or is not an array. */
  datatype Envelope = Envelope(typeTag: string, source: string, selector: Option<seq<Selector>>)

  /** The fields of a create or reply body. A string field is None when it is absent or
      null; `kind` is None when it is not a string. */
  datatype Body = Body(
    postSlug: Option<string>,
    displayName: Option<string>,
    bodyHtml: Option<string>,
    selectors: Option<Envelope>,
    quote: Option<string>,
    turnstileToken: Option<string>,
    idempotencyKey: Option<string>,
    parentId: Option<int>,
    kind: Option<string>)

  /** A parsed JSON request body: `null`, a value that is neither null nor an object, or an
      object (an array is an object none of whose fields is set). */
  datatype JsonValue = Null | Primitive | Object(body: Body)

  /** The closed set of error codes of the API (src/lib/types.ts:44-55). */
  datatype ErrorCode =
    | InvalidInput | TooLong | TooManyLinks | MissingSelector | Unauthorized | BadOrigin
    | BotSuspected | RateLimited | NotFound | Conflict | InternalError

  function CodeName(c: ErrorCode): string {
    match c
    case InvalidInput => "invalid_input"
    case TooLong => "too_long"
    case TooManyLinks => "too_many_links"
    case MissingSelector => "missing_selector"
    case Unauthorized => "unauthorized"
    case BadOrigin => "bad_origin"
    case BotSuspected => "bot_suspected"
    case RateLimited => "rate_limited"
    case NotFound => "not_found"
    case Conflict => "conflict"
    case InternalError => "internal_error"
  }

  datatype Failure = Failure(status: nat, code: ErrorCode, message: Option<string>)

  datatype Validated = Accepted(body: Body) | Invalid(error: Failure)

  /** JavaScript truthiness of an optional string: present and non-empty. */
  predicate Truthy(s: Option<string>) {
    s.Some? && s.value != []
  }

  /** Truthiness of an optional number: present and not 0. */
  predicate TruthyId(n: Option<int>) {
    n.Some? && n.value != 0
  }

  const DisplayNameMax: nat := 32

  predicate NameTooLong(b: Body) {
    Truthy(b.displayName) && |b.displayName.value| > DisplayNameMax
  }

  /** Both selector types are present in `selectors.target.selector`. */
  predicate HasRequiredSelectors(b: Body) {
    b.selectors.Some? && b.selectors.value.selector.Some?
    && (exists i :: 0 <= i < |b.selectors.value.selector.value|
          && TypeTag(b.selectors.value.selector.value[i]) == Some("TextQuoteSelector"))
    && (exists i :: 0 <= i < |b.selectors.value.selector.value|
          && TypeTag(b.selectors.value.selector.value[i]) == Some("TextPositionSelector"))
  }

  /** One of the six required fields is falsy. */
  predicate MissingBasicFields(b: Body) {
    !Truthy(b.postSlug) || !Truthy(b.bodyHtml) || b.selectors.None? || !Truthy(b.quote)
    || !Truthy(b.turnstileToken) || !Truthy(b.idempotencyKey)
  }

  function Bad(code: ErrorCode, message: Option<string>): Failure {
    Failure(400, code, message)
  }

  /** The body with `kind` replaced by its normalised name. */
  function Normalized(b: Body): (r: Body)
    ensures r.kind == Some(KindName(NormalizeKind(b.kind)))
  {
    b.(kind := Some(KindName(NormalizeKind(b.kind))))
  }

  /** `validateAnnotationBody` of the shared library. The checks run in a fixed order and
      the first failing one decides: a non-object, then a missing field, then the selector
      types, then the display name, then (for a reply) the parent id. */
  function ValidateBody(input: JsonValue, isReply: bool): (r: Validated)
    ensures r.Invalid? ==> r.error.status == 400
    ensures r.Invalid? ==> r.error.code == InvalidInput || r.error.code == TooLong
    ensures (!input.Object? || MissingBasicFields(input.body)) ==> r == Invalid(Bad(InvalidInput, None))
    ensures input.Object? && !MissingBasicFields(input.body) && !HasRequiredSelectors(input.body)
      ==> r == Invalid(Bad(InvalidInput, Some("missing selectors")))
    ensures (r.Invalid? && r.error.code == TooLong) <==> (input.Object? && !MissingBasicFields(input.body)
      && HasRequiredSelectors(input.body) && NameTooLong(input.body))
    ensures r.Invalid? && r.error.code == TooLong ==> r.error.message.None?
    ensures isReply && input.Object? && !MissingBasicFields(input.body) && HasRequiredSelectors(input.body)
      && !NameTooLong(input.body) && !TruthyId(input.body.parentId)
      ==> r == Invalid(Bad(InvalidInput, Some("missing parent_id")))
    ensures r.Accepted? <==> (input.Object? && !MissingBasicFields(input.body)
      && HasRequiredSelectors(input.body) && !NameTooLong(input.body)
      && (!isReply || TruthyId(input.body.parentId)))
    ensures r.Accepted? ==> r.body == Normalized(input.body)
  {
    if !input.Object? then Invalid(Bad(InvalidInput, None))
    else
      var b := input.body;
      if MissingBasicFields(b) then Invalid(Bad(InvalidInput, None))
      else if !HasRequiredSelectors(b) then Invalid(Bad(InvalidInput, Some("missing selectors")))
      else if NameTooLong(b) then Invalid(Bad(TooLong, None))
      else if isReply && !TruthyId(b.parentId) then Invalid(Bad(InvalidInput, Some("missing parent_id")))
      else Accepted(Normalized(b))
  }

  /** The first failing check decides: selectors are checked before the display name. */
  lemma SelectorsBeforeName(b: Body, isReply: bool)
    requires !MissingBasicFields(b) && !HasRequiredSelectors(b)
    ensures ValidateBody(Object(b), isReply) == Invalid(Bad(InvalidInput, Some("missing selectors")))
  {
  }

  /** A reply with every other check passing fails exactly when its parent id is falsy. */
  lemma ReplyNeedsParent(b: Body)
    requires !MissingBasicFields(b) && HasRequiredSelectors(b) && !NameTooLong(b)
    ensures !TruthyId(b.parentId) ==> ValidateBody(Object(b), true) == Invalid(Bad(InvalidInput, Some("missing parent_id")))
    ensures TruthyId(b.parentId) ==> ValidateBody(Object(b), true).Accepted?
  {
  }

  /** Validation is idempotent: a validated body validates again to itself. */
  lemma ValidatedBodyRevalidates(input: JsonValue, isReply: bool)
    requires ValidateBody(input, isReply).Accepted?
    ensures var b := ValidateBody(input, isReply).body;
      ValidateBody(Object(b), isReply) == Accepted(b)
  {
    var b := ValidateBody(input, isReply).body;
    assert b == Normalized(input.body);
    NormalizeKindIdempotent(input.body.kind);
    assert Normalized(b) == b;
  }

  // ---------------------------------------------------------------------------
  // The Express validator

  /** `validateAnnotationBody` of the Express server: None stands for `null`, success. */
  function ValidateServer(input: JsonValue, isReply: bool): (r: Option<Failure>)
    ensures r.Some? ==> r.value.status == 400
    ensures r.None? <==> (input.Object? && !MissingBasicFields(input.body)
      && !NameTooLong(input.body) && (!isReply || TruthyId(input.body.parentId)))
    ensures (!input.Object? || MissingBasicFields(input.body)) ==> r == Some(Bad(InvalidInput, None))
    ensures (r.Some? && r.value.code == TooLong) <==> (input.Object? && !MissingBasicFields(input.body)
      && NameTooLong(input.body))
    ensures r.Some? && r.value.code == TooLong ==> r.value.message.None?
    ensures isReply && input.Object? && !MissingBasicFields(input.body) && !NameTooLong(input.body)
      && !TruthyId(input.body.parentId)
      ==> r == Some(Bad(InvalidInput, Some("missing parent_id")))
    ensures r.Some? ==> r.value.code == InvalidInput || r.value.code == TooLong
  {
    if !input.Object? || MissingBasicFields(input.body) then Some(Bad(InvalidInput, None))
    else if NameTooLong(input.body) then Some(Bad(TooLong, None))
    else if isReply && !TruthyId(input.body.parentId) then Some(Bad(InvalidInput, Some("missing parent_id")))
    else None
  }

  /** The Express validator never looks inside the selectors: it accepts exactly what the
      library accepts, and also bodies whose selector list lacks a required type. */
  lemma ServerAcceptsMore(input: JsonValue, isReply: bool)
    ensures ValidateBody(input, isReply).Accepted? ==> ValidateServer(input, isReply).None?
    ensures ValidateServer(input, isReply).None? && HasRequiredSelectors(input.body)
      ==> ValidateBody(input, isReply).Accepted?
  {
  }

  lemma ServerIgnoresSelectorList(b: Body, e: Envelope, isReply: bool)
    requires b.selectors.Some?
    ensures ValidateServer(Object(b), isReply) == ValidateServer(Object(b.(selectors := Some(e))), isReply)
  {
  }

  // ---------------------------------------------------------------------------
  // The checks written inline in the Workers handlers

  /** Create (functions/api/annotations/create.ts:20-33): fields, then the display name,
      then the selectors; None when all pass. */
  function CreateChecks(b: Body): (r: Option<Failure>)
    ensures r.Some? ==> r.value.status == 400
    ensures r.None? <==> !MissingBasicFields(b) && !NameTooLong(b) && HasRequiredSelectors(b)
    ensures MissingBasicFields(b) ==> r == Some(Bad(InvalidInput, Some("missing fields")))
    ensures (r.Some? && r.value.code == TooLong) <==> !MissingBasicFields(b) && NameTooLong(b)
    ensures (r.Some? && r.value.code == MissingSelector) <==>
      !MissingBasicFields(b) && !NameTooLong(b) && !HasRequiredSelectors(b)
    ensures r.Some? ==> r.value.code in {InvalidInput, TooLong, MissingSelector}
  {
    if MissingBasicFields(b) then Some(Bad(InvalidInput, Some("missing fields")))
    else if NameTooLong(b) then Some(Bad(TooLong, Some("display name too long")))
    else if !HasRequiredSelectors(b) then Some(Bad(MissingSelector, None))
    else None
  }

  /** For a create the library and the inline checks accept the same bodies. */
  lemma CreateChecksMatchLibrary(b: Body)
    ensures CreateChecks(b).None? <==> ValidateBody(Object(b), false).Accepted?
  {
  }

  /** The two orders differ: a long name with no selectors is `too_long` inline but
      `invalid_input` in the library. */
  lemma CreateNameBeforeSelectors(b: Body)
    requires !MissingBasicFields(b) && NameTooLong(b) && !HasRequiredSelectors(b)
    ensures CreateChecks(b) == Some(Bad(TooLong, Some("display name too long")))
    ensures ValidateBody(Object(b), false).error.code == InvalidInput
  {
  }

  /** Reply (functions/api/annotations/reply.ts:12-13): only the parent id, slug, token and
      key are required, then the display name is checked. */
  function ReplyChecks(b: Body): (r: Option<Failure>)
    ensures r.Some? ==> r.value.status == 400 && r.value.message.None?
    ensures r.None? <==> (TruthyId(b.parentId) && Truthy(b.postSlug) && Truthy(b.turnstileToken)
      && Truthy(b.idempotencyKey) && !NameTooLong(b))
    ensures (r.Some? && r.value.code == InvalidInput) <==>
      (!TruthyId(b.parentId) || !Truthy(b.postSlug) || !Truthy(b.turnstileToken) || !Truthy(b.idempotencyKey))
    ensures (r.Some? && r.value.code == TooLong) <==> (TruthyId(b.parentId) && Truthy(b.postSlug)
      && Truthy(b.turnstileToken) && Truthy(b.idempotencyKey) && NameTooLong(b))
  {
    if !TruthyId(b.parentId) || !Truthy(b.postSlug) || !Truthy(b.turnstileToken) || !Truthy(b.idempotencyKey)
    then Some(Bad(InvalidInput, None))
    else if NameTooLong(b) then Some(Bad(TooLong, None))
    else None
  }

  /** On a complete body with both selector types, all four checks give the same answer
      about the display name: `too_long` exactly when it is longer than 32 characters. */
  lemma NameCodeAgrees(b: Body, isReply: bool)
    requires !MissingBasicFields(b) && HasRequiredSelectors(b) && TruthyId(b.parentId)
    ensures NameTooLong(b) <==> ValidateBody(Object(b), isReply) == Invalid(Bad(TooLong, None))
    ensures NameTooLong(b) <==> ValidateServer(Object(b), isReply) == Some(Bad(TooLong, None))
    ensures NameTooLong(b) <==> CreateChecks(b) == Some(Bad(TooLong, Some("display name too long")))
    ensures NameTooLong(b) <==> ReplyChecks(b) == Some(Bad(TooLong, None))
  {
  }

  /** The reply checks never look at the body, the selectors or the quote. */
  lemma ReplyIgnoresContent(b: Body, html: Option<string>, sel: Option<Envelope>, quote: Option<string>)
    ensures ReplyChecks(b) == ReplyChecks(b.(bodyHtml := html, selectors := sel, quote := quote))
  {
  }
}
