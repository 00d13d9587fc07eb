/** The closed vocabularies of an annotation: its kind, its moderation state, and the
    moderation thresholds (src/lib/annotations/constants.ts). */
module Kinds {
  import opened Text

  /** The five annotation kinds, in the order of the kind list. */
  datatype Kind = Comment | Question | Citation | Critique | Praise

  function KindName(k: Kind): string {
    match k
    case Comment => "comment"
    case Question => "question"
    case Citation => "citation"
    case Critique => "critique"
    case Praise => "praise"
  }

  const AllKinds: seq<Kind> := [Comment, Question, Citation, Critique, Praise]

  /** The kind used for anything that is not one of the five names. */
  const DefaultKind: Kind := Comment

  /** The kind a string names, if it names one exactly. */
  function KindNamed(s: string): (r: Option<Kind>)
    ensures r.Some? ==> KindName(r.value) == s
    ensures r.None? ==> forall k :: KindName(k) != s
  {
    if s == "comment" then Some(Comment)
    else if s == "question" then Some(Question)
    else if s == "citation" then Some(Citation)
    else if s == "critique" then Some(Critique)
    else if s == "praise" then Some(Praise)
    else None
  }

  /** `normalizeAnnotationKind`: the input when it is one of the five names, the default
      otherwise. `None` stands for any input that is not a string, `undefined` included. */
  function NormalizeKind(input: Option<string>): (k: Kind)
    ensures (input.Some? && exists j :: KindName(j) == input.value) ==> KindName(k) == input.value
    ensures (input.None? || forall j :: KindName(j) != input.value) ==> k == DefaultKind
  {
    if input.None? then DefaultKind
    else match KindNamed(input.value)
      case Some(j) => j
      case None => DefaultKind
  }

  lemma KindNameInjective(j: Kind, k: Kind)
    requires KindName(j) == KindName(k)
    ensures j == k
  {
  }

  /** Every kind is in the kind list, so a normalised kind is always a member of it. */
  lemma NormalizedKindListed(input: Option<string>)
    ensures NormalizeKind(input) in AllKinds
  {
  }

  /** A name of a kind normalises to that kind. */
  lemma NormalizeKindKeeps(k: Kind)
    ensures NormalizeKind(Some(KindName(k))) == k
  {
    KindNameInjective(NormalizeKind(Some(KindName(k))), k);
  }

  /** Normalising the name of a normalised kind changes nothing. */
  lemma NormalizeKindIdempotent(input: Option<string>)
    ensures NormalizeKind(Some(KindName(NormalizeKind(input)))) == NormalizeKind(input)
  {
    NormalizeKindKeeps(NormalizeKind(input));
  }

  /** The moderation state of an annotation row. */
  datatype State = Published | Pending | Rejected

  function StateName(s: State): string {
    match s
    case Published => "published"
    case Pending => "pending"
    case Rejected => "rejected"
  }

  /** The hard cap on the stored body, in characters. */
  const BodyHtmlMaxLength: nat := 8000
  /** A body longer than this is held for review. */
  const ModerationTextLengthThreshold: nat := 2000
  /** A body with more links than this is held for review. */
  const ModerationUrlThreshold: nat := 3
}
