/** The merchant-creation form rule shared by the client form and the
    merchants API (src/lib/zodForms.ts). */
module MerchantForm {
  import opened Common

  /** An entry of `newDefaultLabels`. */
  datatype NewLabel = NewLabel(name: string, color: string)

  /** `CreateMerchantFormValues`: every field optional. */
  datatype CreateMerchant = CreateMerchant(
    name: Option<string>,
    color: Option<string>,
    pfpLocation: Option<string>,
    underlyingMerchantId: Option<string>,
    defaultLabels: Option<seq<int>>,
    newDefaultLabels: Option<seq<NewLabel>>)

  /** The two custom issues `superRefine` can add. */
  datatype Issue = LookMissing | NameMissing

  const LookMissingMessage: string :=
    "Either color or profile picture must be provided if you're registering an entirely new merchant."
  const NameMissingMessage: string :=
    "Merchant name is required when registering a new merchant."

  function Message(i: Issue): string {
    match i
    case LookMissing => LookMissingMessage
    case NameMissing => NameMissingMessage
  }

  /** The `superRefine` callback: the issues `ctx.addIssue` collects, in
      the order they are added. */
  function RefinementIssues(v: CreateMerchant): (issues: seq<Issue>)
    ensures Truthy(v.underlyingMerchantId) ==> issues == []
    ensures LookMissing in issues <==>
      !Truthy(v.underlyingMerchantId) && !Truthy(v.color) && !Truthy(v.pfpLocation)
    ensures NameMissing in issues <==> !Truthy(v.underlyingMerchantId) && !Truthy(v.name)
    ensures |issues| <= 2
    ensures |issues| == 2 ==> issues == [LookMissing, NameMissing]
  {
    if Truthy(v.underlyingMerchantId) then []
    else
      (if !Truthy(v.color) && !Truthy(v.pfpLocation) then [LookMissing] else []) +
      (if !Truthy(v.name) then [NameMissing] else [])
  }

  /** `createMerchantSchema.parse` on a body that already has the schema's
      field types: it succeeds exactly when the refinement adds no issue. */
  predicate Accepted(v: CreateMerchant) {
    RefinementIssues(v) == []
  }

  /** A merchant built on an existing one is always accepted; an entirely
      new one needs a name and a colour or a picture. */
  lemma AcceptedIff(v: CreateMerchant)
    ensures Accepted(v) <==>
      Truthy(v.underlyingMerchantId) ||
      (Truthy(v.name) && (Truthy(v.color) || Truthy(v.pfpLocation)))
  {
  }

  /** The two checks are independent: a new merchant lacking all three
      fields gets both issues. */
  lemma BothIssues(v: CreateMerchant)
    requires !Truthy(v.underlyingMerchantId) && !Truthy(v.name)
    requires !Truthy(v.color) && !Truthy(v.pfpLocation)
    ensures RefinementIssues(v) == [LookMissing, NameMissing]
  {
  }
}
