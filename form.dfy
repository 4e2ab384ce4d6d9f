/**
 The request form of the `/change` route and the decisions taken on it
 before any storage call (bucket/__init__.py:26-34, 40-41).

 The form is the submitted field map: a key is either present, with the
 text the operator entered (possibly empty), or absent.
 */
module Form {

  /** The submitted form fields, by name. */
  type Form = map<string, string>

  const AccessKeyField: string := "access_key"
  const SecretKeyField: string := "secret_key"
  const BucketField: string := "bucket"
  const PolicyField: string := "policy"

  /** The value the `policy` field is read as when it is absent, and the one
      value that asks for the policy to be cleared. */
  const ClearSentinel: string := "None"

  /** The three fields the handler demands, in the order it checks them. */
  datatype Required = AccessKey | SecretKey | Bucket

  /** What the operator asked to be done to the bucket's policy. */
  datatype PolicyChange = Clear | SetPublicRead

  /** A form that carries every required field. */
  datatype Request = Request(accessKey: string, secretKey: string, bucket: string, change: PolicyChange)

  /** The outcome of checking the form: a request, or the first missing field. */
  datatype Validation = Valid(request: Request) | Missing(field: Required)

  /** The form key of each required field. */
  function FieldName(f: Required): string
  {
    match f
    case AccessKey => AccessKeyField
    case SecretKey => SecretKeyField
    case Bucket => BucketField
  }

  /** The message flashed when a required field is missing. */
  function MissingMessage(f: Required): string
  {
    match f
    case AccessKey => "No access key provided."
    case SecretKey => "No secret key provided."
    case Bucket => "No bucket provided."
  }

  /** A field's value, or `default` when the field is absent. */
  function GetOr(form: Form, key: string, default: string): string
  {
    if key in form then form[key] else default
  }

  /** The policy change the form asks for: clearing exactly when the
      `policy` field is absent or holds the sentinel text; any other text,
      the empty one included, asks for the public-read policy. */
  function SelectChange(form: Form): (c: PolicyChange)
    ensures c == Clear <==> (PolicyField !in form || form[PolicyField] == ClearSentinel)
    ensures c == SetPublicRead <==> (PolicyField in form && form[PolicyField] != ClearSentinel)
  {
    if GetOr(form, PolicyField, ClearSentinel) == ClearSentinel then Clear else SetPublicRead
  }

  /** Checks the required fields in order; the first missing one decides the
      outcome and the later ones are not looked at. */
  function Validate(form: Form): (v: Validation)
    ensures v == Missing(AccessKey) <==> AccessKeyField !in form
    ensures v == Missing(SecretKey) <==> AccessKeyField in form && SecretKeyField !in form
    ensures v == Missing(Bucket) <==>
      AccessKeyField in form && SecretKeyField in form && BucketField !in form
    ensures v.Missing? ==> FieldName(v.field) !in form
    ensures v.Valid? <==> (forall f: Required :: FieldName(f) in form)
    ensures v.Valid? ==>
      && v.request.accessKey == form[AccessKeyField]
      && v.request.secretKey == form[SecretKeyField]
      && v.request.bucket == form[BucketField]
      && (v.request.change == Clear <==> (PolicyField !in form || form[PolicyField] == ClearSentinel))
  {
    if AccessKeyField !in form then Missing(AccessKey)
    else if SecretKeyField !in form then Missing(SecretKey)
    else if BucketField !in form then Missing(Bucket)
    else Valid(Request(form[AccessKeyField], form[SecretKeyField], form[BucketField], SelectChange(form)))
  }

  /** Only the presence of a required field matters, not its text: an empty
      value passes the check like any other, and a form that fails still
      fails on the same field. */
  lemma PresenceNotContent(form: Form, f: Required, text: string)
    requires FieldName(f) in form
    ensures Validate(form[FieldName(f) := text]).Valid? == Validate(form).Valid?
    ensures Validate(form[FieldName(f) := text]).Missing? ==>
      Validate(form[FieldName(f) := text]) == Validate(form)
  {
  }

  /** A form without an access key fails on it, whatever else it holds. */
  lemma AccessKeyCheckedFirst(form1: Form, form2: Form)
    requires AccessKeyField !in form1 && AccessKeyField !in form2
    ensures Validate(form1) == Validate(form2) == Missing(AccessKey)
  {
  }

  /** An absent `policy` field is read exactly as the sentinel. */
  lemma AbsentPolicyIsSentinel(form: Form)
    requires PolicyField !in form
    ensures Validate(form[PolicyField := ClearSentinel]) == Validate(form)
  {
  }
}
