# bucket: public-read policy toggle, modelled in Dafny

The `bucket` service is a small web form. An operator submits storage
credentials, a bucket name and an optional `policy` field to the `/change`
route. The route then clears the bucket's policy or sets a fixed
public-read policy on it. It flashes one message and redirects to `/`.

This project models that route's decision core:

- `policy_template.dfy` (module `PolicyTemplate`): the serialised policy
  template, written as a string constant, one JSON member per piece. Its
  single `!` placeholder is in the Resource value `arn:aws:s3:::!/*`.
  `ReplaceAll` models the one-pass `str.replace`, and `PolicyDocument` is
  the per-request document. The proofs show that the document is the
  template's text before the placeholder, then the bucket name unchanged,
  then the text after it. A `!` inside the bucket name is kept, not
  replaced again.
- `form.dfy` (module `Form`): the submitted form as a map from field name
  to text. It holds the check of `access_key`, `secret_key` and `bucket`
  in that order, where the first missing field decides the error. It also
  holds the `policy` sentinel: an absent field or the text `None` means
  clear, and any other text (the empty text too) means set.
- `change.dfy` (module `Change`): the storage service as an oracle, a
  function from the call made to `Ok` or `ClientError(code)`. `Handle`
  states what one request does: the storage calls it makes and the one
  message it flashes. The class `App` holds the state the route changes:
  the flashed messages and the log of storage calls. Its method `Change`
  follows the route branch by branch and is proved to append exactly what
  `Handle` says and to return `Redirect("/")`.

The route has no bucket-existence check, no bucket creation and no login
gate, so the model has none either. An empty `policy` text takes the set
path like any other text except `None` (bucket/__init__.py:40-41).

## Model

| member | source | states |
|---|---|---|
| `PolicyTemplate.Template` | bucket/__init__.py:7-16 | the `json.dumps` output of the policy dict: default separators, keys in the order written, one `!` in the Resource value |
| `PolicyTemplate.ReplaceAll` | bucket/__init__.py:51 | single-character `str.replace`: one left-to-right pass, replacement text not scanned again; characterised by the ReplaceAll* lemmas below |
| `PolicyTemplate.TemplateSplit` | bucket/__init__.py:7-16 | the template is the fixed JSON head, the Resource ARN with `!` for the bucket, and the fixed JSON tail; equivalently the text before `!`, then `!`, then the text after |
| `PolicyTemplate.PlaceholderOnlyInResource` | bucket/__init__.py:7-16 | no `!` occurs in the template outside the Resource value |
| `PolicyTemplate.TemplateShape` | bucket/__init__.py:7-16 | the template holds exactly one `!`, with placeholder-free text on either side |
| `PolicyTemplate.ReplaceAllAppend` | bucket/__init__.py:51 | replacement distributes over concatenation: the single pass never matches across a join |
| `PolicyTemplate.ReplaceAllWithoutPattern` | bucket/__init__.py:51 | a text without the pattern character comes back unchanged |
| `PolicyTemplate.ReplaceAllLength` | bucket/__init__.py:51 | the result's length is the input's length plus (replacement length - 1) per occurrence |
| `PolicyTemplate.ReplaceAllRemovesPattern` | bucket/__init__.py:51 | when the replacement lacks the pattern, no occurrence is left: every one is replaced |
| `PolicyTemplate.ReplaceAllBySelf` | bucket/__init__.py:51 | replacing the pattern by itself returns the input, so the pass drops and adds nothing |
| `PolicyTemplate.ReplaceSingle` | bucket/__init__.py:51 | in a text with exactly one pattern character, replacement splices the replacement text in at that spot and nowhere else |
| `PolicyTemplate.PolicyDocument` | bucket/__init__.py:49-51 | the document is the text before `!`, the bucket verbatim, and the text after; equivalently the fixed JSON head, the Resource ARN for the bucket, and the fixed JSON tail; its length is template length - 1 + bucket length |
| `PolicyTemplate.PolicyDocumentResource` | bucket/__init__.py:13 | the text of the document at the fixed offset right after the `"Resource": "` key is exactly `arn:aws:s3:::` + bucket + `/*` |
| `PolicyTemplate.PolicyDocumentKeepsBucketPlaceholders` | bucket/__init__.py:51 | the document holds exactly as many `!` as the bucket name: the bucket's own `!` are not substituted again |
| `PolicyTemplate.PolicyDocumentInjective` | bucket/__init__.py:51 | equal documents come only from equal bucket names: each document is keyed to one bucket |
| `Form.SelectChange` | bucket/__init__.py:40-41 | clear exactly when `policy` is absent or equals `None`; set exactly when it is present with any other text |
| `Form.Validate` | bucket/__init__.py:26-34 | missing access key gives that error whatever else is present; secret key is checked only once the access key is present; bucket is checked only once both are present; a valid result carries the submitted values and the selected change |
| `Form.PresenceNotContent` | bucket/__init__.py:26-34 | only the presence of a required field matters: replacing its text (by the empty text, say) leaves the check's verdict unchanged |
| `Form.AccessKeyCheckedFirst` | bucket/__init__.py:26-28 | any two forms without an access key fail alike, on the access key |
| `Form.AbsentPolicyIsSentinel` | bucket/__init__.py:40 | adding `policy = "None"` to a form without it leaves the validated request unchanged |
| `Change.Handle` | bucket/__init__.py:26-55 | each missing-field case gives its fixed message and no storage call; a complete form gives exactly one call, on the submitted bucket with the submitted credentials, the delete call exactly on the clear path, and the put call carrying that bucket's document; the message is the path's success text on `Ok` and the error code verbatim on `ClientError` |
| `Change.AbsentPolicyActsAsSentinel` | bucket/__init__.py:40-47 | a request without `policy` does exactly what the same request with `policy = "None"` does, calls and message alike |
| `Change.OtherPolicyTextSets` | bucket/__init__.py:40-52 | with a complete form, any `policy` text but `None` (`""` and `"on"` among them) makes the single put call with the bucket's document |
| `Change.DocumentDependsOnBucketOnly` | bucket/__init__.py:49-51 | two set-path requests send the same document exactly when they name the same bucket, regardless of credentials, endpoint, other fields or service answers |
| `Change.App.Flash` | bucket/__init__.py:27 | flashing appends exactly the one message to the flashed list |
| `Change.App.Call` | bucket/__init__.py:43-52 | a storage call is logged once and returns the service's answer to it |
| `Change.App.Change` | bucket/__init__.py:24-56 | the route appends exactly one message and exactly the calls `Handle` names (none for an incomplete form, one otherwise), and always returns a redirect to `/` |

## Left out

- Flask app setup, the secret key, the template-engine options, URL-map settings and the `index()` route (bucket/__init__.py:18-22, 58-60): framework plumbing and page rendering.
- Building the boto3 client (bucket/__init__.py:35-39): the modelled call records the credentials and endpoint it would be built from. The route reads the endpoint from the environment on every request (bucket/__init__.py:38). The model fixes it as a constant of `App`, so a change to the environment between requests is not modelled. A missing `S3_ENDPOINT` variable raises `KeyError`, which is environment behaviour and is not modelled.
- The network behaviour of `delete_bucket_policy` and `put_bucket_policy`: the service is an oracle that gives a result for each call. Of a `ClientError`, only `response['Error']['Code']` is modelled.
- Exceptions other than `ClientError` from the storage calls: they propagate out of the route, and what happens next is up to the framework.
- `json.dumps` itself (bucket/__init__.py:7): the template is its output, written as a literal constant. The bucket name is spliced in without JSON escaping, just as the code does it. The model does not state what a name containing `"` or `\` does to the JSON structure.
- `ReplaceAll` handles a one-character pattern, the only pattern the code uses (`'!'`). Python's `str.replace` with longer or empty patterns is not modelled.
- The form is a map from name to text. A multi-valued form, where `request.form[key]` gives the first of several values, is not modelled.
- Flash message categories and the session storage of flashed messages: the model keeps one list of messages in order.
