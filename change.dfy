/**
 The `/change` route (bucket/__init__.py:24-56): check the form, make one
 storage call that clears or sets the bucket policy, flash one message and
 redirect to the index page.

 The storage service is an oracle: a function from the call the handler
 makes to the result the service gives, either success or a ClientError
 carrying the provider's error code. `Handle` states, as a function, what
 one request does; the class `App` holds the state the route changes (the
 flashed messages and the log of storage calls) and its method `Change`
 follows the route step by step and is proved to do what `Handle` says.
 */
module Change {
  import opened Form
  import opened PolicyTemplate

  /** What a storage call returns: success, or a ClientError with the
      provider's error code. */
  datatype StorageResult = Ok | ClientError(code: string)

  /** The client the route builds for one request: the operator's own
      credentials and the configured storage endpoint. */
  datatype Client = Client(accessKey: string, secretKey: string, endpoint: string)

  /** The two storage calls the route can make. */
  datatype StorageCall =
    | DeleteBucketPolicy(client: Client, bucket: string)
    | PutBucketPolicy(client: Client, bucket: string, policy: string)

  /** The storage service, as the result it gives each call. */
  type Storage = StorageCall -> StorageResult

  /** The route always answers with a redirect. */
  datatype Response = Redirect(location: string)

  const IndexPath: string := "/"
  const ClearedMessage: string := "Successfully cleared policy."
  const SetMessage: string := "Successfully set policy."

  /** What one request does: the storage calls it makes, in order, and the
      one message it flashes. */
  datatype Outcome = Outcome(calls: seq<StorageCall>, message: string)

  /** The storage call a valid request leads to. */
  function CallFor(req: Request, endpoint: string): StorageCall
  {
    var client := Client(req.accessKey, req.secretKey, endpoint);
    match req.change
    case Clear => DeleteBucketPolicy(client, req.bucket)
    case SetPublicRead => PutBucketPolicy(client, req.bucket, PolicyDocument(req.bucket))
  }

  /** The message flashed after the storage call. */
  function ResultMessage(change: PolicyChange, result: StorageResult): string
  {
    match result
    case Ok => if change == Clear then ClearedMessage else SetMessage
    case ClientError(code) => code
  }

  /** A form carrying all three required fields. */
  predicate Complete(form: Form)
  {
    AccessKeyField in form && SecretKeyField in form && BucketField in form
  }

  /** What one request to the route does, given the form, the configured
      endpoint and the storage service. */
  function Handle(form: Form, endpoint: string, storage: Storage): (o: Outcome)
    // A form lacking a required field: the first one missing decides the
    // message, and no storage call is made.
    ensures AccessKeyField !in form ==> o == Outcome([], "No access key provided.")
    ensures AccessKeyField in form && SecretKeyField !in form ==>
      o == Outcome([], "No secret key provided.")
    ensures AccessKeyField in form && SecretKeyField in form && BucketField !in form ==>
      o == Outcome([], "No bucket provided.")
    // A complete form: exactly one call, on the submitted bucket, with the
    // submitted credentials.
    ensures o.calls == [] <==> !Complete(form)
    ensures Complete(form) ==>
      && |o.calls| == 1
      && o.calls[0].bucket == form[BucketField]
      && o.calls[0].client == Client(form[AccessKeyField], form[SecretKeyField], endpoint)
    // Clearing exactly when the policy field is absent or is the sentinel;
    // setting sends the document for that bucket.
    ensures Complete(form) ==>
      (o.calls[0].DeleteBucketPolicy? <==> PolicyField !in form || form[PolicyField] == ClearSentinel)
    ensures Complete(form) && o.calls[0].PutBucketPolicy? ==>
      o.calls[0].policy == DocHead + ResourceArn(form[BucketField]) + DocTail
    // The message: the success text of the path taken, or the provider's
    // error code as it is.
    ensures Complete(form) && storage(o.calls[0]) == Ok ==>
      o.message == (if o.calls[0].DeleteBucketPolicy? then ClearedMessage else SetMessage)
    ensures Complete(form) && storage(o.calls[0]).ClientError? ==>
      o.message == storage(o.calls[0]).code
  {
    match Validate(form)
    case Missing(field) => Outcome([], MissingMessage(field))
    case Valid(req) =>
      var call := CallFor(req, endpoint);
      Outcome([call], ResultMessage(req.change, storage(call)))
  }

  /** A request without the `policy` field does exactly what one with the
      sentinel text does. */
  lemma AbsentPolicyActsAsSentinel(form: Form, endpoint: string, storage: Storage)
    requires PolicyField !in form
    ensures Handle(form, endpoint, storage) == Handle(form[PolicyField := ClearSentinel], endpoint, storage)
  {
    AbsentPolicyIsSentinel(form);
  }

  /** Any policy text other than the sentinel, the empty text and "on"
      among them, sets the public-read policy for the submitted bucket. */
  lemma OtherPolicyTextSets(form: Form, endpoint: string, storage: Storage, text: string)
    requires Complete(form) && text != ClearSentinel
    ensures var bucket := form[BucketField];
      Handle(form[PolicyField := text], endpoint, storage).calls ==
      [PutBucketPolicy(Client(form[AccessKeyField], form[SecretKeyField], endpoint), bucket, PolicyDocument(bucket))]
  {
  }

  /** The document sent depends on the bucket name alone: neither the
      credentials, the endpoint, the rest of the form nor the service can
      change it, and two requests send the same document exactly when they
      name the same bucket. */
  lemma DocumentDependsOnBucketOnly(form1: Form, endpoint1: string, storage1: Storage,
                                    form2: Form, endpoint2: string, storage2: Storage)
    requires Complete(form1) && Complete(form2)
    requires Handle(form1, endpoint1, storage1).calls[0].PutBucketPolicy?
    requires Handle(form2, endpoint2, storage2).calls[0].PutBucketPolicy?
    ensures Handle(form1, endpoint1, storage1).calls[0].policy == Handle(form2, endpoint2, storage2).calls[0].policy
      <==> form1[BucketField] == form2[BucketField]
  {
    var call1, call2 := Handle(form1, endpoint1, storage1).calls[0], Handle(form2, endpoint2, storage2).calls[0];
    if call1.policy == call2.policy {
      PolicyDocumentInjective(form1[BucketField], form2[BucketField]);
    }
  }

  /** The state the route changes: the messages flashed to the operator
      and the storage calls made. */
  class App {
    /** The storage endpoint. The route reads it from the environment on
        every request; the model fixes it for the life of the `App`. */
    const endpoint: string
    /** The messages flashed so far, oldest first. */
    var flashed: seq<string>
    /** The storage calls made so far, oldest first. */
    var storageCalls: seq<StorageCall>

    constructor (endpoint: string)
      ensures this.endpoint == endpoint
      ensures flashed == [] && storageCalls == []
    {
      this.endpoint := endpoint;
      flashed := [];
      storageCalls := [];
    }

    /** Queues one message for the next page. */
    method Flash(message: string)
      modifies this`flashed
      ensures flashed == old(flashed) + [message]
    {
      flashed := flashed + [message];
    }

    /** Makes one storage call and hands back the service's result. */
    method Call(storage: Storage, call: StorageCall) returns (result: StorageResult)
      modifies this`storageCalls
      ensures result == storage(call)
      ensures storageCalls == old(storageCalls) + [call]
    {
      storageCalls := storageCalls + [call];
      result := storage(call);
    }

    /** The `/change` route: checks the form, makes at most one storage
        call, flashes exactly one message and redirects to the index. */
    method Change(form: Form, storage: Storage) returns (response: Response)
      modifies this`flashed, this`storageCalls
      ensures response == Redirect(IndexPath)
      ensures flashed == old(flashed) + [Handle(form, endpoint, storage).message]
      ensures storageCalls == old(storageCalls) + Handle(form, endpoint, storage).calls
    {
      if AccessKeyField !in form {
        Flash("No access key provided.");
        return Redirect(IndexPath);
      } else if SecretKeyField !in form {
        Flash("No secret key provided.");
        return Redirect(IndexPath);
      } else if BucketField !in form {
        Flash("No bucket provided.");
        return Redirect(IndexPath);
      }
      var client := Client(form[AccessKeyField], form[SecretKeyField], endpoint);
      var policy := GetOr(form, PolicyField, ClearSentinel);
      if policy == ClearSentinel {
        var result := Call(storage, DeleteBucketPolicy(client, form[BucketField]));
        match result {
          case Ok => Flash(ClearedMessage);
          case ClientError(code) => Flash(code);
        }
      } else {
        var document := ReplaceAll(Template, Placeholder, form[BucketField]);
        var result := Call(storage, PutBucketPolicy(client, form[BucketField], document));
        match result {
          case Ok => Flash(SetMessage);
          case ClientError(code) => Flash(code);
        }
      }
      response := Redirect(IndexPath);
    }
  }

  /** Two requests in one session, as the operator would send them: the
      first lacks the bucket and makes no call, the second sets the policy
      of bucket "demo" on a service that accepts it. */
  method ExampleSession()
  {
    var app := new App("http://storage.example");
    var storage: Storage := call => Ok;
    var missing := map[AccessKeyField := "AK", SecretKeyField := "SK"];
    var r1 := app.Change(missing, storage);
    assert app.flashed == ["No bucket provided."] && app.storageCalls == [];
    var full := missing[BucketField := "demo"][PolicyField := "on"];
    assert Complete(full);
    var r2 := app.Change(full, storage);
    assert r1 == r2 == Redirect("/");
    assert app.flashed == ["No bucket provided.", "Successfully set policy."];
    assert |app.storageCalls| == 1 && app.storageCalls[0].PutBucketPolicy?;
    assert app.storageCalls[0].bucket == "demo";
  }
}
