/** What the handler promises, stated over all inputs: the rejection cases
    and their order, the success shape, the patch contents, and that
    nothing but the resource and the uid of the request matters. */
module InjectorProperties {
  import opened Wrappers
  import opened Admission
  import opened Injector

  // ---------------------------------------------------------------------
  // Rejections

  lemma MissingRequestRejected(review: InboundReview, encode: JsonPatch -> Option<Bytes>)
    requires review.request.None?
    ensures Validate(review) == Failure(MissingRequest)
    ensures Mutate(review, encode) == BadRequest
    ensures ToHttp(Mutate(review, encode)) == Reply(400, None)
  {
  }

  lemma MissingResourceRejected(review: InboundReview, encode: JsonPatch -> Option<Bytes>)
    requires review.request.Some? && review.request.value.resource.None?
    ensures Validate(review) == Failure(MissingResource)
    ensures ToHttp(Mutate(review, encode)) == Reply(400, None)
  {
  }

  /** A resource that differs from core/v1/pods in any part is rejected; a
      null group is not the empty group. */
  lemma UnsupportedResourceRejected(review: InboundReview, encode: JsonPatch -> Option<Bytes>, g: GroupVersionResource)
    requires review.request.Some? && review.request.value.resource == Some(g)
    requires g.group != Some("") || g.version != Some("v1") || g.resource != Some("pods")
    ensures Validate(review) == Failure(UnsupportedResource)
    ensures ToHttp(Mutate(review, encode)) == Reply(400, None)
  {
  }

  lemma MissingUidRejected(review: InboundReview, encode: JsonPatch -> Option<Bytes>)
    requires review.request.Some? && review.request.value.resource == Some(PodResource)
    requires review.request.value.uid.None?
    ensures Validate(review) == Failure(MissingUid)
    ensures ToHttp(Mutate(review, encode)) == Reply(400, None)
  {
  }

  /** The uid is looked at only once both resource checks have passed. */
  lemma UidCheckedAfterResource(review: InboundReview)
    requires review.request.Some? && review.request.value.resource != Some(PodResource)
    ensures Validate(review).Failure?
    ensures Validate(review).error in {MissingResource, UnsupportedResource}
  {
  }

  // ---------------------------------------------------------------------
  // First failure decides: an independent statement of the chain's order

  /** The position of each check in the chain. */
  function Rank(p: Problem): nat
  {
    match p
    case MissingRequest => 0
    case MissingResource => 1
    case UnsupportedResource => 2
    case MissingUid => 3
  }

  /** Whether the check behind p fails on its own terms (the uid check does
      not depend on the resource). */
  predicate Violates(review: InboundReview, p: Problem)
  {
    match p
    case MissingRequest => review.request.None?
    case MissingResource => review.request.Some? && review.request.value.resource.None?
    case UnsupportedResource =>
      review.request.Some? && review.request.value.resource.Some?
      && review.request.value.resource.value != PodResource
    case MissingUid => review.request.Some? && review.request.value.uid.None?
  }

  /** Validation rejects with p exactly when p's check fails and no earlier
      check does. */
  lemma {:induction false} RejectsAtFirstViolation(review: InboundReview, p: Problem)
    ensures Validate(review) == Failure(p) <==>
      Violates(review, p) && forall q :: Rank(q) < Rank(p) ==> !Violates(review, q)
  {
    if Violates(review, p) && forall q :: Rank(q) < Rank(p) ==> !Violates(review, q) {
      if Rank(p) > 0 { assert !Violates(review, MissingRequest); }
      if Rank(p) > 1 { assert !Violates(review, MissingResource); }
      if Rank(p) > 2 { assert !Violates(review, UnsupportedResource); }
    }
    if Validate(review) == Failure(p) {
      forall q | Rank(q) < Rank(p) ensures !Violates(review, q) {
        match q
        case MissingRequest =>
        case MissingResource =>
        case UnsupportedResource =>
        case MissingUid =>
      }
    }
  }

  /** Validation accepts exactly when no check fails. */
  lemma {:induction false} AcceptsIffNoViolation(review: InboundReview)
    ensures Validate(review).Success? <==> forall p :: !Violates(review, p)
  {
    if !Validate(review).Success? {
      var p := Validate(review).error;
      RejectsAtFirstViolation(review, p);
    }
  }

  // ---------------------------------------------------------------------
  // Success

  /** With a working serialiser, every admissible review is allowed, with
      the request's uid echoed as it is, the empty string included. */
  lemma AdmittedShape(review: InboundReview, encode: JsonPatch -> Option<Bytes>)
    requires review.request.Some? && review.request.value.resource == Some(PodResource)
    requires review.request.value.uid.Some?
    requires encode(PatchDocument()).Some?
    ensures Mutate(review, encode).Ok?
    ensures Mutate(review, encode).review.response
      == AdmissionResponse(review.request.value.uid.value, true, "JSONPatch", encode(PatchDocument()).value)
    ensures Mutate(review, encode).review.apiVersion == "admission.k8s.io/v1"
    ensures Mutate(review, encode).review.kind == "AdmissionReview"
    ensures ToHttp(Mutate(review, encode)).status == 200
  {
  }

  lemma EmptyUidEchoed(review: InboundReview, encode: JsonPatch -> Option<Bytes>)
    requires review.request.Some? && review.request.value.resource == Some(PodResource)
    requires review.request.value.uid == Some("")
    requires encode(PatchDocument()).Some?
    ensures Mutate(review, encode).Ok? && Mutate(review, encode).review.response.uid == ""
  {
  }

  /** Reading the patch bytes back with a parser that inverts the serialiser
      gives the one-operation document appending the sidecar. */
  lemma PatchReadsBack(
    review: InboundReview,
    encode: JsonPatch -> Option<Bytes>,
    decode: Bytes -> Option<JsonPatch>)
    requires forall p: JsonPatch :: encode(p).Some? ==> decode(encode(p).value) == Some(p)
    requires Mutate(review, encode).Ok?
    ensures decode(Mutate(review, encode).review.response.patch) == Some(PatchDocument())
    ensures var patch := decode(Mutate(review, encode).review.response.patch).value;
      |patch| == 1 && patch[0] == PatchOp("add", "/spec/containers/-",
        Container("sidecar-nginx", "nginx:1.21-alpine", "IfNotPresent"))
  {
  }

  // ---------------------------------------------------------------------
  // Independence from everything else

  /** The two fields the handler reads, or None when there is no request. */
  function Consumed(review: InboundReview): Option<(Option<GroupVersionResource>, Option<string>)>
  {
    if review.request.None? then None
    else Some((review.request.value.resource, review.request.value.uid))
  }

  /** Reviews that agree on the request's resource and uid get the same
      outcome, whatever their apiVersion, kind or submitted object. */
  lemma DependsOnlyOnResourceAndUid(a: InboundReview, b: InboundReview, encode: JsonPatch -> Option<Bytes>)
    requires Consumed(a) == Consumed(b)
    ensures Mutate(a, encode) == Mutate(b, encode)
  {
  }

  /** Every allowed response carries the same patch bytes. */
  lemma PatchIsConstant(a: InboundReview, b: InboundReview, encode: JsonPatch -> Option<Bytes>)
    requires Mutate(a, encode).Ok? && Mutate(b, encode).Ok?
    ensures Mutate(a, encode).review.response.patch == Mutate(b, encode).review.response.patch
  {
  }

  // ---------------------------------------------------------------------
  // Serialisation failure

  /** A serialiser failure after successful validation is an internal fault:
      neither a 400 nor any reply that could carry an allowed review. */
  lemma SerializationFailureIsInternalFault(review: InboundReview, encode: JsonPatch -> Option<Bytes>)
    requires Validate(review).Success?
    requires encode(PatchDocument()).None?
    ensures CreatePatch(encode) == Failure(SerializationFailed)
    ensures Mutate(review, encode) == InternalFault
    ensures ToHttp(Mutate(review, encode)) == ServerError
  {
  }

  /** A rejected request is never answered with the serialiser's verdict:
      the patch is only built once validation has passed. */
  lemma RejectionIgnoresSerializer(review: InboundReview, e1: JsonPatch -> Option<Bytes>, e2: JsonPatch -> Option<Bytes>)
    requires Validate(review).Failure?
    ensures Mutate(review, e1) == Mutate(review, e2) == BadRequest
  {
  }

  /** A reply with a body, hence an allowed one, comes only from an
      admissible review and a serialiser that succeeded. */
  lemma AllowedOnlyWhenAdmissible(review: InboundReview, encode: JsonPatch -> Option<Bytes>)
    ensures var h := ToHttp(Mutate(review, encode));
      h.Reply? && h.body.Some? ==>
        Admissible(review) && encode(PatchDocument()).Some? && h.body.value.response.allowed
  {
  }

  // ---------------------------------------------------------------------
  // Concrete scenarios

  function Review(uid: Option<string>, resource: Option<GroupVersionResource>): InboundReview
  {
    InboundReview(Some("admission.k8s.io/v1"), Some("AdmissionReview"),
      Some(AdmissionRequest(uid, None, resource, None, None, None, None)))
  }

  lemma ScenarioPodAllowed(encode: JsonPatch -> Option<Bytes>)
    requires encode(PatchDocument()).Some?
    ensures Mutate(Review(Some("abc"), Some(PodResource)), encode)
      == Ok(AdmissionReview("admission.k8s.io/v1", "AdmissionReview",
           AdmissionResponse("abc", true, "JSONPatch", encode(PatchDocument()).value)))
  {
  }

  /** The review the controller test posts: a Pod request with the given
      uid, kind core/v1 Pod, and a Pod manifest with one redis container. */
  function TestReview(uid: string): InboundReview
  {
    var container := JObject([
      ("name", JString("redis")),
      ("image", JString("redis:latest")),
      ("imagePullPolicy", JString("IfNotPresent"))]);
    var pod := JObject([
      ("apiVersion", JString("v1")),
      ("kind", JString("Pod")),
      ("metadata", JObject([("name", JString("nginx")), ("namespace", JString("default"))])),
      ("spec", JObject([("containers", JArray([container])), ("restartPolicy", JString("Always"))]))]);
    InboundReview(Some("admission.k8s.io/v1"), Some("AdmissionReview"),
      Some(AdmissionRequest(Some(uid),
        Some(GroupVersionKind(Some(""), Some("v1"), Some("Pod"))),
        Some(GroupVersionResource(Some(""), Some("v1"), Some("pods"))),
        None, None, None, Some(pod))))
  }

  /** Whatever the uid, the test's review gets a 200 whose review has the
      fixed envelope, echoes the uid, is allowed with a JSONPatch, and whose
      patch reads back as the one sidecar "add" operation. */
  lemma TestMutate(uid: string, encode: JsonPatch -> Option<Bytes>, decode: Bytes -> Option<JsonPatch>)
    requires forall p: JsonPatch :: encode(p).Some? ==> decode(encode(p).value) == Some(p)
    requires encode(PatchDocument()).Some?
    ensures var h := ToHttp(Mutate(TestReview(uid), encode));
      && h.Reply? && h.status == 200 && h.body.Some?
      && h.body.value.apiVersion == "admission.k8s.io/v1"
      && h.body.value.kind == "AdmissionReview"
      && h.body.value.response.uid == uid
      && h.body.value.response.allowed
      && h.body.value.response.patchType == "JSONPatch"
      && decode(h.body.value.response.patch) == Some([PatchOp("add", "/spec/containers/-",
           Container("sidecar-nginx", "nginx:1.21-alpine", "IfNotPresent"))])
  {
  }

  lemma ScenarioDeploymentRejected(encode: JsonPatch -> Option<Bytes>)
    ensures Mutate(Review(Some("abc"), Some(GroupVersionResource(Some("apps"), Some("v1"), Some("deployments")))), encode)
      == BadRequest
  {
  }

  lemma ScenarioEmptyReviewRejected(encode: JsonPatch -> Option<Bytes>)
    ensures Mutate(InboundReview(None, None, None), encode) == BadRequest
  {
  }

  lemma ScenarioNoUidRejected(encode: JsonPatch -> Option<Bytes>)
    ensures Validate(Review(None, Some(PodResource))) == Failure(MissingUid)
    ensures Mutate(Review(None, Some(PodResource)), encode) == BadRequest
  {
  }

  lemma ScenarioNullGroupRejected(encode: JsonPatch -> Option<Bytes>)
    ensures Validate(Review(Some("abc"), Some(GroupVersionResource(None, Some("v1"), Some("pods")))))
      == Failure(UnsupportedResource)
  {
  }
}
