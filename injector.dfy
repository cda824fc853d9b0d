/** The mutating admission handler of the sidecar injector: a guard chain
    over the inbound review, then a fixed response whose JSON Patch appends
    the sidecar container to the Pod. */
module Injector {
  import opened Wrappers
  import opened Admission

  /** Why a review was rejected. The handler logs the distinction but
      answers every problem the same way. */
  datatype Problem = MissingRequest | MissingResource | UnsupportedResource | MissingUid

  /** createPatch could not serialise the patch document. */
  datatype Fault = SerializationFailed

  /** What one call of the handler yields. */
  datatype Outcome =
    | Ok(review: AdmissionReview)   // HTTP 200 with the review as body
    | BadRequest                    // HTTP 400, no body
    | InternalFault                 // an error the handler does not catch

  /** What the HTTP binding makes of an outcome. */
  datatype HttpReply =
    | Reply(status: nat, body: Option<AdmissionReview>)
    | ServerError

  /** A request the validation chain lets through: present, for core/v1/pods,
      with a uid (any string, the empty one included). */
  predicate Admissible(review: InboundReview)
  {
    && review.request.Some?
    && review.request.value.resource == Some(PodResource)
    && review.request.value.uid.Some?
  }

  /** The guard chain of the handler, in its order: request, resource,
      resource value, uid. The first failing check decides the problem. */
  function Validate(review: InboundReview): (r: Result<string, Problem>)
    ensures r.Success? <==> Admissible(review)
    ensures r.Success? ==> review.request.value.uid == Some(r.value)
    ensures review.request.None? ==> r == Failure(MissingRequest)
  {
    if review.request.None? then Failure(MissingRequest)
    else
      var request := review.request.value;
      if request.resource.None? then Failure(MissingResource)
      else if !SameResource(PodResource, request.resource.value) then Failure(UnsupportedResource)
      else if request.uid.None? then Failure(MissingUid)
      else Success(request.uid.value)
  }

  /** The patch document createPatch builds: one "add" operation appending
      the sidecar at the end of the Pod's container list. */
  function PatchDocument(): (p: JsonPatch)
    ensures |p| == 1
    ensures p[0].op == "add"
    ensures p[0].path == "/spec/containers/-"
    ensures p[0].value.name == "sidecar-nginx"
    ensures p[0].value.image == "nginx:1.21-alpine"
    ensures p[0].value.imagePullPolicy == "IfNotPresent"
  {
    [PatchOp("add", "/spec/containers/-", SidecarContainer)]
  }

  /** createPatch: the patch document handed to the serialiser `encode`,
      whose None answer stands for a JsonProcessingException. */
  function CreatePatch(encode: JsonPatch -> Option<Bytes>): (r: Result<Bytes, Fault>)
    ensures r.Success? <==> encode(PatchDocument()).Some?
    ensures r.Success? ==> encode(PatchDocument()) == Some(r.value)
    ensures r.Failure? ==> r.error == SerializationFailed
  {
    match encode(PatchDocument())
    case Some(bytes) => Success(bytes)
    case None => Failure(SerializationFailed)
  }

  /** mutate: validate, then answer with an allowed review carrying the
      echoed uid and the serialised patch. Every validation problem is a
      bad request; a serialisation failure is an internal fault. */
  function Mutate(review: InboundReview, encode: JsonPatch -> Option<Bytes>): (o: Outcome)
    ensures o.BadRequest? <==> !Admissible(review)
    ensures o.InternalFault? <==> Admissible(review) && encode(PatchDocument()).None?
    ensures o.Ok? <==> Admissible(review) && encode(PatchDocument()).Some?
    ensures o.Ok? ==>
      && o.review.apiVersion == "admission.k8s.io/v1"
      && o.review.kind == "AdmissionReview"
      && review.request.value.uid == Some(o.review.response.uid)
      && o.review.response.allowed
      && o.review.response.patchType == "JSONPatch"
      && encode(PatchDocument()) == Some(o.review.response.patch)
  {
    match Validate(review)
    case Failure(_) => BadRequest
    case Success(uid) =>
      match CreatePatch(encode)
      case Failure(_) => InternalFault
      case Success(patch) =>
        var response := AdmissionResponse(uid, true, JsonPatchType, patch);
        Ok(AdmissionReview(AdmissionReviewApiVersion, AdmissionReviewKind, response))
  }

  /** The HTTP side: ResponseEntity.ok for a review, badRequest().build()
      for a rejected request; an internal fault is not turned into a reply
      by the handler at all. */
  function ToHttp(o: Outcome): (h: HttpReply)
    ensures h == ServerError <==> o.InternalFault?
    ensures h.Reply? && h.status == 200 <==> o.Ok?
    ensures h.Reply? && h.status == 400 <==> o.BadRequest?
    ensures h.Reply? ==> (h.body.Some? <==> h.status == 200)
    ensures o.Ok? ==> h.body == Some(o.review)
  {
    match o
    case Ok(review) => Reply(200, Some(review))
    case BadRequest => Reply(400, None)
    case InternalFault => ServerError
  }
}
