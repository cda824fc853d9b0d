/** The admission.k8s.io/v1 AdmissionReview objects the webhook reads and
    writes, and the constants of the controller. Every inbound field the
    handler reads is an Option, since Java may leave it null; the outbound
    types hold only the fields the handler sets. */
module Admission {
  import opened Wrappers

  type Bytes = seq<bv8>

  /** A Kubernetes API resource type, e.g. core/v1/pods (group "" is core). */
  datatype GroupVersionResource = GroupVersionResource(
    group: Option<string>,
    version: Option<string>,
    resource: Option<string>)

  datatype GroupVersionKind = GroupVersionKind(
    group: Option<string>,
    version: Option<string>,
    kind: Option<string>)

  /** A JSON value, standing for the submitted object body that the handler
      carries but never reads. */
  datatype Json =
    | JNull
    | JBool(b: bool)
    | JNumber(n: int)
    | JString(s: string)
    | JArray(items: seq<Json>)
    | JObject(members: seq<(string, Json)>)

  /** The request part of an inbound review. Only uid and resource are read
      by the handler; the other fields stand for everything else the API
      server sends. */
  datatype AdmissionRequest = AdmissionRequest(
    uid: Option<string>,
    kind: Option<GroupVersionKind>,
    resource: Option<GroupVersionResource>,
    name: Option<string>,
    namespace: Option<string>,
    operation: Option<string>,
    submitted: Option<Json>)

  /** The review the API server posts to the webhook. */
  datatype InboundReview = InboundReview(
    apiVersion: Option<string>,
    kind: Option<string>,
    request: Option<AdmissionRequest>)

  /** The fields of a V1Container the controller sets; every other field
      of the container is left unset. */
  datatype Container = Container(name: string, image: string, imagePullPolicy: string)

  /** One JSON Patch operation whose value is a container. */
  datatype PatchOp = PatchOp(op: string, path: string, value: Container)

  /** A JSON Patch document (RFC 6902): an ordered array of operations. */
  type JsonPatch = seq<PatchOp>

  /** The response part of the outbound review; patch is the serialised
      JSON Patch document. */
  datatype AdmissionResponse = AdmissionResponse(
    uid: string,
    allowed: bool,
    patchType: string,
    patch: Bytes)

  /** The review the webhook answers with. */
  datatype AdmissionReview = AdmissionReview(
    apiVersion: string,
    kind: string,
    response: AdmissionResponse)

  /** The only resource type the webhook admits: core/v1/pods. */
  const PodResource := GroupVersionResource(Some(""), Some("v1"), Some("pods"))

  const AdmissionReviewApiVersion := "admission.k8s.io/v1"
  const AdmissionReviewKind := "AdmissionReview"
  const JsonPatchType := "JSONPatch"

  /** The container the webhook injects into every admitted Pod. */
  const SidecarContainer := Container("sidecar-nginx", "nginx:1.21-alpine", "IfNotPresent")

  /** GroupVersionResource.equals: the three parts compared one by one, a
      null part equal only to a null part. */
  function SameResource(a: GroupVersionResource, b: GroupVersionResource): (r: bool)
    ensures r <==> a == b
  {
    a.group == b.group && a.version == b.version && a.resource == b.resource
  }
}
