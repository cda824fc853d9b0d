# Sidecar injector admission handler, modelled in Dafny

This project models the request path of a Kubernetes mutating admission
webhook that injects an nginx sidecar into every Pod. The webhook speaks
the `admission.k8s.io/v1` AdmissionReview protocol. It takes the review
the API server posts. It checks, in a fixed order, that the review has a
`request`, that the request names a `resource`, that the resource is
core/v1/pods, and that the request has a `uid`. The first failed check
ends the call with HTTP 400 and no body. A review that passes every check
gets an allowed response. That response echoes the uid and carries a
one-operation JSON Patch (RFC 6902, section 4.1, "add") that appends the
container `sidecar-nginx` (`nginx:1.21-alpine`, pull policy
`IfNotPresent`) to `/spec/containers/-`. If the patch cannot be
serialised, the result is an internal fault, not a 400.

Files:

- `wrappers.dfy`: `Option` for nullable Java references, `Result` for calls that can throw.
- `admission.dfy`: the review, request, resource-triple, container and patch types, the controller's constants, and `GroupVersionResource.equals`.
- `injector.dfy`: the guard chain (`Validate`), `createPatch` (`PatchDocument`, `CreatePatch`), `mutate` (`Mutate`) and the HTTP mapping (`ToHttp`).
- `injector_properties.dfy`: lemmas over all inputs for the rejection cases, the order of the checks, the success shape, the patch contents, independence from every other input field, and serialisation failure. It also holds the concrete scenarios.

How the model is set up:

- `mutate` is a total, synchronous function from an inbound review to an
  `Outcome`: `Ok(review)`, `BadRequest` or `InternalFault`. `ToHttp` maps
  the first two to 200 with the review as body and 400 with no body. For
  an internal fault the handler produces no reply (`ServerError`); what
  the caller sees is up to the framework.
- The serialiser (`ObjectMapper.writeValueAsBytes`) is a function
  parameter `encode: JsonPatch -> Option<Bytes>`. A `None` stands for the
  `JsonProcessingException` that `createPatch` turns into an
  `InternalError`.
- The patch document itself is a structured value:
  `[PatchOp("add", "/spec/containers/-", SidecarContainer)]`. The
  response's `patch` field holds whatever bytes `encode` made of it.
  `PatchReadsBack` shows that any parser inverting the serialiser reads
  those bytes back as the one-operation document.
- Each validation failure has its own `Problem` value, mirroring the
  distinct exception messages that are logged. All of them map to the
  same `BadRequest`.
- `Mutate` and `PatchDocument` do not read the inbound `apiVersion`,
  `kind`, object body or other request fields. The model keeps those
  fields so that it can state this independence.

The handler checks the uid only against null (`InjectorController.java:81`);
a present empty uid passes and is echoed (`EmptyUidEchoed`).

## Model

| member | source | states |
|---|---|---|
| `Admission.SameResource` | src/main/java/com/example/sidecarinjector/InjectorController.java:27-32 | the resource comparison holds exactly when the two triples are equal part by part, so a null part differs from the empty string |
| `Injector.Validate` | src/main/java/com/example/sidecarinjector/InjectorController.java:57-86 | validation succeeds exactly when the request is present, its resource is core/v1/pods and its uid is present; it then yields that uid; a missing request is reported as such |
| `Injector.PatchDocument` | src/main/java/com/example/sidecarinjector/InjectorController.java:113-125 | the patch has exactly one operation: op "add", path "/spec/containers/-", value the container sidecar-nginx / nginx:1.21-alpine / IfNotPresent |
| `Injector.CreatePatch` | src/main/java/com/example/sidecarinjector/InjectorController.java:127-131 | succeeds exactly when the serialiser accepts the patch document and then returns its bytes; otherwise fails with a serialisation fault |
| `Injector.Mutate` | src/main/java/com/example/sidecarinjector/InjectorController.java:56-98 | bad request exactly when the review is not admissible; internal fault exactly when it is admissible and serialisation fails; otherwise an allowed review with fixed apiVersion and kind, the request's uid, patch type JSONPatch and the serialised patch |
| `Injector.ToHttp` | src/main/java/com/example/sidecarinjector/InjectorController.java:100-104 | status 200 exactly for a success and 400 exactly for a bad request; only a 200 has a body, and it is the review; an internal fault becomes no handler reply at all |
| `InjectorProperties.MissingRequestRejected` | src/main/java/com/example/sidecarinjector/InjectorController.java:57-63 | no request: problem MissingRequest, outcome BadRequest, 400 with no body |
| `InjectorProperties.MissingResourceRejected` | src/main/java/com/example/sidecarinjector/InjectorController.java:65-71 | request without resource: problem MissingResource, 400 with no body |
| `InjectorProperties.UnsupportedResourceRejected` | src/main/java/com/example/sidecarinjector/InjectorController.java:72-77 | a resource differing from core/v1/pods in group, version or resource (a null group included): problem UnsupportedResource, 400 with no body |
| `InjectorProperties.MissingUidRejected` | src/main/java/com/example/sidecarinjector/InjectorController.java:80-86 | a Pod request without uid: problem MissingUid, 400 with no body |
| `InjectorProperties.UidCheckedAfterResource` | src/main/java/com/example/sidecarinjector/InjectorController.java:65-86 | when the resource is missing or wrong, the rejection names the resource, never the uid, whatever the uid is |
| `InjectorProperties.RejectsAtFirstViolation` | src/main/java/com/example/sidecarinjector/InjectorController.java:57-86 | validation rejects with a given problem exactly when that check fails and every earlier check in the chain passes |
| `InjectorProperties.AcceptsIffNoViolation` | src/main/java/com/example/sidecarinjector/InjectorController.java:57-86 | validation accepts exactly when none of the four checks fails |
| `InjectorProperties.AdmittedShape` | src/main/java/com/example/sidecarinjector/InjectorController.java:88-96 | with a working serialiser, an admissible review gets status 200 and a review with apiVersion admission.k8s.io/v1, kind AdmissionReview, and response (request uid, allowed true, JSONPatch, the serialised patch) |
| `InjectorProperties.EmptyUidEchoed` | src/main/java/com/example/sidecarinjector/InjectorController.java:80-88 | a present empty uid passes the null check and is echoed as the empty string |
| `InjectorProperties.PatchReadsBack` | src/test/java/com/example/sidecarinjector/InjectorControllerTests.java:112-141 | given a parser inverting the serialiser, the response's patch bytes parse to the one "add" operation on /spec/containers/- with the sidecar container as value |
| `InjectorProperties.DependsOnlyOnResourceAndUid` | src/main/java/com/example/sidecarinjector/InjectorController.java:56-98 | two reviews that agree on whether a request is present and on its resource and uid get equal outcomes, whatever their other fields |
| `InjectorProperties.PatchIsConstant` | src/main/java/com/example/sidecarinjector/InjectorController.java:113-125 | every allowed response, for any input, carries the same patch bytes |
| `InjectorProperties.SerializationFailureIsInternalFault` | src/main/java/com/example/sidecarinjector/InjectorController.java:127-131 | after successful validation, a serialiser failure is an internal fault: not a 400 and no reply that could carry an allowed review |
| `InjectorProperties.RejectionIgnoresSerializer` | src/main/java/com/example/sidecarinjector/InjectorController.java:79-91 | a rejected review is a bad request whatever the serialiser does, because the patch is built only after every check |
| `InjectorProperties.AllowedOnlyWhenAdmissible` | src/main/java/com/example/sidecarinjector/InjectorController.java:98-104 | a reply with a body, which is always allowed, comes only from an admissible review and a serialiser that succeeded |
| `InjectorProperties.ScenarioPodAllowed` | src/main/java/com/example/sidecarinjector/InjectorController.java:88-96 | uid "abc" with core/v1/pods gives exactly the allowed review echoing "abc" |
| `InjectorProperties.TestMutate` | src/test/java/com/example/sidecarinjector/InjectorControllerTests.java:50-141 | for the test's own review (any uid, kind core/v1 Pod, the redis Pod manifest), the reply is 200 with apiVersion admission.k8s.io/v1, kind AdmissionReview, the uid echoed, allowed, JSONPatch, and a patch parsing to the one sidecar "add" on /spec/containers/- |
| `InjectorProperties.ScenarioDeploymentRejected` | src/main/java/com/example/sidecarinjector/InjectorController.java:72-77 | apps/v1/deployments is a bad request |
| `InjectorProperties.ScenarioEmptyReviewRejected` | src/main/java/com/example/sidecarinjector/InjectorController.java:57-63 | a review with no fields at all is a bad request |
| `InjectorProperties.ScenarioNoUidRejected` | src/main/java/com/example/sidecarinjector/InjectorController.java:80-86 | a Pod request without uid fails with MissingUid and is a bad request |
| `InjectorProperties.ScenarioNullGroupRejected` | src/main/java/com/example/sidecarinjector/InjectorController.java:72-77 | a null group with v1/pods is an unsupported resource, not the core group |

## Left out

- Reactor plumbing (`Mono`, `handle` and its sink, `map`, `onErrorResume`): modelled as one synchronous function. Nothing in it suspends or shares state.
- Spring HTTP types (`@PostMapping`, `ResponseEntity`): reduced to a status and an optional body. The uncaught `InternalError` is a JVM error; the handler produces no reply for it, and what the caller sees is up to the framework, so it is `ServerError` with no status.
- Jackson: how `writeValueAsBytes` renders the patch (key order, the unset `V1Container` fields, the base64 of the `patch` field on the wire) is not modelled. Serialisation is an opaque function that may fail; being a function, it is deterministic, which the source backs: the `ObjectMapper` is final and never reconfigured, and `createPatch` takes no input (this is what `PatchIsConstant` rests on).
- Outbound fields the handler never sets: the review's `request`, and the response's `status`, `warnings` and `auditAnnotations`. They are always null in its output, so the outbound types leave them out.
- Request body decoding by the HTTP layer: the model starts from a decoded review.
- Logging of each problem (`LOGGER.error`): not modelled beyond the `Problem` value.
- The controller's constructor and its `objectMapper` and `jsonNodeFactory` fields: they are set once and only read, so they become the `encode` parameter.
- `SidecarInjectorApplication.java` (client configuration and server bootstrap): foreign library calls and I/O.
- The test harness (Spring context, the random uid generator, the `StepVerifier` assertions themselves): not modelled. What the test asserts at `InjectorControllerTests.java:80-141` is what `AdmittedShape`, `PatchReadsBack` and `TestMutate` state; `TestMutate` builds the test's input, its sample Pod manifest included.
