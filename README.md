# Validating admission webhook, modelled in Dafny

This project models the request handler of a Kubernetes validating admission
webhook. The handler serves `/validate` (any method; the API server sends POST). It receives an `AdmissionReview`
for a Pod and checks that the Pod carries a `hello` label. It replies with an
`AdmissionReview` that allows or denies the Pod, may carry a warning, and is
correlated to the request by UID and GroupVersionKind.

Modules, one per concern of `cmd/root.go`:

- `Wrappers`: `Option` and `Result` for Go's `(value, ok)` and `(value, err)` returns.
- `Meta`: the API-machinery conversions the handler calls at `cmd/root.go:138`.
  These are the parsing of an `apiVersion` into group and version, `GroupVersionKind()` and
  `SetGroupVersionKind`. They follow the code of k8s.io/apimachinery's `schema.ParseGroupVersion`, `GroupVersion.String`,
  `GroupVersionKind.ToAPIVersionAndKind` and `schema.FromAPIVersionAndKind`; that library is a
  dependency of the webhook, not part of its repository.
- `Admission`: the `AdmissionReview` envelope, request, response, `Status`, and a Pod reduced to its labels.
- `Policy`: the `hello`-label rule (`Evaluate`).
- `Http`: the request as the handler sees it (the `Content-Type` header value and a body that may be
  missing or fail to read), the observable `Reply`, and a `ResponseWriter` class. The class has Go's
  semantics: an implicit 200 on the first `Write`, a second `WriteHeader` ignored, headers sent
  as they stood when the status was committed, and body writes refused after a 1xx, 204 or 304.
- `Webhook`: `AdmissionReviewFromRequest`; the specification functions `Review` (where the chain of
  guards ends), `Respond` (the status-code mapping) and `Serve` (the reply a client observes); the
  imperative handler `ValidatePod`, proved to leave the writer in the state `Serve` describes; and
  the lemmas stating the decision table.

The decoders and `json.Marshal` are opaque steps. They are the function-typed fields of a `Codec`
value, each yielding a value or an error text. "Not decoded" is stated as independence: the reply
is the same whatever the decoders that were not reached would have returned.

The handler reads `Request` without a nil check. `EnvelopeHasRequest` is therefore a precondition:
an envelope that decodes must carry a request.

Kubernetes expects the reply's `apiVersion` and `kind` to equal the request's, but the code
copies the GroupVersionKind by parsing the request's `apiVersion` and printing it again. So the GroupVersionKind is always the
same (`Meta.GroupVersionKindPreserved`), but the `apiVersion` text is the same only when it is
canonical, that is a bare version or `group/version` with a non-empty group
(`Meta.TypeMetaPreservedIff`). `admission.k8s.io/v1`, which the API server sends, is canonical
(`Webhook.AdmissionV1Preserved`). The model follows the code.

## Model

| member | source | states |
|---|---|---|
| `Meta.ParseGroupVersion` | cmd/root.go:138 | parsing succeeds exactly when the apiVersion has at most one `/`; the parsed group and version never contain `/`; otherwise the error names the string |
| `Meta.FromAPIVersionAndKind` | cmd/root.go:138 | `GroupVersionKind()` keeps the kind, and its group and version hold no `/` |
| `Meta.ToAPIVersionAndKind` | cmd/root.go:138 | what `SetGroupVersionKind` writes: the kind unchanged, both fields empty for the empty GroupVersionKind, and an apiVersion with at most one `/` when group and version hold none; the definition `RoundTrip` and `TypeMetaPreservedIff` prove things about |
| `Meta.RoundTrip` | cmd/root.go:138 | writing a GroupVersionKind with `SetGroupVersionKind` and reading it back gives it unchanged, provided group and version hold no `/` |
| `Meta.GroupVersionKindPreserved` | cmd/root.go:138 | `SetGroupVersionKind(GroupVersionKind())` preserves the GroupVersionKind of every TypeMeta |
| `Meta.CanonicalGroupVersion` | cmd/root.go:138 | `group/version` with a non-empty group and no other `/` is a canonical apiVersion |
| `Meta.TypeMetaPreservedIff` | cmd/root.go:138 | the copied apiVersion and kind equal the original's if and only if the apiVersion is canonical |
| `Policy.Evaluate` | cmd/root.go:123-133 | no `hello` label: denied, message "missing required hello label", no warnings; `hello=world`: allowed, no result, the one deprecation warning; any other value, `""` included: allowed, no result, no warnings; a result is set iff the Pod is denied; the UID is still empty |
| `Policy.OnlyHelloMatters` | cmd/root.go:126 | the verdict depends on the `hello` label alone |
| `Http.ResponseWriter.SetHeader` | cmd/root.go:150 | sets one header entry and changes nothing else |
| `Http.ResponseWriter.WriteHeader` | cmd/root.go:92 | the first call commits the status and the headers set so far; later calls change nothing |
| `Http.ResponseWriter.Write` | cmd/root.go:151 | commits status 200 and the current headers when no status was written yet, then appends to the body unless the data is non-empty and the committed status forbids a body (1xx, 204, 304), reporting whether it did |
| `Webhook.ReadBody` | cmd/root.go:62-71 | a nil body reads as no bytes; a readable body yields its bytes; a read failure yields its error |
| `Webhook.AdmissionReviewFromRequest` | cmd/root.go:56-80 | a Content-Type other than exactly `application/json` fails with "expected application/json content-type" before the body is read; a read failure yields the read error; otherwise the result is the envelope decoder's |
| `Webhook.ResponseEnvelope` | cmd/root.go:135-139 | the reply carries the policy's response with the request's UID and no request; its GroupVersionKind equals the request's; its TypeMeta equals the request's iff the apiVersion is canonical |
| `Webhook.Review` | cmd/root.go:88-139 | the guard chain in order: a review that cannot be obtained, a resource other than core/v1 pods, a Pod that does not decode, else the reviewed envelope with the request's UID and result iff denied; the definition the `*Refused`, `ResourceGuard` and `PodReviewed` rows prove things about |
| `Webhook.Respond` | cmd/root.go:89-151 | the status and message mapping: 400 iff the review could not be obtained or is not for a Pod, 500 iff the Pod or the reply could not be (de)serialized, a failed marshal replies "error marshalling response json: " and the error, otherwise 200 with the JSON Content-Type and the marshalled bytes; the definition `StatusCodes`, `MarshalRefused` and `DenialIsSuccess` prove things about |
| `Webhook.Serve` | cmd/root.go:82-152 | the reply a client observes: status 200, 400 or 500, always one that allows a body; the JSON Content-Type on 200, no headers otherwise; the definition every decision-table lemma is stated over |
| `Webhook.ValidatePod` | cmd/root.go:82-152 | after the handler runs on an unused writer, the status, the headers sent and the body are those `Serve` gives |
| `Webhook.ContentTypeRefused` | cmd/root.go:58-60 | a wrong Content-Type gets 400 with "error getting admission review from request: expected application/json content-type", whatever any codec would do |
| `Webhook.EnvelopeRefused` | cmd/root.go:88-95 | an unreadable or undecodable body gets 400 with the prefixed error text, which the body mentions; the Pod decoder and the marshaller are not reached |
| `Webhook.NotPodRefused` | cmd/root.go:100-107 | a resource other than core/v1 pods gets 400 with "did not receive pod, got " and the resource name, which the body mentions; the embedded object is never decoded |
| `Webhook.ResourceGuard` | cmd/root.go:100-101 | the request is refused as not a Pod iff group, version or resource differs from `""`, `v1`, `pods` |
| `Webhook.PodRefused` | cmd/root.go:110-118 | an embedded object that does not decode as a Pod gets 500, not 400, with "error decoding raw pod: " and the error; the marshaller is not reached |
| `Webhook.MarshalRefused` | cmd/root.go:141-148 | a reviewed reply that cannot be marshalled gets 500 with "error marshalling response json: " and the error, which the body mentions |
| `Webhook.PodReviewed` | cmd/root.go:120-139 | a decoded Pod is reviewed: the reply holds `Evaluate` of its labels with the request's UID; result set iff denied; GroupVersionKind equal to the request's |
| `Webhook.StatusCodes` | cmd/root.go:88-151 | the status is 400 iff the review could not be obtained or is not for a Pod; 500 iff the Pod or the reply could not be (de)serialized; 200 iff a decision was marshalled |
| `Webhook.DenialIsSuccess` | cmd/root.go:141-151 | every marshalled decision, a denial included, is sent with status 200, Content-Type `application/json` and the marshalled review as body |
| `Webhook.AdmissionV1Preserved` | cmd/root.go:138 | for `admission.k8s.io/v1` the reply's apiVersion and kind equal the request's exactly |

## Left out

- TLS key-pair loading, the HTTP server, its listen address and `ListenAndServeTLS` (`runWebhookServer`): transport and I/O.
- The cobra command, `Execute`, the flag registration in `init` and the exit when the TLS flags are missing: process plumbing.
- Logging through `logger`: side effects only.
- The internals of the universal deserializer and of `json.Marshal`: library code, modelled as opaque steps that succeed or fail.
- Reading the body is a step that yields bytes or an error; partial reads are not modelled.
- The request header is reduced to the value `Header.Get("Content-Type")` returns; header-name canonicalization is not modelled, for request headers or for the response headers `SetHeader` stores (the handler's `Content-Type` is already canonical).
- Http.ResponseWriter.WriteHeader: codes below 200 (Go's informational and protocol-switching replies) are excluded by its precondition; the handler only writes 400 and 500.
- Http.ResponseWriter.Write: Go's Content-Type sniffing for replies that set no Content-Type (the plain-text error replies) is not modelled, so those replies carry no headers in the model; nor are the `Date` and `Content-Length` headers the server adds to every reply, nor the discarding of the body in the reply to a HEAD request (the request's method is not modelled).
- Bytes and Go strings are both modelled as Dafny strings; UTF-8 encoding is not modelled.
- The fields of `AdmissionRequest`, `AdmissionResponse` and `Pod` that the handler neither reads nor writes (operation, user info, patches, audit annotations, the Pod's spec) are not modelled.
- Webhook.ValidatePod: builds the response as values; the pointer sharing between `admissionResponse` and `admissionReviewResponse.Response` is not modelled, because the handler does not read `admissionResponse` after the UID is set through the envelope.
- Concurrent requests: the handler keeps no shared mutable request state.
