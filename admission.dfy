/** The admission.k8s.io/v1 review envelope and the slice of a Pod the policy reads. */
module Admission {
  import opened Wrappers
  import opened Meta
  import Http

  /** The serialized embedded object (runtime.RawExtension). */
  datatype RawExtension = RawExtension(raw: Http.Bytes)

  /** The fields of an AdmissionRequest the handler reads (`obj` is Go's Object field). */
  datatype AdmissionRequest = AdmissionRequest(uid: string, resource: GroupVersionResource, obj: RawExtension)

  /** metav1.Status, reduced to its message. */
  datatype Status = Status(message: string)

  /** An empty warning list stands for both Go's nil and empty slices, which serialize alike. */
  datatype AdmissionResponse = AdmissionResponse(uid: string, allowed: bool, result: Option<Status>, warnings: seq<string>)

  /** One envelope type serves both directions: a request review carries `request`, a reply carries `response`. */
  datatype AdmissionReview = AdmissionReview(typeMeta: TypeMeta, request: Option<AdmissionRequest>, response: Option<AdmissionResponse>)

  /** A Pod, reduced to its labels; a Pod without labels has the empty map. */
  datatype Pod = Pod(labels: map<string, string>)
}
