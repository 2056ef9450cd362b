/**
 * The /validate handler: reads an AdmissionReview from the HTTP request,
 * checks that it concerns a Pod, applies the label policy and replies with
 * an AdmissionReview correlated to the request.
 */
module Webhook {
  import opened Wrappers
  import opened Meta
  import opened Admission
  import opened Policy
  import opened Http

  const JsonMediaType := "application/json"
  const ContentTypeHeader := "Content-Type"
  const ContentTypeError := "expected application/json content-type"
  const ReviewErrorPrefix := "error getting admission review from request: "
  const NotPodPrefix := "did not receive pod, got "
  const PodErrorPrefix := "error decoding raw pod: "
  const MarshalErrorPrefix := "error marshalling response json: "

  /** The only resource the handler evaluates: core group, version v1, pods. */
  const PodResource := GroupVersionResource("", "v1", "pods")

  /**
   * The library codecs the handler relies on, as opaque steps that either
   * yield a value or an error text: the universal deserializer decoding an
   * AdmissionReview, the same deserializer decoding a Pod, and json.Marshal.
   */
  datatype Codec = Codec(
    decodeReview: Bytes -> Result<AdmissionReview, string>,
    decodePod: Bytes -> Result<Pod, string>,
    marshal: AdmissionReview -> Result<Bytes, string>)

  /** The bytes ioutil.ReadAll yields; a nil body reads as no bytes. */
  function ReadBody(body: Body): (r: Result<Bytes, string>)
    ensures r.Success? <==> !body.Unreadable?
    ensures body.Readable? ==> r == Success(body.data)
    ensures body.NoBody? ==> r == Success([])
    ensures body.Unreadable? ==> r == Failure(body.error)
  {
    match body
    case NoBody => Success([])
    case Readable(data) => Success(data)
    case Unreadable(error) => Failure(error)
  }

  /**
   * admissionReviewFromRequest: the content type must be exactly
   * application/json before the body is read and decoded.
   */
  function AdmissionReviewFromRequest(r: Request, decode: Bytes -> Result<AdmissionReview, string>): (res: Result<AdmissionReview, string>)
    ensures r.contentType != JsonMediaType ==> res == Failure(ContentTypeError)
    ensures r.contentType == JsonMediaType && r.body.Unreadable? ==> res == Failure(r.body.error)
    ensures res.Success? <==> r.contentType == JsonMediaType && ReadBody(r.body).Success? && decode(ReadBody(r.body).value).Success?
    ensures r.contentType == JsonMediaType && ReadBody(r.body).Success? ==> res == decode(ReadBody(r.body).value)
  {
    if r.contentType != JsonMediaType then
      Failure(ContentTypeError)
    else
      match ReadBody(r.body)
      case Failure(err) => Failure(err)
      case Success(data) => decode(data)
  }

  /**
   * The handler reads Request without a nil check, so an envelope that
   * decodes must carry a request.
   */
  predicate EnvelopeHasRequest(r: Request, codec: Codec)
  {
    match AdmissionReviewFromRequest(r, codec.decodeReview)
    case Success(review) => review.request.Some?
    case Failure(_) => true
  }

  /**
   * The reply envelope: the policy's response with the request's UID,
   * typed with the request's GroupVersionKind.
   */
  function ResponseEnvelope(review: AdmissionReview, response: AdmissionResponse): (out: AdmissionReview)
    requires review.request.Some?
    ensures out.request.None? && out.response.Some?
    ensures out.response.value == response.(uid := review.request.value.uid)
    ensures FromAPIVersionAndKind(out.typeMeta) == FromAPIVersionAndKind(review.typeMeta)
    ensures out.typeMeta == review.typeMeta <==> IsCanonicalApiVersion(review.typeMeta.apiVersion)
  {
    GroupVersionKindPreserved(review.typeMeta);
    TypeMetaPreservedIff(review.typeMeta);
    AdmissionReview(
      ToAPIVersionAndKind(FromAPIVersionAndKind(review.typeMeta)),
      None,
      Some(response.(uid := review.request.value.uid)))
  }

  /** Where the handler's chain of guards ends, before the reply is serialized. */
  datatype Outcome =
    | ReviewError(error: string)
    | NotPod(resource: GroupVersionResource)
    | PodError(error: string)
    | Reviewed(review: AdmissionReview)

  /**
   * The handler's guards in order: the review must be obtained, must concern
   * core/v1 pods, and its embedded object must decode as a Pod; a Pod is
   * then reviewed by the label policy.
   */
  function Review(r: Request, codec: Codec): (o: Outcome)
    requires EnvelopeHasRequest(r, codec)
    ensures o.ReviewError? <==> AdmissionReviewFromRequest(r, codec.decodeReview).Failure?
    ensures o.NotPod? ==> o.resource != PodResource
    ensures o.PodError? || o.Reviewed? ==>
      var review := AdmissionReviewFromRequest(r, codec.decodeReview).value;
      review.request.value.resource == PodResource
    ensures o.Reviewed? ==>
      && o.review.request.None? && o.review.response.Some?
      && (o.review.response.value.result.Some? <==> !o.review.response.value.allowed)
      && o.review.response.value.uid == AdmissionReviewFromRequest(r, codec.decodeReview).value.request.value.uid
  {
    match AdmissionReviewFromRequest(r, codec.decodeReview)
    case Failure(err) => ReviewError(err)
    case Success(review) =>
      var request := review.request.value;
      if request.resource != PodResource then
        NotPod(request.resource)
      else
        match codec.decodePod(request.obj.raw)
        case Failure(err) => PodError(err)
        case Success(pod) => Reviewed(ResponseEnvelope(review, Evaluate(pod.labels)))
  }

  /** A plain-text error reply written with an explicit status code. */
  function ErrorReply(status: int, message: string): (reply: Reply)
  {
    Reply(status, map[], message)
  }

  /**
   * The status-code mapping of the handler's outcomes: 400 for a request the
   * handler cannot use, 500 for its own failures, 200 with a JSON body for
   * every decision.
   */
  function Respond(outcome: Outcome, marshal: AdmissionReview -> Result<Bytes, string>): (reply: Reply)
    ensures reply.status == 400 <==> outcome.ReviewError? || outcome.NotPod?
    ensures reply.status == 500 <==> outcome.PodError? || (outcome.Reviewed? && marshal(outcome.review).Failure?)
    ensures reply.status == 200 <==> outcome.Reviewed? && marshal(outcome.review).Success?
    ensures reply.status == 200 ==> reply.header == map[ContentTypeHeader := JsonMediaType] && reply.body == marshal(outcome.review).value
    ensures reply.status != 200 ==> reply.header == map[]
    ensures outcome.Reviewed? && marshal(outcome.review).Failure? ==>
      reply == ErrorReply(500, MarshalErrorPrefix + marshal(outcome.review).error)
  {
    match outcome
    case ReviewError(err) => ErrorReply(400, ReviewErrorPrefix + err)
    case NotPod(resource) => ErrorReply(400, NotPodPrefix + resource.resource)
    case PodError(err) => ErrorReply(500, PodErrorPrefix + err)
    case Reviewed(review) =>
      match marshal(review)
      case Failure(err) => ErrorReply(500, MarshalErrorPrefix + err)
      case Success(json) => Reply(ImplicitStatus, map[ContentTypeHeader := JsonMediaType], json)
  }

  /** What a client observes for a request: the status, the headers the handler set, and the body. */
  function Serve(r: Request, codec: Codec): (reply: Reply)
    requires EnvelopeHasRequest(r, codec)
    ensures reply.status == 200 || reply.status == 400 || reply.status == 500
    ensures BodyAllowedForStatus(reply.status)
    ensures reply.status == 200 ==> reply.header == map[ContentTypeHeader := JsonMediaType]
    ensures reply.status != 200 ==> reply.header == map[]
  {
    Respond(Review(r, codec), codec.marshal)
  }

  /** validatePod, writing its reply to `w` along a chain of early returns. */
  method ValidatePod(w: ResponseWriter, r: Request, codec: Codec)
    requires w.Unused()
    requires EnvelopeHasRequest(r, codec)
    modifies w
    ensures w.Observed() == Serve(r, codec)
  {
    var reviewOrError := AdmissionReviewFromRequest(r, codec.decodeReview);
    if reviewOrError.Failure? {
      var msg := ReviewErrorPrefix + reviewOrError.error;
      w.WriteHeader(400);
      var _ := w.Write(msg);
      return;
    }
    var review := reviewOrError.value;
    var request := review.request.value;

    if request.resource != PodResource {
      var msg := NotPodPrefix + request.resource.resource;
      w.WriteHeader(400);
      var _ := w.Write(msg);
      return;
    }

    var podOrError := codec.decodePod(request.obj.raw);
    if podOrError.Failure? {
      var msg := PodErrorPrefix + podOrError.error;
      w.WriteHeader(500);
      var _ := w.Write(msg);
      return;
    }
    var pod := podOrError.value;

    var admissionResponse := AdmissionResponse("", false, None, []);
    admissionResponse := admissionResponse.(allowed := true);
    if HelloLabel !in pod.labels {
      admissionResponse := admissionResponse.(allowed := false, result := Some(Status(MissingLabelMessage)));
    } else if pod.labels[HelloLabel] == DeprecatedValue {
      admissionResponse := admissionResponse.(warnings := [DeprecationWarning]);
    }

    var reviewResponse := AdmissionReview(TypeMeta("", ""), None, None);
    reviewResponse := reviewResponse.(response := Some(admissionResponse));
    reviewResponse := reviewResponse.(typeMeta := ToAPIVersionAndKind(FromAPIVersionAndKind(review.typeMeta)));
    reviewResponse := reviewResponse.(response := Some(reviewResponse.response.value.(uid := request.uid)));

    var json := codec.marshal(reviewResponse);
    if json.Failure? {
      var msg := MarshalErrorPrefix + json.error;
      w.WriteHeader(500);
      var _ := w.Write(msg);
      return;
    }

    w.SetHeader(ContentTypeHeader, JsonMediaType);
    var _ := w.Write(json.value);
  }

  /** `word` occurs in `text` starting at position `i`. */
  predicate OccursAt(text: string, word: string, i: int)
  {
    0 <= i <= |text| - |word| && text[i..i + |word|] == word
  }

  /** `word` occurs in `text`. */
  predicate Mentions(text: string, word: string)
  {
    exists i | 0 <= i <= |text| :: OccursAt(text, word, i)
  }

  lemma MentionsSuffix(prefix: string, word: string)
    ensures Mentions(prefix + word, word)
  {
    var text := prefix + word;
    assert text[|prefix|..|prefix| + |word|] == word;
    assert OccursAt(text, word, |prefix|);
  }

  /** A wrong content type is refused with 400 whatever the codecs would have done. */
  lemma ContentTypeRefused(r: Request, codec: Codec, other: Codec)
    requires r.contentType != JsonMediaType
    ensures EnvelopeHasRequest(r, codec) && EnvelopeHasRequest(r, other)
    ensures Serve(r, codec) == ErrorReply(400, ReviewErrorPrefix + ContentTypeError)
    ensures Serve(r, codec) == Serve(r, other)
  {
  }

  /** A body that cannot be read or decoded is refused with 400 before the Pod decoder or marshaller run. */
  lemma EnvelopeRefused(r: Request, codec: Codec, decodePod: Bytes -> Result<Pod, string>, marshal: AdmissionReview -> Result<Bytes, string>)
    requires AdmissionReviewFromRequest(r, codec.decodeReview).Failure?
    ensures EnvelopeHasRequest(r, codec)
    ensures Serve(r, codec) == ErrorReply(400, ReviewErrorPrefix + AdmissionReviewFromRequest(r, codec.decodeReview).error)
    ensures Mentions(Serve(r, codec).body, AdmissionReviewFromRequest(r, codec.decodeReview).error)
    ensures Serve(r, codec) == Serve(r, codec.(decodePod := decodePod, marshal := marshal))
  {
    MentionsSuffix(ReviewErrorPrefix, AdmissionReviewFromRequest(r, codec.decodeReview).error);
  }

  /**
   * A review for anything but core/v1 pods is refused with 400 naming the
   * resource, and the embedded object is never decoded.
   */
  lemma NotPodRefused(r: Request, codec: Codec, review: AdmissionReview, decodePod: Bytes -> Result<Pod, string>, marshal: AdmissionReview -> Result<Bytes, string>)
    requires AdmissionReviewFromRequest(r, codec.decodeReview) == Success(review)
    requires review.request.Some? && review.request.value.resource != PodResource
    ensures EnvelopeHasRequest(r, codec)
    ensures Serve(r, codec) == ErrorReply(400, NotPodPrefix + review.request.value.resource.resource)
    ensures Mentions(Serve(r, codec).body, review.request.value.resource.resource)
    ensures Serve(r, codec) == Serve(r, codec.(decodePod := decodePod, marshal := marshal))
  {
    MentionsSuffix(NotPodPrefix, review.request.value.resource.resource);
  }

  /** The resource guard compares all three fields of the triple. */
  lemma ResourceGuard(r: Request, codec: Codec, review: AdmissionReview)
    requires AdmissionReviewFromRequest(r, codec.decodeReview) == Success(review)
    requires review.request.Some?
    ensures EnvelopeHasRequest(r, codec)
    ensures Review(r, codec).NotPod? <==>
      var res := review.request.value.resource;
      res.group != "" || res.version != "v1" || res.resource != "pods"
  {
  }

  /** An embedded object that does not decode as a Pod is an internal error (500), not a bad request. */
  lemma PodRefused(r: Request, codec: Codec, review: AdmissionReview, marshal: AdmissionReview -> Result<Bytes, string>)
    requires AdmissionReviewFromRequest(r, codec.decodeReview) == Success(review)
    requires review.request.Some? && review.request.value.resource == PodResource
    requires codec.decodePod(review.request.value.obj.raw).Failure?
    ensures EnvelopeHasRequest(r, codec)
    ensures Serve(r, codec) == ErrorReply(500, PodErrorPrefix + codec.decodePod(review.request.value.obj.raw).error)
    ensures Serve(r, codec) == Serve(r, codec.(marshal := marshal))
  {
  }

  /** A reply that cannot be marshalled is an internal error (500) naming the marshaller's error. */
  lemma MarshalRefused(r: Request, codec: Codec)
    requires EnvelopeHasRequest(r, codec) && Review(r, codec).Reviewed?
    requires codec.marshal(Review(r, codec).review).Failure?
    ensures Serve(r, codec) == ErrorReply(500, MarshalErrorPrefix + codec.marshal(Review(r, codec).review).error)
    ensures Mentions(Serve(r, codec).body, codec.marshal(Review(r, codec).review).error)
  {
    MentionsSuffix(MarshalErrorPrefix, codec.marshal(Review(r, codec).review).error);
  }

  /**
   * A Pod that decodes is reviewed: the reply carries the policy's verdict,
   * the request's UID and the request's GroupVersionKind.
   */
  lemma PodReviewed(r: Request, codec: Codec, review: AdmissionReview, pod: Pod)
    requires AdmissionReviewFromRequest(r, codec.decodeReview) == Success(review)
    requires review.request.Some? && review.request.value.resource == PodResource
    requires codec.decodePod(review.request.value.obj.raw) == Success(pod)
    ensures EnvelopeHasRequest(r, codec)
    ensures Review(r, codec).Reviewed?
    ensures var out := Review(r, codec).review;
      && out.request.None? && out.response.Some?
      && out.response.value == Evaluate(pod.labels).(uid := review.request.value.uid)
      && out.response.value.uid == review.request.value.uid
      && (out.response.value.result.Some? <==> !out.response.value.allowed)
      && FromAPIVersionAndKind(out.typeMeta) == FromAPIVersionAndKind(review.typeMeta)
      && (out.typeMeta == review.typeMeta <==> IsCanonicalApiVersion(review.typeMeta.apiVersion))
  {
  }

  /** The status codes: 400 for the request's own faults, 500 for the handler's, 200 for every decision. */
  lemma StatusCodes(r: Request, codec: Codec)
    requires EnvelopeHasRequest(r, codec)
    ensures var o, s := Review(r, codec), Serve(r, codec).status;
      && (s == 400 <==> o.ReviewError? || o.NotPod?)
      && (s == 500 <==> o.PodError? || (o.Reviewed? && codec.marshal(o.review).Failure?))
      && (s == 200 <==> o.Reviewed? && codec.marshal(o.review).Success?)
  {
  }

  /** A denial is still a successful reply: 200, JSON content type, the marshalled review as body. */
  lemma DenialIsSuccess(r: Request, codec: Codec)
    requires EnvelopeHasRequest(r, codec)
    requires Review(r, codec).Reviewed?
    requires codec.marshal(Review(r, codec).review).Success?
    ensures Serve(r, codec) == Reply(200, map[ContentTypeHeader := JsonMediaType], codec.marshal(Review(r, codec).review).value)
  {
  }

  /** Requests from the API server name admission.k8s.io/v1, which the reply repeats exactly. */
  lemma AdmissionV1Preserved(kind: string)
    ensures IsCanonicalApiVersion("admission.k8s.io/v1")
    ensures ToAPIVersionAndKind(FromAPIVersionAndKind(TypeMeta("admission.k8s.io/v1", kind))) == TypeMeta("admission.k8s.io/v1", kind)
  {
    var group := "admission.k8s.io";
    assert Separator !in group;
    assert "admission.k8s.io/v1" == group + [Separator] + "v1";
    CanonicalGroupVersion(group, "v1");
    TypeMetaPreservedIff(TypeMeta("admission.k8s.io/v1", kind));
  }
}
