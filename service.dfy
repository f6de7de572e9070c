/**
 * The `POST /deploy` handler (app.py:113-138): decide whether the request
 * is a push of interest, build the `Image` from its first resource and
 * broadcast it to the deploy hooks.
 */
module Service {
  import opened Wrappers
  import opened Types
  import opened Timestamp
  import opened Dispatch

  /** The only event type that is acted upon. */
  const PushArtifact: string := "PUSH_ARTIFACT"

  const NoResources: Error := HttpError(400, "Has not resources.")

  /** What the handler makes of a request before anything is sent. */
  datatype Decision = Ignore | Refuse(error: Error) | Forward(image: Image)

  /** The handler up to `image.handle_image()`, app.py:116-135. */
  function Normalise(req: DeployRequest): Decision {
    if req.eventType != PushArtifact then Ignore
    else if req.eventData.resources == [] then Refuse(NoResources)
    else if !Renderable(req.occurAt) then Refuse(TimestampOutOfRange)
    else
      var repo := req.eventData.repository;
      var resource := req.eventData.resources[0];
      Forward(Image(
        name := repo.name,
        fullName := repo.repoFullName,
        tag := resource.tag,
        resourceUrl := repo.repoFullName + ":" + resource.tag,
        occurAt := FormatTimestamp(req.occurAt)))
  }

  /** The whole request: what the client is answered and the POSTs made on the way. */
  datatype Reply = Reply(result: Result<string, Error>, calls: seq<Call>)

  function DeployReply(req: DeployRequest, rules: Rules): Reply {
    match Normalise(req)
    case Ignore => Reply(Success("ok"), [])
    case Refuse(e) => Reply(Failure(e), [])
    case Forward(img) =>
      var d := Broadcast(img, rules);
      Reply(if d.error.Some? then Failure(d.error.value) else Success("ok"), d.calls)
  }

  /** app.py:113-138. */
  method Deploy(req: DeployRequest, rules: Rules, net: Network) returns (result: Result<string, Error>)
    modifies net
    ensures result == DeployReply(req, rules).result
    ensures net.sent == old(net.sent) + DeployReply(req, rules).calls
  {
    if req.eventType != PushArtifact {
      return Success("ok");
    }
    var resources := req.eventData.resources;
    if resources == [] {
      return Failure(NoResources);
    }
    if !Renderable(req.occurAt) {
      return Failure(TimestampOutOfRange);
    }
    var repo := req.eventData.repository;
    var resource := resources[0];
    var image := Image(
      name := repo.name,
      fullName := repo.repoFullName,
      tag := resource.tag,
      resourceUrl := repo.repoFullName + ":" + resource.tag,
      occurAt := FormatTimestamp(req.occurAt));
    assert Normalise(req) == Forward(image);
    var error := HandleImage(image, rules, net);
    if error.Some? {
      return Failure(error.value);
    }
    return Success("ok");
  }

  /** Any other event type is answered 'ok' and sends nothing, whatever the resources or the rules. */
  lemma OtherEventsIgnored(req: DeployRequest, rules: Rules)
    requires req.eventType != "PUSH_ARTIFACT"
    ensures DeployReply(req, rules) == Reply(Success("ok"), [])
  {
  }

  /** A push without resources is refused with 400 and sends nothing. */
  lemma EmptyPushRejected(req: DeployRequest, rules: Rules)
    requires req.eventType == "PUSH_ARTIFACT" && req.eventData.resources == []
    ensures DeployReply(req, rules) == Reply(Failure(HttpError(400, "Has not resources.")), [])
    ensures StatusOf(DeployReply(req, rules).result.error) == 400
  {
  }

  /**
   * A push with resources yields one image, built from the repository and the
   * first resource: its reference is `full_name:tag`, not the resource's own
   * `resource_url`, and its time reads back as the event's timestamp.
   */
  lemma ImageOfPush(req: DeployRequest)
    requires req.eventType == "PUSH_ARTIFACT" && req.eventData.resources != []
    requires Renderable(req.occurAt)
    ensures Normalise(req).Forward?
    ensures var img, repo, first := Normalise(req).image, req.eventData.repository, req.eventData.resources[0];
      && img.name == repo.name
      && img.fullName == repo.repoFullName
      && img.tag == first.tag
      && img.resourceUrl == repo.repoFullName + ":" + first.tag
      && img.occurAt == FormatTimestamp(req.occurAt)
      && ParseTimestamp(img.occurAt) == Some(req.occurAt)
  {
    ParseFormat(req.occurAt);
  }

  /**
   * The decision depends on nothing but the event type, the repository's name
   * and full name, whether there are resources, the first resource's tag and
   * the timestamp: later resources, digests, the resources' own references,
   * the operator and the other repository fields never matter.
   */
  lemma NormaliseReadsOnly(a: DeployRequest, b: DeployRequest)
    requires a.eventType == b.eventType && a.occurAt == b.occurAt
    requires a.eventData.repository.name == b.eventData.repository.name
    requires a.eventData.repository.repoFullName == b.eventData.repository.repoFullName
    requires (a.eventData.resources == []) == (b.eventData.resources == [])
    requires a.eventData.resources != [] ==> a.eventData.resources[0].tag == b.eventData.resources[0].tag
    ensures Normalise(a) == Normalise(b)
  {
  }

  /** A timestamp outside the modelled range (local years 1970-9999) ends a push in an error before anything is sent. */
  lemma UnrenderableTimeFails(req: DeployRequest, rules: Rules)
    requires req.eventType == "PUSH_ARTIFACT" && req.eventData.resources != []
    requires !Renderable(req.occurAt)
    ensures DeployReply(req, rules) == Reply(Failure(TimestampOutOfRange), [])
    ensures StatusOf(DeployReply(req, rules).result.error) == 500
  {
  }

  /**
   * A push with resources and every deploy hook holding a token is answered
   * 'ok' after exactly one POST per hook, in list order, each with the image
   * as body and the hook's token as Authorization.
   */
  lemma PushReachesEveryHook(req: DeployRequest, rules: Rules)
    requires req.eventType == "PUSH_ARTIFACT" && req.eventData.resources != []
    requires Renderable(req.occurAt)
    requires HooksOf(rules) != []
    requires forall i :: 0 <= i < |HooksOf(rules)| ==> HasToken(HooksOf(rules)[i])
    ensures var r, hooks := DeployReply(req, rules), HooksOf(rules);
      && r.result == Success("ok") && |r.calls| == |hooks|
      && forall i :: 0 <= i < |hooks| ==>
           r.calls[i] == Call(hooks[i].url, map["Authorization" := TokenOf(hooks[i])], AsDict(Normalise(req).image))
  {
    var img := Normalise(req).image;
    assert Normalise(req) == Forward(img);
    BroadcastOnePerHook(img, rules);
    assert DeployReply(req, rules) == Reply(Success("ok"), Broadcast(img, rules).calls);
  }

  /** A push with no deploy hook configured is answered 500 and sends nothing. */
  lemma PushWithoutHooksFails(req: DeployRequest, rules: Rules)
    requires req.eventType == "PUSH_ARTIFACT" && req.eventData.resources != []
    requires Renderable(req.occurAt)
    requires HooksOf(rules) == []
    ensures DeployReply(req, rules) == Reply(Failure(HttpError(500, "No deploy hook url.")), [])
  {
  }

  /** The sample Harbor payload of the module docstring, with the given event type. */
  function SampleRequest(eventType: string): DeployRequest {
    DeployRequest(
      Event(Repository(1573203500, "alpine", "library", "library/alpine", "public"),
            [Resource("sha256:e4355b66995c96b4b468159fc5c7e3540fcef961189ca13fee877798649f531a",
                      "library/alpine:latest", "latest")]),
      1573205735, "admin", eventType)
  }

  /** The sample's own type, `pushImage`, is not PUSH_ARTIFACT: it is answered 'ok' and nothing is sent. */
  lemma SampleAsWrittenIgnored(rules: Rules)
    ensures DeployReply(SampleRequest("pushImage"), rules) == Reply(Success("ok"), [])
  {
    assert |"pushImage"| != |PushArtifact|;
    OtherEventsIgnored(SampleRequest("pushImage"), rules);
  }

  /** The sample as a PUSH_ARTIFACT event yields the image of alpine:latest pushed at 17:35:35 UTC+8. */
  lemma SampleImage()
    ensures Normalise(SampleRequest("PUSH_ARTIFACT"))
      == Forward(Image("alpine", "library/alpine", "latest", "library/alpine:latest", "2019-11-08 17:35:35"))
  {
    assert "library/alpine" + ":" + "latest" == "library/alpine:latest";
    var req := SampleRequest("PUSH_ARTIFACT");
    assert req.eventType == PushArtifact && req.eventData.resources != [] && req.occurAt == 1573205735;
    assert Renderable(req.occurAt) && FormatTimestamp(req.occurAt) == "2019-11-08 17:35:35" by {
      SampleEvent();
    }
  }
}
