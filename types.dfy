/**
 * The shapes of app.py: the typed request body of `POST /deploy`
 * (Repository, Resource, Event, DeployRequest, app.py:30-53), the `Image`
 * dataclass that is forwarded (app.py:84-90) and the ways a request can fail.
 */
module Types {
  import opened Wrappers

  datatype Repository = Repository(
    dateCreated: int,
    name: string,
    namespace: string,
    repoFullName: string,
    repoType: string)

  datatype Resource = Resource(digest: string, resourceUrl: string, tag: string)

  datatype Event = Event(repository: Repository, resources: seq<Resource>)

  /** `eventType` is the payload's `type` field. */
  datatype DeployRequest = DeployRequest(
    eventData: Event,
    occurAt: int,
    operator: string,
    eventType: string)

  /** The normalised push event; `occurAt` is already rendered in UTC+8. */
  datatype Image = Image(
    name: string,
    fullName: string,
    tag: string,
    resourceUrl: string,
    occurAt: string)

  /** What ends a request other than `'ok'`. */
  datatype Error =
    | HttpError(status: int, detail: string)  // an HTTPException raised by the handler
    | UnboundHeaders                          // UnboundLocalError: `headers` read unassigned in send_hook
    | TimestampOutOfRange                     // the local time lies outside the modelled range, years 1970-9999

  /** The HTTP status the client sees: an uncaught exception becomes a 500. */
  function StatusOf(e: Error): int {
    if e.HttpError? then e.status else 500
  }

  /** The image as a JSON object of its five fields: the body of every outbound call. */
  function AsDict(img: Image): map<string, string> {
    map["name" := img.name, "full_name" := img.fullName, "tag" := img.tag,
        "resource_url" := img.resourceUrl, "occur_at" := img.occurAt]
  }

  /** Reads an `Image` back from a JSON body, as a receiver of the hook would. */
  function FromDict(body: map<string, string>): Option<Image> {
    if {"name", "full_name", "tag", "resource_url", "occur_at"} <= body.Keys then
      Some(Image(body["name"], body["full_name"], body["tag"], body["resource_url"], body["occur_at"]))
    else None
  }

  /** The body carries exactly the five fields of the image, and nothing is lost. */
  lemma BodyRoundTrip(img: Image)
    ensures AsDict(img).Keys == {"name", "full_name", "tag", "resource_url", "occur_at"}
    ensures FromDict(AsDict(img)) == Some(img)
  {
  }
}
