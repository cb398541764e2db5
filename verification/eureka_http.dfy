/** The registry protocol adapter (eureka_http_client.go): it turns each
    registry operation into one request against the active endpoint,
    interprets the status code, and rotates to the next endpoint after a
    transport failure. Each operation takes the transport's answer as an
    input and returns the adapter's next state beside its result. */
module EurekaHttp {
  import opened Base
  import opened Strings
  import opened Define
  import opened Entity
  import opened Transport

  const UriApps: string := "/apps/"
  const UriInstances: string := "/instances/"
  const HeaderAccept: string := "Accept"
  const HeaderContentType: string := "Content-Type"

  /** The adapter's state: the endpoint list, the active index and the
      active URL, the content mode, the credentials and the fixed headers. */
  datatype HttpClient = HttpClient(
    isJson: bool,
    serviceUrl: string,
    urlIndex: int,
    serviceUrlList: seq<string>,
    username: string,
    password: string,
    headers: map<string, string>)
  {
    /** The active URL is the list entry at the active index. */
    predicate Valid() {
      0 <= urlIndex < |serviceUrlList| && serviceUrl == serviceUrlList[urlIndex]
    }

    /** `handleError`: advance round-robin to the next endpoint, but only
        when there is more than one. Nothing else changes. */
    function HandleError(): (c: HttpClient)
      requires Valid()
      ensures c.Valid()
      ensures c.serviceUrlList == serviceUrlList
      ensures c.(urlIndex := urlIndex, serviceUrl := serviceUrl) == this
      ensures |serviceUrlList| > 1 ==> c.urlIndex == (urlIndex + 1) % |serviceUrlList|
      ensures |serviceUrlList| == 1 ==> c == this
    {
      if |serviceUrlList| > 1 then
        var i := (urlIndex + 1) % |serviceUrlList|;
        this.(urlIndex := i, serviceUrl := serviceUrlList[i])
      else this
    }

    /** The state after one request: rotated when the transport failed,
        untouched when any status code came back. */
    function AfterCall(o: Outcome): (c: HttpClient)
      requires Valid()
      ensures c.Valid()
    {
      if o.Failed? then HandleError() else this
    }

    /** The request every operation sends: the adapter's headers and
        credentials around the operation's own method, URL and body. */
    function Req(m: Method, url: string, body: Bytes): Request {
      Request(m, url, headers, body, username, password)
    }
  }

  /** The content-negotiation headers for one mode. */
  function ContentHeaders(isJson: bool): map<string, string> {
    var v := if isJson then ApplicationJsonValue else ApplicationXmlValue;
    map[HeaderAccept := v, HeaderContentType := v]
  }

  /** `newEurekaHttpClient`: trims trailing slashes from every endpoint and
      starts at the first one. The source indexes the first entry
      unconditionally, so the list must not be empty. */
  function NewEurekaHttpClient(serviceUrlList: seq<string>, username: string, password: string,
                               contentIsJson: bool): (c: HttpClient)
    requires |serviceUrlList| > 0
    ensures c.Valid() && c.urlIndex == 0 && c.serviceUrl == c.serviceUrlList[0]
    ensures |c.serviceUrlList| == |serviceUrlList|
    ensures forall i | 0 <= i < |serviceUrlList| ::
      && c.serviceUrlList[i] <= serviceUrlList[i]
      && (|c.serviceUrlList[i]| == 0 || c.serviceUrlList[i][|c.serviceUrlList[i]| - 1] != '/')
      && forall j | |c.serviceUrlList[i]| <= j < |serviceUrlList[i]| :: serviceUrlList[i][j] == '/'
    ensures c.isJson == contentIsJson && c.username == username && c.password == password
    ensures c.headers.Keys == {HeaderAccept, HeaderContentType}
    ensures c.headers[HeaderAccept] == c.headers[HeaderContentType]
            == (if contentIsJson then ApplicationJsonValue else ApplicationXmlValue)
  {
    var trimmed := seq(|serviceUrlList|, i requires 0 <= i < |serviceUrlList| => TrimRight(serviceUrlList[i], '/'));
    HttpClient(contentIsJson, trimmed[0], 0, trimmed, username, password, ContentHeaders(contentIsJson))
  }

  // -----------------------------------------------------------------------
  // Request URLs

  function AppUrl(base: string, app: string): string {
    base + UriApps + app
  }

  function InstanceUrl(base: string, app: string, id: string): string {
    base + UriApps + app + "/" + id
  }

  function HeartbeatUrl(base: string, app: string, id: string, status: string,
                        lastDirtyTimestamp: string, overriddenStatus: string): string {
    var url := base + UriApps + app + "/" + id + "?status=" + status + "&lastDirtyTimestamp=" + lastDirtyTimestamp;
    if overriddenStatus != "" then url + "&overriddenstatus=" + overriddenStatus else url
  }

  function StatusUpdateUrl(base: string, app: string, id: string, status: string,
                           lastDirtyTimestamp: string): string {
    base + UriApps + app + "/" + id + "/status?value=" + status + "&lastDirtyTimestamp=" + lastDirtyTimestamp
  }

  function ApplicationsUrl(base: string, regions: seq<string>): string {
    var url := base + UriApps;
    if |regions| > 0 then url + "?regions=" + Join(regions, ',') else url
  }

  function InstanceByIdUrl(base: string, id: string): string {
    base + UriInstances + id
  }

  // -----------------------------------------------------------------------
  // Operations

  /** What an operation hands back: the adapter's next state, the Go
      return values, and the requests it put on the wire. */
  datatype Reply<T> = Reply(client: HttpClient, value: T, err: Option<Error>, sent: seq<Request>)

  /** `Register`: posts the serialised record. Accepted exactly on 200 or
      204; a failed transport leaves the status at 0, so it is never
      accepted, and it rotates the endpoint. A serialisation failure
      sends nothing. */
  function Register(c: HttpClient, info: InstanceInfo, serialize: InstanceInfo -> Result<Bytes>,
                    o: Outcome): (r: Reply<bool>)
    requires c.Valid()
    ensures r.client.Valid()
    ensures r.value <==> serialize(info).Ok? && o.Response? && o.status in {StatusOK, StatusNoContent}
    ensures serialize(info).Err? ==>
      r.client == c && r.sent == [] && r.err == Some(serialize(info).error)
    ensures serialize(info).Ok? ==>
      && r.sent == [c.Req(Post, AppUrl(c.serviceUrl, info.instance.app), serialize(info).value)]
      && r.err == o.ErrorOf()
      && r.client == (if o.Failed? then c.HandleError() else c)
  {
    match serialize(info)
    case Err(e) => Reply(c, false, Some(e), [])
    case Ok(body) =>
      var req := c.Req(Post, c.serviceUrl + UriApps + info.instance.app, body);
      var code := o.StatusCode();
      Reply(c.AfterCall(o), code == StatusOK || code == StatusNoContent, o.ErrorOf(), [req])
  }

  /** `Deregister`: deletes the instance. Accepted exactly on 200; the
      transport error is passed through. */
  function Deregister(c: HttpClient, appName: string, instanceId: string, o: Outcome): (r: Reply<bool>)
    requires c.Valid()
    ensures r.client.Valid()
    ensures r.value <==> o.Response? && o.status == StatusOK
    ensures r.err == o.ErrorOf()
    ensures r.client == (if o.Failed? then c.HandleError() else c)
    ensures r.sent == [c.Req(Delete, InstanceUrl(c.serviceUrl, appName, instanceId), [])]
  {
    var req := c.Req(Delete, c.serviceUrl + UriApps + appName + "/" + instanceId, []);
    Reply(c.AfterCall(o), o.StatusCode() == StatusOK, o.ErrorOf(), [req])
  }

  /** `SendHeartBeat`: renews the lease and returns the raw status code,
      leaving its interpretation to the caller. */
  function SendHeartBeat(c: HttpClient, appName: string, instanceId: string, status: string,
                         lastDirtyTimestamp: string, overriddenStatus: string, o: Outcome): (r: Reply<int>)
    requires c.Valid()
    ensures r.client.Valid()
    ensures r.value == (if o.Failed? then 0 else o.status)
    ensures r.err == o.ErrorOf()
    ensures r.client == (if o.Failed? then c.HandleError() else c)
    ensures r.sent == [c.Req(Put, HeartbeatUrl(c.serviceUrl, appName, instanceId, status,
                                               lastDirtyTimestamp, overriddenStatus), [])]
  {
    var url := c.serviceUrl + UriApps + appName + "/" + instanceId + "?status=" + status
               + "&lastDirtyTimestamp=" + lastDirtyTimestamp;
    var url' := if overriddenStatus != "" then url + "&overriddenstatus=" + overriddenStatus else url;
    Reply(c.AfterCall(o), o.StatusCode(), o.ErrorOf(), [c.Req(Put, url', [])])
  }

  /** `StatusUpdate`: sets the instance's status. Accepted exactly on 200;
      the transport error is passed through. */
  function StatusUpdate(c: HttpClient, appName: string, instanceId: string, status: string,
                        lastDirtyTimestamp: string, o: Outcome): (r: Reply<bool>)
    requires c.Valid()
    ensures r.client.Valid()
    ensures r.value <==> o.Response? && o.status == StatusOK
    ensures r.err == o.ErrorOf()
    ensures r.client == (if o.Failed? then c.HandleError() else c)
    ensures r.sent == [c.Req(Put, StatusUpdateUrl(c.serviceUrl, appName, instanceId, status,
                                                   lastDirtyTimestamp), [])]
  {
    var req := c.Req(Put, c.serviceUrl + UriApps + appName + "/" + instanceId + "/status?value=" + status
                          + "&lastDirtyTimestamp=" + lastDirtyTimestamp, []);
    Reply(c.AfterCall(o), o.StatusCode() == StatusOK, o.ErrorOf(), [req])
  }

  /** `requestAndFormatResult`: a transport failure rotates the endpoint
      and is returned as is; an empty body is a "data empty" error with no
      rotation; any other body goes to the decoder of the adapter's mode. */
  function RequestAndFormatResult<T>(c: HttpClient, o: Outcome, decodeJson: Bytes -> Result<T>,
                                     decodeXml: Bytes -> Result<T>): (r: (HttpClient, Result<T>))
    requires c.Valid()
    ensures r.0.Valid()
    ensures o.Failed? ==> r == (c.HandleError(), Err(TransportError(o.reason)))
    ensures o.Response? ==> r.0 == c
    ensures o.Response? && |o.body| == 0 ==> r.1 == Err(DataEmpty)
    ensures o.Response? && |o.body| > 0 && c.isJson ==> r.1 == decodeJson(o.body)
    ensures o.Response? && |o.body| > 0 && !c.isJson ==> r.1 == decodeXml(o.body)
  {
    match o
    case Failed(reason) => (c.HandleError(), Err(TransportError(reason)))
    case Response(body, _) =>
      if |body| == 0 then (c, Err(DataEmpty))
      else if c.isJson then (c, decodeJson(body))
      else (c, decodeXml(body))
  }

  /** A read: one GET of `url`, classified by `RequestAndFormatResult`. */
  function Fetch<T>(c: HttpClient, url: string, o: Outcome, decodeJson: Bytes -> Result<T>,
                    decodeXml: Bytes -> Result<T>): (r: Reply<Result<T>>)
    requires c.Valid()
    ensures r.client.Valid()
    ensures r.sent == [c.Req(Get, url, [])]
    ensures r.err == r.value.ErrorOf()
    ensures (r.client, r.value) == RequestAndFormatResult(c, o, decodeJson, decodeXml)
  {
    var (c', result) := RequestAndFormatResult(c, o, decodeJson, decodeXml);
    Reply(c', result, result.ErrorOf(), [c.Req(Get, url, [])])
  }

  /** `GetApplications`: every application, or only the listed regions. */
  function GetApplications<T>(c: HttpClient, regions: seq<string>, o: Outcome,
                              decodeJson: Bytes -> Result<T>, decodeXml: Bytes -> Result<T>): (r: Reply<Result<T>>)
    requires c.Valid()
    ensures r.client.Valid()
    ensures r.sent == [c.Req(Get, ApplicationsUrl(c.serviceUrl, regions), [])]
    ensures (r.client, r.value) == RequestAndFormatResult(c, o, decodeJson, decodeXml)
    ensures r.err == r.value.ErrorOf()
  {
    Fetch(c, ApplicationsUrl(c.serviceUrl, regions), o, decodeJson, decodeXml)
  }

  /** `GetApplication`: one application by name. */
  function GetApplication<T>(c: HttpClient, appName: string, o: Outcome,
                             decodeJson: Bytes -> Result<T>, decodeXml: Bytes -> Result<T>): (r: Reply<Result<T>>)
    requires c.Valid()
    ensures r.client.Valid()
    ensures r.sent == [c.Req(Get, AppUrl(c.serviceUrl, appName), [])]
    ensures (r.client, r.value) == RequestAndFormatResult(c, o, decodeJson, decodeXml)
    ensures r.err == r.value.ErrorOf()
  {
    Fetch(c, AppUrl(c.serviceUrl, appName), o, decodeJson, decodeXml)
  }

  /** `GetInstance`: one instance of one application. */
  function GetInstance<T>(c: HttpClient, appName: string, instanceId: string, o: Outcome,
                          decodeJson: Bytes -> Result<T>, decodeXml: Bytes -> Result<T>): (r: Reply<Result<T>>)
    requires c.Valid()
    ensures r.client.Valid()
    ensures r.sent == [c.Req(Get, InstanceUrl(c.serviceUrl, appName, instanceId), [])]
    ensures (r.client, r.value) == RequestAndFormatResult(c, o, decodeJson, decodeXml)
    ensures r.err == r.value.ErrorOf()
  {
    Fetch(c, InstanceUrl(c.serviceUrl, appName, instanceId), o, decodeJson, decodeXml)
  }

  /** `GetInstanceById`: one instance by id alone. */
  function GetInstanceById<T>(c: HttpClient, instanceId: string, o: Outcome,
                              decodeJson: Bytes -> Result<T>, decodeXml: Bytes -> Result<T>): (r: Reply<Result<T>>)
    requires c.Valid()
    ensures r.client.Valid()
    ensures r.sent == [c.Req(Get, InstanceByIdUrl(c.serviceUrl, instanceId), [])]
    ensures (r.client, r.value) == RequestAndFormatResult(c, o, decodeJson, decodeXml)
    ensures r.err == r.value.ErrorOf()
  {
    Fetch(c, InstanceByIdUrl(c.serviceUrl, instanceId), o, decodeJson, decodeXml)
  }
}
