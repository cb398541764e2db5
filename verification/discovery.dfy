/** The lifecycle manager (discovery_client.go): start-up validation, the
    instance record built from the configuration, one heartbeat tick as a
    pure transition, and the status update. The clock, the local address,
    the serialiser and the transport's answers are inputs. */
module Discovery {
  import opened Base
  import opened Strings
  import opened Define
  import opened Entity
  import opened Transport
  import opened EurekaHttp

  // -----------------------------------------------------------------------
  // Time stamps

  /** `time.Now().UnixNano() / 1000000`: Go's integer division truncates
      toward zero, so the result is the millisecond count with the
      fraction dropped on either side of the epoch. */
  function UnixMillis(nanos: int): (ms: int)
    ensures nanos >= 0 ==> 0 <= ms && ms * 1000000 <= nanos < ms * 1000000 + 1000000
    ensures nanos < 0 ==> ms <= 0 && ms * 1000000 - 1000000 < nanos <= ms * 1000000
  {
    if nanos >= 0 then nanos / 1000000 else -((-nanos) / 1000000)
  }

  /** A later clock reading never gives an earlier millisecond count. */
  lemma UnixMillisMonotonic(a: int, b: int)
    requires a <= b
    ensures UnixMillis(a) <= UnixMillis(b)
  {
  }

  /** `fmt.Sprintf("%d", time.Now().UnixNano()/1000000)` for a clock
      reading in nanoseconds. */
  function Timestamp(nanos: int): string {
    FormatInt(UnixMillis(nanos))
  }

  // -----------------------------------------------------------------------
  // Configuration

  /** The three settings the client cannot start without. */
  predicate HasRequiredParams(conf: EurekaClientConfig) {
    conf.appName != "" && conf.instanceId != "" && |conf.serviceUrls| > 0
  }

  /** `getIsJsonContentType`: JSON unless a content type is configured
      whose upper-cased text nowhere contains `JSON`. */
  function GetIsJsonContentType(conf: EurekaClientConfig): (isJson: bool)
    ensures isJson <==> conf.headerContentType == ""
                        || exists i :: OccursAt(ToUpper(conf.headerContentType), "JSON", i)
  {
    ContainsSpec(ToUpper(conf.headerContentType), "JSON");
    conf.headerContentType == "" || Contains(ToUpper(conf.headerContentType), "JSON")
  }

  /** `JSON` appears at position `i` of `h` in any mix of ASCII cases. */
  ghost predicate JsonAt(h: string, i: int) {
    && 0 <= i && i + 4 <= |h|
    && h[i] in "jJ" && h[i + 1] in "sS" && h[i + 2] in "oO" && h[i + 3] in "nN"
  }

  lemma JsonAtUpper(h: string, i: int)
    ensures OccursAt(ToUpper(h), "JSON", i) <==> JsonAt(h, i)
  {
    if 0 <= i && i + 4 <= |h| {
      var u := ToUpper(h);
      var w := u[i..i + 4];
      assert w[0] == u[i] && w[1] == u[i + 1] && w[2] == u[i + 2] && w[3] == u[i + 3];
      assert "JSON"[0] == 'J' && "JSON"[1] == 'S' && "JSON"[2] == 'O' && "JSON"[3] == 'N';
      if u[i] == 'J' && u[i + 1] == 'S' && u[i + 2] == 'O' && u[i + 3] == 'N' {
        assert forall k | 0 <= k < 4 :: w[k] == "JSON"[k];
      }
    }
  }

  /** The content-type test ignores case: JSON mode exactly when no
      content type is configured or `json` appears in it in any mix of
      upper and lower case. */
  lemma JsonDetectionIgnoresCase(conf: EurekaClientConfig)
    ensures GetIsJsonContentType(conf)
            <==> conf.headerContentType == "" || exists i :: JsonAt(conf.headerContentType, i)
  {
    var h := conf.headerContentType;
    if exists i :: OccursAt(ToUpper(h), "JSON", i) {
      var i :| OccursAt(ToUpper(h), "JSON", i);
      JsonAtUpper(h, i);
    }
    if exists i :: JsonAt(h, i) {
      var i :| JsonAt(h, i);
      JsonAtUpper(h, i);
    }
  }

  /** `getWrapperInstanceInfo`: the record registered for this process,
      with the defaults of define.go filled in. */
  function GetWrapperInstanceInfo(conf: EurekaClientConfig, localIp: string, nowNanos: int): (w: WrapperInstanceInfo)
    ensures w.instanceId == conf.instanceId && w.app == conf.appName && w.ipAddr == localIp
    ensures w.hostName == (if conf.hostName != "" then conf.hostName else DefaultHostName)
    ensures w.hostName != ""
    ensures w.status == StatusUp && w.overriddenStatus == ""
    ensures w.port == Some(WrapperPort(conf.port, true)) && w.securePort == None
    ensures w.dataCenterInfo == Some(WrapperDataCenterInfo(DefaultDataCenterInfoClass, DefaultDataCenterInfoName))
    ensures w.leaseInfo.Some?
    ensures var lease := w.leaseInfo.value;
      && lease.renewalIntervalInSecs > 0 && lease.durationInSecs > 0
      && (conf.renewalIntervalInSecs > 0 ==> lease.renewalIntervalInSecs == conf.renewalIntervalInSecs)
      && (conf.renewalIntervalInSecs <= 0 ==> lease.renewalIntervalInSecs == DefaultLeaseRenewalInterval)
      && (conf.durationInSecs > 0 ==> lease.durationInSecs == conf.durationInSecs)
      && (conf.durationInSecs <= 0 ==> lease.durationInSecs == DefaultLeaseDuration)
      && lease.registrationTimestamp == lease.lastRenewalTimestamp == 0
      && lease.evictionTimestamp == lease.serviceUpTimestamp == 0
    ensures w.metadata.Some? && ParseInt(w.metadata.value.managementPort) == Some(conf.port)
    ensures w.metadata.value.jmxPort == ""
    ensures w.vipAddress == conf.appName && w.secureVipAddress == conf.appName
    ensures w.lastUpdatedTimestamp == w.lastDirtyTimestamp
    ensures ParseInt(w.lastDirtyTimestamp) == Some(UnixMillis(nowNanos))
    ensures w.countryId == 0 && w.actionType == "" && w.isCoordinatingDiscoveryServer == ""
    ensures w.homePageUrl == "" && w.statusPageUrl == "" && w.healthCheckUrl == ""
  {
    var renewal := if conf.renewalIntervalInSecs > 0 then conf.renewalIntervalInSecs else DefaultLeaseRenewalInterval;
    var duration := if conf.durationInSecs > 0 then conf.durationInSecs else DefaultLeaseDuration;
    var hostName := if conf.hostName != "" then conf.hostName else DefaultHostName;
    var now := Timestamp(nowNanos);
    FormatIntRoundTrip(UnixMillis(nowNanos));
    FormatIntRoundTrip(conf.port);
    WrapperInstanceInfo(
      instanceId := conf.instanceId,
      hostName := hostName,
      app := conf.appName,
      ipAddr := localIp,
      status := StatusUp,
      overriddenStatus := "",
      port := Some(WrapperPort(conf.port, true)),
      securePort := None,
      countryId := 0,
      dataCenterInfo := Some(WrapperDataCenterInfo(DefaultDataCenterInfoClass, DefaultDataCenterInfoName)),
      leaseInfo := Some(WrapperLeaseInfo(renewal, duration, 0, 0, 0, 0)),
      metadata := Some(WrapperMetadata(FormatInt(conf.port), "")),
      homePageUrl := "",
      statusPageUrl := "",
      healthCheckUrl := "",
      vipAddress := conf.appName,
      secureVipAddress := conf.appName,
      isCoordinatingDiscoveryServer := "",
      lastUpdatedTimestamp := now,
      lastDirtyTimestamp := now,
      actionType := "")
  }

  // -----------------------------------------------------------------------
  // Client state

  /** The manager's state. `serviceUrls` is the same (trimmed) list the
      adapter holds, since the adapter trims the caller's slice in place;
      `urlIndex` is the manager's own rotation counter, kept apart from
      the adapter's. */
  datatype DiscoveryClient = DiscoveryClient(
    eurekaClient: HttpClient,
    isJsonContentType: bool,
    urlIndex: int,
    serviceUrls: seq<string>,
    instanceConf: WrapperInstanceInfo,
    isDirty: bool,
    lastDirtyTimestamp: string)
  {
    predicate Valid() {
      && eurekaClient.Valid()
      && serviceUrls == eurekaClient.serviceUrlList
      && 0 <= urlIndex < |serviceUrls|
    }

    /** The manager's own round-robin step after a failed heartbeat: the
        same rule as the adapter's `handleError`, applied to a copy of the
        index that nothing reads. Nothing else changes. */
    function RotateIndex(): (d: DiscoveryClient)
      requires Valid()
      ensures d.Valid()
      ensures d.(urlIndex := urlIndex) == this
      ensures |serviceUrls| > 1 ==> d.urlIndex == (urlIndex + 1) % |serviceUrls|
      ensures |serviceUrls| == 1 ==> d == this
    {
      if |serviceUrls| > 1 then this.(urlIndex := (urlIndex + 1) % |serviceUrls|) else this
    }
  }

  /** `setIsDirty`: marks the record dirty and stamps the current time. */
  function SetIsDirty(d: DiscoveryClient, nowNanos: int): (d': DiscoveryClient)
    ensures d'.isDirty
    ensures ParseInt(d'.lastDirtyTimestamp) == Some(UnixMillis(nowNanos))
    ensures d'.(isDirty := d.isDirty, lastDirtyTimestamp := d.lastDirtyTimestamp) == d
  {
    FormatIntRoundTrip(UnixMillis(nowNanos));
    d.(isDirty := true, lastDirtyTimestamp := Timestamp(nowNanos))
  }

  /** `unsetIsDirty`: clears the dirty mark and nothing else; the time
      stamp of the last change stays. */
  function UnsetIsDirty(d: DiscoveryClient): (d': DiscoveryClient)
    ensures !d'.isDirty
    ensures d'.(isDirty := d.isDirty) == d
  {
    d.(isDirty := false)
  }

  // -----------------------------------------------------------------------
  // Start-up

  /** What `NewDiscoveryClient` returns, plus what it did: the register
      calls it made, whether it started the heartbeat task, the requests
      it sent, and the caller's configuration as it stands afterwards
      (the adapter trims the caller's URL slice in place). */
  datatype Started = Started(
    registered: bool,
    client: Option<DiscoveryClient>,
    err: Option<Error>,
    heartbeatStarted: bool,
    registerCalls: seq<InstanceInfo>,
    sent: seq<Request>,
    callerConf: EurekaClientConfig)

  /** `NewDiscoveryClient`. A missing application name, instance id or
      endpoint list is a parameter error before anything else happens.
      Otherwise the client is built and, when registration is enabled,
      registers once and starts the heartbeat task whatever the outcome. */
  function NewDiscoveryClient(conf: EurekaClientConfig, localIp: string, nowNanos: int,
                              serialize: InstanceInfo -> Result<Bytes>, reg: Outcome): (s: Started)
    ensures s.client.None? <==> !HasRequiredParams(conf)
    ensures !HasRequiredParams(conf) ==>
      && s.err == Some(ParameterError) && !s.registered && !s.heartbeatStarted
      && s.registerCalls == [] && s.sent == [] && s.callerConf == conf
    ensures s.client.Some? ==>
      var d := s.client.value;
      var w := GetWrapperInstanceInfo(conf, localIp, nowNanos);
      var adapter := NewEurekaHttpClient(conf.serviceUrls, conf.username, conf.password, GetIsJsonContentType(conf));
      && d.Valid()
      && s.callerConf == conf.(serviceUrls := d.serviceUrls)
      && d.instanceConf == w
      && !d.isDirty && d.lastDirtyTimestamp == w.lastDirtyTimestamp
      && d.urlIndex == 0
      && d.isJsonContentType == GetIsJsonContentType(conf) == d.eurekaClient.isJson
      && (s.heartbeatStarted <==> conf.registerWithEureka)
      && (conf.registerWithEureka ==>
            var r := Register(adapter, InstanceInfo(w), serialize, reg);
            && s.registerCalls == [InstanceInfo(w)]
            && s.registered == r.value && s.err == r.err && s.sent == r.sent
            && d.eurekaClient == r.client)
      && (!conf.registerWithEureka ==>
            && s.registerCalls == [] && s.sent == [] && !s.registered && s.err == None
            && d.eurekaClient == adapter)
  {
    if !HasRequiredParams(conf) then Started(false, None, Some(ParameterError), false, [], [], conf)
    else
      var isJson := GetIsJsonContentType(conf);
      var w := GetWrapperInstanceInfo(conf, localIp, nowNanos);
      var client := NewEurekaHttpClient(conf.serviceUrls, conf.username, conf.password, isJson);
      var d := DiscoveryClient(client, isJson, 0, client.serviceUrlList, w, false, w.lastDirtyTimestamp);
      var trimmed := conf.(serviceUrls := client.serviceUrlList);
      if conf.registerWithEureka then
        var r := Register(client, InstanceInfo(w), serialize, reg);
        Started(r.value, Some(d.(eurekaClient := r.client)), r.err, true, [InstanceInfo(w)], r.sent, trimmed)
      else
        Started(false, Some(d), None, false, [], [], trimmed)
  }

  // -----------------------------------------------------------------------
  // One heartbeat tick

  /** The result of one tick: the next state, the Go return values, the
      payloads handed to `Register`, and the requests sent. */
  datatype Tick = Tick(
    client: DiscoveryClient,
    success: bool,
    err: Option<Error>,
    registerCalls: seq<InstanceInfo>,
    sent: seq<Request>)

  /** The heartbeat request a tick sends: status UP, no overridden status,
      the current dirty time stamp. */
  function HeartbeatRequest(d: DiscoveryClient): Request {
    d.eurekaClient.Req(Put, HeartbeatUrl(d.eurekaClient.serviceUrl, d.instanceConf.app,
                                         d.instanceConf.instanceId, StatusUp, d.lastDirtyTimestamp, ""), [])
  }

  /** `sendHeartbeat`. 200 or 204: success, nothing changes. 404: the
      registry lost the instance, so the record is marked dirty with the
      current time and registered again; the mark is cleared when that
      succeeds. A transport failure rotates both the adapter's endpoint and
      the manager's own index (the latter only with several endpoints) and
      is returned. Any other code: failure, nothing changes. */
  function SendHeartbeat(d: DiscoveryClient, hb: Outcome, reg: Outcome,
                         serialize: InstanceInfo -> Result<Bytes>, nowNanos: int): (t: Tick)
    requires d.Valid()
    ensures t.client.Valid()
    ensures t.client.instanceConf == d.instanceConf && t.client.serviceUrls == d.serviceUrls
    ensures t.client.isJsonContentType == d.isJsonContentType
    ensures |t.sent| > 0 && t.sent[0] == HeartbeatRequest(d)
    ensures hb.Failed? ==>
      && !t.success && t.err == Some(TransportError(hb.reason))
      && t.registerCalls == [] && t.sent == [HeartbeatRequest(d)]
      && t.client.isDirty == d.isDirty && t.client.lastDirtyTimestamp == d.lastDirtyTimestamp
      && t.client.eurekaClient == d.eurekaClient.HandleError()
      && (|d.serviceUrls| > 1 ==> t.client.urlIndex == (d.urlIndex + 1) % |d.serviceUrls|)
      && (|d.serviceUrls| == 1 ==> t.client.urlIndex == d.urlIndex)
    ensures hb.Response? && hb.status in {StatusOK, StatusNoContent} ==>
      && t.client == d && t.success && t.err == None
      && t.registerCalls == [] && t.sent == [HeartbeatRequest(d)]
    ensures hb.Response? && hb.status == StatusNotFound ==>
      var info := InstanceInfo(d.instanceConf);
      var r := Register(d.eurekaClient, info, serialize, reg);
      && t.registerCalls == [info]
      && t.err == None
      && (t.success <==> serialize(info).Ok? && reg.Response? && reg.status in {StatusOK, StatusNoContent})
      && t.client.isDirty == !t.success
      && ParseInt(t.client.lastDirtyTimestamp) == Some(UnixMillis(nowNanos))
      && t.client.eurekaClient == r.client && t.client.urlIndex == d.urlIndex
      && t.sent == [HeartbeatRequest(d)] + r.sent
    ensures hb.Response? && hb.status !in {StatusOK, StatusNoContent, StatusNotFound} ==>
      && t.client == d && !t.success && t.err == None
      && t.registerCalls == [] && t.sent == [HeartbeatRequest(d)]
  {
    var beat := SendHeartBeat(d.eurekaClient, d.instanceConf.app, d.instanceConf.instanceId, StatusUp,
                              d.lastDirtyTimestamp, "", hb);
    var d1 := d.(eurekaClient := beat.client);
    if beat.err.Some? then
      Tick(d1.RotateIndex(), false, beat.err, [], beat.sent)
    else if beat.value == StatusNoContent || beat.value == StatusOK then
      Tick(d1, true, None, [], beat.sent)
    else if beat.value == StatusNotFound then
      var dirty := SetIsDirty(d1, nowNanos);
      var info := InstanceInfo(dirty.instanceConf);
      var r := Register(dirty.eurekaClient, info, serialize, reg);
      var d2 := dirty.(eurekaClient := r.client);
      Tick(if r.value then UnsetIsDirty(d2) else d2, r.value, None, [info], beat.sent + r.sent)
    else
      Tick(d1, false, None, [], beat.sent)
  }

  // -----------------------------------------------------------------------
  // Status update and reads

  /** What a delegated call returns: the manager's next state beside the
      adapter's answer. */
  datatype Answer<T> = Answer(client: DiscoveryClient, value: T, err: Option<Error>, sent: seq<Request>)

  /** `DiscoveryStatusUpdate`: always about this client's own application
      and instance, with its current dirty time stamp. Only the adapter's
      endpoint can change. */
  function DiscoveryStatusUpdate(d: DiscoveryClient, status: string, o: Outcome): (a: Answer<bool>)
    requires d.Valid()
    ensures a.client.Valid()
    ensures a.client.(eurekaClient := d.eurekaClient) == d
    ensures a.sent == [d.eurekaClient.Req(Put, StatusUpdateUrl(d.eurekaClient.serviceUrl, d.instanceConf.app,
                                          d.instanceConf.instanceId, status, d.lastDirtyTimestamp), [])]
    ensures a.value <==> o.Response? && o.status == StatusOK
    ensures a.err == o.ErrorOf()
    ensures a.client.eurekaClient == (if o.Failed? then d.eurekaClient.HandleError() else d.eurekaClient)
  {
    var r := StatusUpdate(d.eurekaClient, d.instanceConf.app, d.instanceConf.instanceId, status,
                          d.lastDirtyTimestamp, o);
    Answer(d.(eurekaClient := r.client), r.value, r.err, r.sent)
  }

  /** Hands an adapter reply back through the manager. */
  function Relay<T>(d: DiscoveryClient, r: Reply<T>): (a: Answer<T>)
    requires d.Valid() && r.client.Valid() && r.client.serviceUrlList == d.eurekaClient.serviceUrlList
    ensures a.client.Valid()
  {
    Answer(d.(eurekaClient := r.client), r.value, r.err, r.sent)
  }

  /** The manager's reads pass straight through to the adapter: one GET
      of the read's URL on the current endpoint, classified by
      `RequestAndFormatResult`; only the adapter's endpoint can change, and
      only on a transport failure. */
  function GetApplications<T>(d: DiscoveryClient, regions: seq<string>, o: Outcome,
                              decodeJson: Bytes -> Result<T>, decodeXml: Bytes -> Result<T>): (a: Answer<Result<T>>)
    requires d.Valid()
    ensures a.client.Valid() && a.client.(eurekaClient := d.eurekaClient) == d
    ensures a.sent == [d.eurekaClient.Req(Get, ApplicationsUrl(d.eurekaClient.serviceUrl, regions), [])]
    ensures a.client.eurekaClient == (if o.Failed? then d.eurekaClient.HandleError() else d.eurekaClient)
    ensures a.value == RequestAndFormatResult(d.eurekaClient, o, decodeJson, decodeXml).1
    ensures a.err == a.value.ErrorOf()
  {
    var r := EurekaHttp.GetApplications(d.eurekaClient, regions, o, decodeJson, decodeXml);
    EurekaHttpReadKeepsList(d.eurekaClient, o, decodeJson, decodeXml);
    Relay(d, r)
  }

  function GetApplication<T>(d: DiscoveryClient, appName: string, o: Outcome,
                             decodeJson: Bytes -> Result<T>, decodeXml: Bytes -> Result<T>): (a: Answer<Result<T>>)
    requires d.Valid()
    ensures a.client.Valid() && a.client.(eurekaClient := d.eurekaClient) == d
    ensures a.sent == [d.eurekaClient.Req(Get, AppUrl(d.eurekaClient.serviceUrl, appName), [])]
    ensures a.client.eurekaClient == (if o.Failed? then d.eurekaClient.HandleError() else d.eurekaClient)
    ensures a.value == RequestAndFormatResult(d.eurekaClient, o, decodeJson, decodeXml).1
    ensures a.err == a.value.ErrorOf()
  {
    var r := EurekaHttp.GetApplication(d.eurekaClient, appName, o, decodeJson, decodeXml);
    EurekaHttpReadKeepsList(d.eurekaClient, o, decodeJson, decodeXml);
    Relay(d, r)
  }

  function GetInstance<T>(d: DiscoveryClient, appName: string, instanceId: string, o: Outcome,
                          decodeJson: Bytes -> Result<T>, decodeXml: Bytes -> Result<T>): (a: Answer<Result<T>>)
    requires d.Valid()
    ensures a.client.Valid() && a.client.(eurekaClient := d.eurekaClient) == d
    ensures a.sent == [d.eurekaClient.Req(Get, InstanceUrl(d.eurekaClient.serviceUrl, appName, instanceId), [])]
    ensures a.client.eurekaClient == (if o.Failed? then d.eurekaClient.HandleError() else d.eurekaClient)
    ensures a.value == RequestAndFormatResult(d.eurekaClient, o, decodeJson, decodeXml).1
    ensures a.err == a.value.ErrorOf()
  {
    var r := EurekaHttp.GetInstance(d.eurekaClient, appName, instanceId, o, decodeJson, decodeXml);
    EurekaHttpReadKeepsList(d.eurekaClient, o, decodeJson, decodeXml);
    Relay(d, r)
  }

  function GetInstanceById<T>(d: DiscoveryClient, instanceId: string, o: Outcome,
                              decodeJson: Bytes -> Result<T>, decodeXml: Bytes -> Result<T>): (a: Answer<Result<T>>)
    requires d.Valid()
    ensures a.client.Valid() && a.client.(eurekaClient := d.eurekaClient) == d
    ensures a.sent == [d.eurekaClient.Req(Get, InstanceByIdUrl(d.eurekaClient.serviceUrl, instanceId), [])]
    ensures a.client.eurekaClient == (if o.Failed? then d.eurekaClient.HandleError() else d.eurekaClient)
    ensures a.value == RequestAndFormatResult(d.eurekaClient, o, decodeJson, decodeXml).1
    ensures a.err == a.value.ErrorOf()
  {
    var r := EurekaHttp.GetInstanceById(d.eurekaClient, instanceId, o, decodeJson, decodeXml);
    EurekaHttpReadKeepsList(d.eurekaClient, o, decodeJson, decodeXml);
    Relay(d, r)
  }

  lemma EurekaHttpReadKeepsList<T>(c: HttpClient, o: Outcome, decodeJson: Bytes -> Result<T>,
                                   decodeXml: Bytes -> Result<T>)
    requires c.Valid()
    ensures RequestAndFormatResult(c, o, decodeJson, decodeXml).0.serviceUrlList == c.serviceUrlList
  {
  }
}
