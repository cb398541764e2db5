/** Properties of the lifecycle manager over runs of heartbeat ticks: what
    the dirty mark and its time stamp are after any run, how transport
    failures move both rotation counters, that acknowledged heartbeats
    change nothing, and what every heartbeat and status update reports. */
module DiscoveryProps {
  import opened Base
  import opened Strings
  import opened Define
  import opened Entity
  import opened Transport
  import opened EurekaHttp
  import opened EurekaHttpProps
  import opened Discovery

  /** What the outside world supplies for one tick: the heartbeat's answer,
      the answer to a re-registration if one is made, and the clock. */
  datatype TickInput = TickInput(heartbeat: Outcome, reregister: Outcome, nowNanos: int)

  /** The manager's state after the ticks in `inputs`, in order. */
  function RunTicks(d: DiscoveryClient, inputs: seq<TickInput>, serialize: InstanceInfo -> Result<Bytes>)
    : (d': DiscoveryClient)
    requires d.Valid()
    ensures d'.Valid()
    ensures d'.instanceConf == d.instanceConf && d'.serviceUrls == d.serviceUrls
    decreases |inputs|
  {
    if |inputs| == 0 then d
    else
      var prev := RunTicks(d, inputs[..|inputs| - 1], serialize);
      var last := inputs[|inputs| - 1];
      SendHeartbeat(prev, last.heartbeat, last.reregister, serialize, last.nowNanos).client
  }

  predicate IsEviction(input: TickInput) {
    input.heartbeat.Response? && input.heartbeat.status == StatusNotFound
  }

  /** Whether the registry took the re-registration made on `input`. */
  predicate ReregisterAccepted(input: TickInput, info: InstanceInfo, serialize: InstanceInfo -> Result<Bytes>) {
    serialize(info).Ok? && input.reregister.Response?
    && input.reregister.status in {StatusOK, StatusNoContent}
  }

  /** The last tick whose heartbeat was answered 404, if any. */
  function LastEviction(inputs: seq<TickInput>): (r: Option<TickInput>)
    ensures r.Some? ==> IsEviction(r.value)
    decreases |inputs|
  {
    if |inputs| == 0 then None
    else if IsEviction(inputs[|inputs| - 1]) then Some(inputs[|inputs| - 1])
    else LastEviction(inputs[..|inputs| - 1])
  }

  /** After any run, the dirty mark and its time stamp are decided by the
      last eviction alone: dirty exactly when its re-registration was
      refused, stamped with that tick's clock. With no eviction they are
      as before. */
  lemma {:induction false} DirtyStateAfterRun(d: DiscoveryClient, inputs: seq<TickInput>,
                                               serialize: InstanceInfo -> Result<Bytes>)
    requires d.Valid()
    ensures var d' := RunTicks(d, inputs, serialize);
      match LastEviction(inputs)
      case None => d'.isDirty == d.isDirty && d'.lastDirtyTimestamp == d.lastDirtyTimestamp
      case Some(t) =>
        && d'.isDirty == !ReregisterAccepted(t, InstanceInfo(d.instanceConf), serialize)
        && ParseInt(d'.lastDirtyTimestamp) == Some(UnixMillis(t.nowNanos))
    decreases |inputs|
  {
    if |inputs| > 0 {
      DirtyStateAfterRun(d, inputs[..|inputs| - 1], serialize);
    }
  }

  /** A heartbeat sent at one clock reading and a later eviction: the new
      dirty stamp is never earlier than the old one. */
  lemma DirtyStampNeverGoesBack(d: DiscoveryClient, hb: Outcome, reg: Outcome,
                                serialize: InstanceInfo -> Result<Bytes>, before: int, nowNanos: int)
    requires d.Valid()
    requires ParseInt(d.lastDirtyTimestamp) == Some(UnixMillis(before)) && before <= nowNanos
    ensures var t := SendHeartbeat(d, hb, reg, serialize, nowNanos);
      exists ms :: ParseInt(t.client.lastDirtyTimestamp) == Some(ms) && UnixMillis(before) <= ms
  {
    var t := SendHeartbeat(d, hb, reg, serialize, nowNanos);
    UnixMillisMonotonic(before, nowNanos);
    if hb.Response? && hb.status == StatusNotFound {
      assert ParseInt(t.client.lastDirtyTimestamp) == Some(UnixMillis(nowNanos));
    } else {
      assert ParseInt(t.client.lastDirtyTimestamp) == Some(UnixMillis(before));
    }
  }

  /** A run ends with the state its last tick leaves. */
  lemma {:induction false} RunTicksLast(d: DiscoveryClient, inputs: seq<TickInput>,
                                        serialize: InstanceInfo -> Result<Bytes>)
    requires d.Valid() && |inputs| > 0
    ensures var last := inputs[|inputs| - 1];
      RunTicks(d, inputs, serialize)
        == SendHeartbeat(RunTicks(d, inputs[..|inputs| - 1], serialize), last.heartbeat,
                         last.reregister, serialize, last.nowNanos).client
  {
  }

  /** One heartbeat that fails at the transport against M > 1 endpoints
      advances both indices by one modulo M and leaves the dirty state
      alone. */
  lemma FailedTickStep(d: DiscoveryClient, input: TickInput, serialize: InstanceInfo -> Result<Bytes>)
    requires d.Valid() && |d.serviceUrls| > 1 && input.heartbeat.Failed?
    ensures var d' := SendHeartbeat(d, input.heartbeat, input.reregister, serialize, input.nowNanos).client;
      && d'.eurekaClient.urlIndex == (d.eurekaClient.urlIndex + 1) % |d.serviceUrls|
      && d'.urlIndex == (d.urlIndex + 1) % |d.serviceUrls|
      && d'.isDirty == d.isDirty && d'.lastDirtyTimestamp == d.lastDirtyTimestamp
  {
  }

  /** The same step seen at the end of a run. */
  lemma {:induction false} FailedRunStep(d: DiscoveryClient, inputs: seq<TickInput>, serialize: InstanceInfo -> Result<Bytes>)
    requires d.Valid() && |d.serviceUrls| > 1
    requires |inputs| > 0 && inputs[|inputs| - 1].heartbeat.Failed?
    ensures RunTicks(d, inputs, serialize).eurekaClient.urlIndex
            == (RunTicks(d, inputs[..|inputs| - 1], serialize).eurekaClient.urlIndex + 1) % |d.serviceUrls|
  {
    RunTicksLast(d, inputs, serialize);
    FailedTickStep(RunTicks(d, inputs[..|inputs| - 1], serialize), inputs[|inputs| - 1], serialize);
  }

  /** N heartbeats that all fail at the transport against M > 1 endpoints
      advance the adapter's endpoint index by N modulo M: every failure
      moves the next request to the next registry. */
  lemma {:induction false} FailedTicksRotate(d: DiscoveryClient, inputs: seq<TickInput>,
                                              serialize: InstanceInfo -> Result<Bytes>)
    requires d.Valid() && |d.serviceUrls| > 1
    requires forall k | 0 <= k < |inputs| :: inputs[k].heartbeat.Failed?
    ensures RunTicks(d, inputs, serialize).eurekaClient.urlIndex
              == (d.eurekaClient.urlIndex + |inputs|) % |d.serviceUrls|
    decreases |inputs|
  {
    var m := |d.serviceUrls|;
    if |inputs| > 0 {
      var init := inputs[..|inputs| - 1];
      FailedTicksRotate(d, init, serialize);
      FailedRunStep(d, inputs, serialize);
      RotateOnce(d.eurekaClient.urlIndex, |init|, |inputs|, m,
                 RunTicks(d, init, serialize).eurekaClient.urlIndex,
                 RunTicks(d, inputs, serialize).eurekaClient.urlIndex);
    } else {
      assert RunTicks(d, inputs, serialize) == d;
      RotateNone(d.eurekaClient.urlIndex, |inputs|, m);
    }
  }

  /** Heartbeats that are all acknowledged with 200 or 204 change nothing:
      no rotation, no dirty mark, no re-registration. */
  lemma {:induction false} AcknowledgedTicksChangeNothing(d: DiscoveryClient, inputs: seq<TickInput>,
                                                          serialize: InstanceInfo -> Result<Bytes>)
    requires d.Valid()
    requires forall k | 0 <= k < |inputs| ::
      inputs[k].heartbeat.Response? && inputs[k].heartbeat.status in {StatusOK, StatusNoContent}
    ensures RunTicks(d, inputs, serialize) == d
    decreases |inputs|
  {
    if |inputs| > 0 {
      AcknowledgedTicksChangeNothing(d, inputs[..|inputs| - 1], serialize);
    }
  }

  /** Every heartbeat addresses this instance and reports status UP with
      the current dirty stamp and no overridden status. */
  lemma HeartbeatReportsUp(d: DiscoveryClient, hb: Outcome, reg: Outcome,
                           serialize: InstanceInfo -> Result<Bytes>, nowNanos: int)
    requires d.Valid()
    requires '?' !in d.eurekaClient.serviceUrl && '?' !in d.instanceConf.app && '?' !in d.instanceConf.instanceId
    requires '&' !in d.lastDirtyTimestamp
    ensures var url := SendHeartbeat(d, hb, reg, serialize, nowNanos).sent[0].url;
      && Path(url) == InstanceUrl(d.eurekaClient.serviceUrl, d.instanceConf.app, d.instanceConf.instanceId)
      && Query(url).Some?
      && Params(Query(url).value) == [("status", StatusUp), ("lastDirtyTimestamp", d.lastDirtyTimestamp)]
  {
    assert '&' !in StatusUp;
    HeartbeatUrlQueryPlain(d.eurekaClient.serviceUrl, d.instanceConf.app, d.instanceConf.instanceId,
                           StatusUp, d.lastDirtyTimestamp);
  }

  /** A status update always addresses this client's own instance and
      carries its current dirty stamp. */
  lemma StatusUpdateTargetsSelf(d: DiscoveryClient, status: string, o: Outcome)
    requires d.Valid()
    requires '?' !in d.eurekaClient.serviceUrl && '?' !in d.instanceConf.app && '?' !in d.instanceConf.instanceId
    requires '&' !in status && '&' !in d.lastDirtyTimestamp
    ensures var url := DiscoveryStatusUpdate(d, status, o).sent[0].url;
      && Path(url) == InstanceUrl(d.eurekaClient.serviceUrl, d.instanceConf.app, d.instanceConf.instanceId) + "/status"
      && Query(url).Some?
      && Params(Query(url).value) == [("value", status), ("lastDirtyTimestamp", d.lastDirtyTimestamp)]
  {
    StatusUpdateUrlQuery(d.eurekaClient.serviceUrl, d.instanceConf.app, d.instanceConf.instanceId,
                         status, d.lastDirtyTimestamp);
  }

  // -----------------------------------------------------------------------
  // Scenarios

  function ScenarioConfig(urls: seq<string>): EurekaClientConfig {
    EurekaClientConfig(
      username := "", password := "", headerContentType := "", serviceUrls := urls,
      registerWithEureka := true, appName := "orders", instanceId := "orders-1", port := 8080,
      hostName := "", renewalIntervalInSecs := 0, durationInSecs := 0)
  }

  /** Start-up against `http://a` and `http://b/`, the registry accepting
      the registration with 204: registered, heartbeat started, trailing
      slashes trimmed (in the caller's configuration too), the first
      endpoint in use, the record clean. */
  lemma ScenarioStartup(serialize: InstanceInfo -> Result<Bytes>)
    requires forall info :: serialize(info).Ok?
    ensures var s := NewDiscoveryClient(ScenarioConfig(["http://a", "http://b/"]), "10.0.0.7", 0,
                                        serialize, Response([], StatusNoContent));
      && s.registered && s.heartbeatStarted && s.err == None && s.client.Some?
      && s.client.value.serviceUrls == ["http://a", "http://b"]
      && s.callerConf.serviceUrls == ["http://a", "http://b"]
      && s.client.value.eurekaClient.urlIndex == 0
      && s.client.value.instanceConf.app == "orders"
      && s.client.value.instanceConf.instanceId == "orders-1"
      && !s.client.value.isDirty
  {
    assert TrimRight("http://a", '/') == "http://a";
    assert TrimRight("http://b/", '/') == "http://b";
  }

  /** With `http://a` in use, a heartbeat that fails at the transport
      moves the client to `http://b`. */
  lemma ScenarioFailover(d: DiscoveryClient, serialize: InstanceInfo -> Result<Bytes>)
    requires d.Valid() && d.serviceUrls == ["http://a", "http://b"] && d.eurekaClient.urlIndex == 0
    ensures var t := SendHeartbeat(d, Failed("connection refused"), Response([], StatusOK), serialize, 5000000000);
      && !t.success && t.err == Some(TransportError("connection refused"))
      && t.client.eurekaClient.serviceUrl == "http://b"
      && t.client.instanceConf == d.instanceConf && t.client.isDirty == d.isDirty
  {
  }

  /** With `http://b` in use, a heartbeat answered 404 re-registers the
      instance, and the registry accepting it leaves the record clean,
      stamped 7000 ms. */
  lemma ScenarioReregister(d: DiscoveryClient, serialize: InstanceInfo -> Result<Bytes>)
    requires forall info :: serialize(info).Ok?
    requires d.Valid()
    ensures var t := SendHeartbeat(d, Response([], StatusNotFound), Response([], StatusOK), serialize, 7000000000);
      && t.success && !t.client.isDirty
      && t.registerCalls == [InstanceInfo(d.instanceConf)]
      && ParseInt(t.client.lastDirtyTimestamp) == Some(7000)
  {
    SevenSeconds();
  }

  lemma SevenSeconds()
    ensures UnixMillis(7000000000) == 7000
  {
  }

  /** ... and the re-registration is a POST to `http://b/apps/orders`. */
  lemma ScenarioReregisterTarget(d: DiscoveryClient, serialize: InstanceInfo -> Result<Bytes>)
    requires forall info :: serialize(info).Ok?
    requires d.Valid() && d.eurekaClient.serviceUrl == "http://b" && d.instanceConf.app == "orders"
    ensures var t := SendHeartbeat(d, Response([], StatusNotFound), Response([], StatusOK), serialize, 7000000000);
      |t.sent| == 2 && t.sent[1] == d.eurekaClient.Req(Post, "http://b/apps/orders", serialize(InstanceInfo(d.instanceConf)).value)
  {
    OrdersAppUrl();
  }

  lemma OrdersAppUrl()
    ensures AppUrl("http://b", "orders") == "http://b/apps/orders"
  {
  }

  /** The three steps in order: start-up, a failed heartbeat that fails
      over to `http://b`, and an eviction there answered by an accepted
      re-registration. */
  lemma FailoverThenReregister(serialize: InstanceInfo -> Result<Bytes>)
    requires forall info :: serialize(info).Ok?
    ensures var s := NewDiscoveryClient(ScenarioConfig(["http://a", "http://b/"]), "10.0.0.7", 0,
                                        serialize, Response([], StatusNoContent));
      && s.registered && s.client.Some?
      && var t1 := SendHeartbeat(s.client.value, Failed("connection refused"), Response([], StatusOK),
                                 serialize, 5000000000);
      && t1.client.eurekaClient.serviceUrl == "http://b"
      && var t2 := SendHeartbeat(t1.client, Response([], StatusNotFound), Response([], StatusOK),
                                 serialize, 7000000000);
      && t2.success && !t2.client.isDirty
      && t2.registerCalls == [InstanceInfo(s.client.value.instanceConf)]
      && t2.sent[1].url == "http://b/apps/orders"
  {
    ScenarioStartup(serialize);
    var s := NewDiscoveryClient(ScenarioConfig(["http://a", "http://b/"]), "10.0.0.7", 0,
                                serialize, Response([], StatusNoContent));
    ScenarioFailover(s.client.value, serialize);
    var t1 := SendHeartbeat(s.client.value, Failed("connection refused"), Response([], StatusOK),
                            serialize, 5000000000);
    ScenarioReregister(t1.client, serialize);
    ScenarioReregisterTarget(t1.client, serialize);
  }

  /** Start-up with a missing instance id: a parameter error, and nothing
      is registered, sent or started. */
  lemma MissingInstanceIdRejected(serialize: InstanceInfo -> Result<Bytes>, reg: Outcome)
    ensures var s := NewDiscoveryClient(ScenarioConfig(["http://a"]).(instanceId := ""), "", 0, serialize, reg);
      && s.err == Some(ParameterError) && s.client.None? && !s.registered
      && s.registerCalls == [] && s.sent == [] && !s.heartbeatStarted
  {
  }
}
