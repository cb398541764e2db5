/** Properties of the registry protocol adapter: the request URLs read back
    into the path segments and query parameters the registry expects, and
    a run of calls moves the active endpoint by the number of transport
    failures it met, modulo the number of endpoints. */
module EurekaHttpProps {
  import opened Base
  import opened Strings
  import opened Transport
  import opened EurekaHttp

  // -----------------------------------------------------------------------
  // Reading a URL back

  /** The part of a URL before its first `?`. */
  function Path(url: string): string {
    match IndexOf(url, '?')
    case None => url
    case Some(i) => url[..i]
  }

  /** The part of a URL after its first `?`, if it has one. */
  function Query(url: string): Option<string> {
    match IndexOf(url, '?')
    case None => None
    case Some(i) => Some(url[i + 1..])
  }

  /** One `key=value` query item, cut at its first `=`. */
  function Param(item: string): (string, string) {
    match IndexOf(item, '=')
    case None => (item, "")
    case Some(i) => (item[..i], item[i + 1..])
  }

  /** The `&`-separated items of a query string, in order. */
  function Params(query: string): seq<(string, string)> {
    var items := Split(query, '&');
    seq(|items|, k requires 0 <= k < |items| => Param(items[k]))
  }

  lemma IndexOfExtend(a: string, t: string, c: char)
    requires IndexOf(a, c).Some?
    ensures IndexOf(a + t, c) == IndexOf(a, c)
    decreases |a|
  {
    if a[0] != c {
      assert (a + t)[1..] == a[1..] + t;
      IndexOfExtend(a[1..], t, c);
    }
  }

  /** Splitting at a separator that was inserted between two texts splits
      each text on its own. */
  lemma {:induction false} SplitConcat(a: string, sep: char, b: string)
    ensures Split(a + [sep] + b, sep) == Split(a, sep) + Split(b, sep)
    decreases |a|
  {
    var s := a + [sep] + b;
    match IndexOf(a, sep)
    case None =>
      FirstSeparator(a, sep, b);
      assert s[..|a|] == a;
      assert s[|a| + 1..] == b;
    case Some(i) =>
      IndexOfExtend(a, [sep] + b, sep);
      assert s == a + ([sep] + b);
      assert s[..i] == a[..i];
      assert s[i + 1..] == a[i + 1..] + [sep] + b;
      SplitConcat(a[i + 1..], sep, b);
  }

  lemma ParamOf(key: string, value: string)
    requires '=' !in key
    ensures Param(key + "=" + value) == (key, value)
  {
    FirstSeparator(key, '=', value);
    assert key + "=" + value == key + ['='] + value;
    assert (key + ['='] + value)[..|key|] == key;
    assert (key + ['='] + value)[|key| + 1..] == value;
  }

  lemma PathAndQuery(path: string, query: string)
    requires '?' !in path
    ensures Path(path + "?" + query) == path
    ensures Query(path + "?" + query) == Some(query)
  {
    FirstSeparator(path, '?', query);
    assert path + "?" + query == path + ['?'] + query;
    assert (path + ['?'] + query)[..|path|] == path;
    assert (path + ['?'] + query)[|path| + 1..] == query;
  }

  lemma {:induction false} JoinAvoids(parts: seq<string>, sep: char, c: char)
    requires c != sep
    requires forall k | 0 <= k < |parts| :: c !in parts[k]
    ensures c !in Join(parts, sep)
    decreases |parts|
  {
    if |parts| > 1 {
      JoinAvoids(parts[1..], sep, c);
    }
  }

  /** Reads the items of a query built from distinct `key=value` pairs. */
  lemma ParamsOfJoin(items: seq<string>, keys: seq<string>, values: seq<string>)
    requires |items| == |keys| == |values| > 0
    requires forall k | 0 <= k < |keys| :: '=' !in keys[k] && '&' !in keys[k] && '&' !in values[k]
    requires forall k | 0 <= k < |items| :: items[k] == keys[k] + "=" + values[k]
    ensures |Params(Join(items, '&'))| == |keys|
    ensures forall k | 0 <= k < |keys| :: Params(Join(items, '&'))[k] == (keys[k], values[k])
  {
    forall k | 0 <= k < |items|
      ensures '&' !in items[k]
    {
      assert items[k] == keys[k] + ['='] + values[k];
    }
    SplitJoin(items, '&');
    forall k | 0 <= k < |items|
      ensures Param(items[k]) == (keys[k], values[k])
    {
      ParamOf(keys[k], values[k]);
    }
  }

  // -----------------------------------------------------------------------
  // URL shapes

  lemma Join2(a: string, b: string, sep: char)
    ensures Join([a, b], sep) == a + [sep] + b
  {
    assert [a, b][1..] == [b];
  }

  lemma Join3(a: string, b: string, c: string, sep: char)
    ensures Join([a, b, c], sep) == a + [sep] + b + [sep] + c
  {
    assert [a, b, c][1..] == [b, c];
    Join2(b, c, sep);
  }

  /** A base followed by `/`-joined segments splits into the base's own
      pieces and then exactly those segments. */
  lemma PathSegments(base: string, segments: seq<string>)
    requires |segments| > 0
    requires forall k | 0 <= k < |segments| :: '/' !in segments[k]
    ensures Split(base + "/" + Join(segments, '/'), '/') == Split(base, '/') + segments
  {
    assert base + "/" + Join(segments, '/') == base + ['/'] + Join(segments, '/');
    SplitConcat(base, '/', Join(segments, '/'));
    SplitJoin(segments, '/');
  }

  lemma SegmentNamesClean()
    ensures '/' !in "apps" && '/' !in "instances"
  {
  }

  /** The path of a per-instance URL is the base path followed by the
      segments `apps`, the application name and the instance id. */
  lemma InstanceUrlSegments(base: string, app: string, id: string)
    requires '/' !in app && '/' !in id
    ensures Split(InstanceUrl(base, app, id), '/') == Split(base, '/') + ["apps", app, id]
  {
    Join3("apps", app, id, '/');
    assert "/apps/" == "/" + "apps" + ['/'];
    assert InstanceUrl(base, app, id) == base + "/" + Join(["apps", app, id], '/');
    SegmentNamesClean();
    PathSegments(base, ["apps", app, id]);
  }

  /** The register and get-application URL ends in the segments `apps` and
      the application name. */
  lemma AppUrlSegments(base: string, app: string)
    requires '/' !in app
    ensures Split(AppUrl(base, app), '/') == Split(base, '/') + ["apps", app]
  {
    Join2("apps", app, '/');
    assert "/apps/" == "/" + "apps" + ['/'];
    assert AppUrl(base, app) == base + "/" + Join(["apps", app], '/');
    SegmentNamesClean();
    PathSegments(base, ["apps", app]);
  }

  /** The instance-by-id URL ends in the segments `instances` and the id. */
  lemma InstanceByIdUrlSegments(base: string, id: string)
    requires '/' !in id
    ensures Split(InstanceByIdUrl(base, id), '/') == Split(base, '/') + ["instances", id]
  {
    Join2("instances", id, '/');
    assert "/instances/" == "/" + "instances" + ['/'];
    assert InstanceByIdUrl(base, id) == base + "/" + Join(["instances", id], '/');
    SegmentNamesClean();
    PathSegments(base, ["instances", id]);
  }

  lemma NoQueryMark(base: string, app: string, id: string)
    requires '?' !in base && '?' !in app && '?' !in id
    ensures '?' !in InstanceUrl(base, app, id)
  {
    assert InstanceUrl(base, app, id) == base + "/apps/" + app + "/" + id;
  }

  lemma QueryKeysClean()
    ensures '=' !in "status" && '&' !in "status"
    ensures '=' !in "value" && '&' !in "value"
    ensures '=' !in "lastDirtyTimestamp" && '&' !in "lastDirtyTimestamp"
    ensures '=' !in "overriddenstatus" && '&' !in "overriddenstatus"
    ensures '=' !in "regions" && '&' !in "regions"
  {
  }

  lemma HeartbeatUrlJoin(base: string, app: string, id: string, status: string,
                         lastDirtyTimestamp: string, overriddenStatus: string)
    ensures var i0 := "status=" + status;
      var i1 := "lastDirtyTimestamp=" + lastDirtyTimestamp;
      var i2 := "overriddenstatus=" + overriddenStatus;
      HeartbeatUrl(base, app, id, status, lastDirtyTimestamp, overriddenStatus)
      == InstanceUrl(base, app, id) + "?" + Join(if overriddenStatus != "" then [i0, i1, i2] else [i0, i1], '&')
  {
    var i0 := "status=" + status;
    var i1 := "lastDirtyTimestamp=" + lastDirtyTimestamp;
    var i2 := "overriddenstatus=" + overriddenStatus;
    var p := InstanceUrl(base, app, id);
    var head := p + "?status=" + status + "&lastDirtyTimestamp=" + lastDirtyTimestamp;
    assert "?status=" == "?" + "status=";
    assert "&lastDirtyTimestamp=" == ['&'] + "lastDirtyTimestamp=";
    Join2(i0, i1, '&');
    assert head == p + "?" + Join([i0, i1], '&');
    if overriddenStatus != "" {
      Join3(i0, i1, i2, '&');
      assert "&overriddenstatus=" == ['&'] + "overriddenstatus=";
      assert head + "&overriddenstatus=" + overriddenStatus == p + "?" + Join([i0, i1, i2], '&');
    }
  }

  lemma HeartbeatUrlQueryPlain(base: string, app: string, id: string, status: string,
                               lastDirtyTimestamp: string)
    requires '?' !in base && '?' !in app && '?' !in id
    requires '&' !in status && '&' !in lastDirtyTimestamp
    ensures var url := HeartbeatUrl(base, app, id, status, lastDirtyTimestamp, "");
      && Path(url) == InstanceUrl(base, app, id)
      && Query(url).Some?
      && Params(Query(url).value) == [("status", status), ("lastDirtyTimestamp", lastDirtyTimestamp)]
  {
    NoQueryMark(base, app, id);
    QueryKeysClean();
    HeartbeatUrlJoin(base, app, id, status, lastDirtyTimestamp, "");
    var items := ["status=" + status, "lastDirtyTimestamp=" + lastDirtyTimestamp];
    PathAndQuery(InstanceUrl(base, app, id), Join(items, '&'));
    ParamsOfJoin(items, ["status", "lastDirtyTimestamp"], [status, lastDirtyTimestamp]);
  }

  lemma HeartbeatUrlQueryOverridden(base: string, app: string, id: string, status: string,
                                    lastDirtyTimestamp: string, overriddenStatus: string)
    requires '?' !in base && '?' !in app && '?' !in id
    requires '&' !in status && '&' !in lastDirtyTimestamp && '&' !in overriddenStatus
    requires overriddenStatus != ""
    ensures var url := HeartbeatUrl(base, app, id, status, lastDirtyTimestamp, overriddenStatus);
      && Path(url) == InstanceUrl(base, app, id)
      && Query(url).Some?
      && Params(Query(url).value)
         == [("status", status), ("lastDirtyTimestamp", lastDirtyTimestamp), ("overriddenstatus", overriddenStatus)]
  {
    NoQueryMark(base, app, id);
    QueryKeysClean();
    HeartbeatUrlJoin(base, app, id, status, lastDirtyTimestamp, overriddenStatus);
    var items := ["status=" + status, "lastDirtyTimestamp=" + lastDirtyTimestamp,
                  "overriddenstatus=" + overriddenStatus];
    PathAndQuery(InstanceUrl(base, app, id), Join(items, '&'));
    ParamsOfJoin(items, ["status", "lastDirtyTimestamp", "overriddenstatus"],
                 [status, lastDirtyTimestamp, overriddenStatus]);
  }

  /** A heartbeat URL addresses the instance and carries `status` and
      `lastDirtyTimestamp`, then `overriddenstatus` exactly when one is
      given, each with its value intact. */
  lemma HeartbeatUrlQuery(base: string, app: string, id: string, status: string,
                          lastDirtyTimestamp: string, overriddenStatus: string)
    requires '?' !in base && '?' !in app && '?' !in id
    requires '&' !in status && '&' !in lastDirtyTimestamp && '&' !in overriddenStatus
    ensures Path(HeartbeatUrl(base, app, id, status, lastDirtyTimestamp, overriddenStatus))
            == InstanceUrl(base, app, id)
    ensures var q := Query(HeartbeatUrl(base, app, id, status, lastDirtyTimestamp, overriddenStatus));
      && q.Some?
      && Params(q.value) == [("status", status), ("lastDirtyTimestamp", lastDirtyTimestamp)]
                            + (if overriddenStatus != "" then [("overriddenstatus", overriddenStatus)] else [])
  {
    if overriddenStatus != "" {
      HeartbeatUrlQueryOverridden(base, app, id, status, lastDirtyTimestamp, overriddenStatus);
    } else {
      HeartbeatUrlQueryPlain(base, app, id, status, lastDirtyTimestamp);
    }
  }

  lemma StatusUpdateUrlJoin(base: string, app: string, id: string, status: string,
                            lastDirtyTimestamp: string)
    ensures StatusUpdateUrl(base, app, id, status, lastDirtyTimestamp)
      == InstanceUrl(base, app, id) + "/status" + "?"
         + Join(["value=" + status, "lastDirtyTimestamp=" + lastDirtyTimestamp], '&')
  {
    Join2("value=" + status, "lastDirtyTimestamp=" + lastDirtyTimestamp, '&');
    assert "/status?value=" == "/status" + "?" + "value=";
    assert "&lastDirtyTimestamp=" == ['&'] + "lastDirtyTimestamp=";
  }

  /** A status-update URL addresses the instance's `status` sub-resource
      and carries `value` and `lastDirtyTimestamp`. */
  lemma StatusUpdateUrlQuery(base: string, app: string, id: string, status: string,
                             lastDirtyTimestamp: string)
    requires '?' !in base && '?' !in app && '?' !in id
    requires '&' !in status && '&' !in lastDirtyTimestamp
    ensures Path(StatusUpdateUrl(base, app, id, status, lastDirtyTimestamp))
            == InstanceUrl(base, app, id) + "/status"
    ensures var q := Query(StatusUpdateUrl(base, app, id, status, lastDirtyTimestamp));
      q.Some? && Params(q.value) == [("value", status), ("lastDirtyTimestamp", lastDirtyTimestamp)]
  {
    NoQueryMark(base, app, id);
    QueryKeysClean();
    StatusUpdateUrlJoin(base, app, id, status, lastDirtyTimestamp);
    var p := InstanceUrl(base, app, id) + "/status";
    assert '?' !in "/status";
    var items := ["value=" + status, "lastDirtyTimestamp=" + lastDirtyTimestamp];
    PathAndQuery(p, Join(items, '&'));
    ParamsOfJoin(items, ["value", "lastDirtyTimestamp"], [status, lastDirtyTimestamp]);
  }

  lemma SingleJoin(x: string, sep: char)
    ensures Join([x], sep) == x
  {
  }

  lemma ApplicationsUrlRegions(base: string, regions: seq<string>)
    requires |regions| > 0
    ensures ApplicationsUrl(base, regions) == base + "/apps/" + "?regions=" + Join(regions, ',')
  {
  }

  lemma RegionsQueryMark(p: string, v: string)
    ensures p + "?regions=" + v == p + "?" + ("regions=" + v)
  {
    assert "?regions=" == "?" + "regions=";
  }

  lemma ApplicationsUrlJoin(base: string, regions: seq<string>)
    requires |regions| > 0
    ensures ApplicationsUrl(base, regions)
            == base + "/apps/" + "?" + Join(["regions=" + Join(regions, ',')], '&')
  {
    ApplicationsUrlRegions(base, regions);
    RegionsQueryMark(base + "/apps/", Join(regions, ','));
    SingleJoin("regions=" + Join(regions, ','), '&');
  }

  lemma RegionsParam(v: string)
    requires '&' !in v
    ensures Params("regions=" + v) == [("regions", v)]
  {
    QueryKeysClean();
    SingleJoin("regions=" + v, '&');
    ParamsOfJoin(["regions=" + v], ["regions"], [v]);
  }

  lemma ApplicationsUrlWithoutRegions(base: string)
    requires '?' !in base
    ensures Path(ApplicationsUrl(base, [])) == base + "/apps/"
    ensures Query(ApplicationsUrl(base, [])).None?
  {
    var p := base + "/apps/";
    assert '?' !in "/apps/";
    assert '?' !in p;
    assert IndexOf(p, '?').None?;
  }

  lemma ApplicationsUrlWithRegions(base: string, regions: seq<string>)
    requires '?' !in base && |regions| > 0
    requires forall k | 0 <= k < |regions| :: '&' !in regions[k]
    ensures Path(ApplicationsUrl(base, regions)) == base + "/apps/"
    ensures Query(ApplicationsUrl(base, regions)) == Some("regions=" + Join(regions, ','))
  {
    var p := base + "/apps/";
    assert '?' !in "/apps/";
    assert '?' !in p;
    var v := Join(regions, ',');
    ApplicationsUrlJoin(base, regions);
    SingleJoin("regions=" + v, '&');
    PathAndQuery(p, "regions=" + v);
  }

  /** The all-applications URL has no query when no region is asked for;
      otherwise its one `regions` parameter lists the regions, which split
      back at the commas into the requested list. */
  lemma ApplicationsUrlQuery(base: string, regions: seq<string>)
    requires '?' !in base
    requires forall k | 0 <= k < |regions| :: ',' !in regions[k] && '&' !in regions[k]
    ensures Path(ApplicationsUrl(base, regions)) == base + "/apps/"
    ensures |regions| == 0 <==> Query(ApplicationsUrl(base, regions)).None?
    ensures |regions| > 0 ==>
      var q := Query(ApplicationsUrl(base, regions));
      && q.Some?
      && Params(q.value) == [("regions", Join(regions, ','))]
      && Split(Params(q.value)[0].1, ',') == regions
  {
    if |regions| > 0 {
      ApplicationsUrlWithRegions(base, regions);
      JoinAvoids(regions, ',', '&');
      RegionsParam(Join(regions, ','));
      SplitJoin(regions, ',');
    } else {
      ApplicationsUrlWithoutRegions(base);
    }
  }

  // -----------------------------------------------------------------------
  // Endpoint rotation over a run of calls

  /** The adapter after a run of calls answered by `outcomes`, in order. */
  function AfterCalls(c: HttpClient, outcomes: seq<Outcome>): (c': HttpClient)
    requires c.Valid()
    ensures c'.Valid()
    decreases |outcomes|
  {
    if |outcomes| == 0 then c
    else AfterCalls(c, outcomes[..|outcomes| - 1]).AfterCall(outcomes[|outcomes| - 1])
  }

  /** How many of the calls failed at the transport. */
  function Failures(outcomes: seq<Outcome>): nat
    decreases |outcomes|
  {
    if |outcomes| == 0 then 0
    else Failures(outcomes[..|outcomes| - 1]) + (if outcomes[|outcomes| - 1].Failed? then 1 else 0)
  }

  /** Euclidean division leaves the one remainder in [0, m). */
  lemma ModUnique(x: int, m: int, q: int, r: int)
    requires m > 0 && 0 <= r < m && x == q * m + r
    ensures x % m == r
  {
    var q0 := x / m;
    var k := q - q0;
    assert k * m == x % m - r by {
      assert q * m - q0 * m == (q - q0) * m;
    }
    MulSmall(k, m);
  }

  lemma MulSmall(k: int, m: int)
    requires m > 0 && -m < k * m < m
    ensures k == 0
  {
    if k > 0 {
      MulAtLeast(k, m);
    } else if k < 0 {
      MulAtLeast(-k, m);
    }
  }

  lemma MulAtLeast(k: int, m: int)
    requires k >= 1 && m > 0
    ensures k * m >= m
  {
  }

  lemma ModSucc(x: int, m: int)
    requires m > 0
    ensures ((x % m) + 1) % m == (x + 1) % m
  {
    var q := x / m;
    var r := x % m;
    if r + 1 < m {
      ModUnique(r + 1, m, 0, r + 1);
      ModUnique(x + 1, m, q, r + 1);
    } else {
      ModUnique(r + 1, m, 1, 0);
      ModUnique(x + 1, m, q + 1, 0);
    }
  }

  /** One more step round a ring of `m` after `n` steps is `n + 1` steps. */
  lemma RotateOnce(start: int, n: nat, total: nat, m: int, prev: int, next: int)
    requires m > 0 && total == n + 1 && prev == (start + n) % m && next == (prev + 1) % m
    ensures next == (start + total) % m
  {
    ModSucc(start + n, m);
  }

  lemma RotateNone(start: int, total: nat, m: int)
    requires 0 <= start < m && total == 0
    ensures start == (start + total) % m
  {
    ModUnique(start, m, 0, start);
  }

  /** A run of calls only ever moves the active endpoint, and moves it by
      one per transport failure, wrapping round the list; with a single
      endpoint it never moves. */
  lemma {:induction false} AfterCallsRotation(c: HttpClient, outcomes: seq<Outcome>)
    requires c.Valid()
    ensures var c' := AfterCalls(c, outcomes);
      && c'.(urlIndex := c.urlIndex, serviceUrl := c.serviceUrl) == c
      && (|c.serviceUrlList| > 1 ==> c'.urlIndex == (c.urlIndex + Failures(outcomes)) % |c.serviceUrlList|)
      && (|c.serviceUrlList| == 1 ==> c' == c)
    decreases |outcomes|
  {
    var m := |c.serviceUrlList|;
    if |outcomes| > 0 {
      var init := outcomes[..|outcomes| - 1];
      AfterCallsRotation(c, init);
      if m > 1 && outcomes[|outcomes| - 1].Failed? {
        RotateOnce(c.urlIndex, Failures(init), Failures(outcomes), m,
                   AfterCalls(c, init).urlIndex, AfterCalls(c, outcomes).urlIndex);
      }
    } else if m > 1 {
      RotateNone(c.urlIndex, Failures(outcomes), m);
    }
  }

  /** N transport failures in a row against M > 1 endpoints move the index
      from i to (i + N) mod M. */
  lemma ConsecutiveFailures(c: HttpClient, outcomes: seq<Outcome>)
    requires c.Valid() && |c.serviceUrlList| > 1
    requires forall k | 0 <= k < |outcomes| :: outcomes[k].Failed?
    ensures AfterCalls(c, outcomes).urlIndex == (c.urlIndex + |outcomes|) % |c.serviceUrlList|
  {
    AllFailed(outcomes);
    AfterCallsRotation(c, outcomes);
  }

  lemma {:induction false} AllFailed(outcomes: seq<Outcome>)
    requires forall k | 0 <= k < |outcomes| :: outcomes[k].Failed?
    ensures Failures(outcomes) == |outcomes|
    decreases |outcomes|
  {
    if |outcomes| > 0 {
      AllFailed(outcomes[..|outcomes| - 1]);
    }
  }

  lemma {:induction false} NoneFailed(outcomes: seq<Outcome>)
    requires forall k | 0 <= k < |outcomes| :: outcomes[k].Response?
    ensures Failures(outcomes) == 0
    decreases |outcomes|
  {
    if |outcomes| > 0 {
      NoneFailed(outcomes[..|outcomes| - 1]);
    }
  }

  /** Calls that all received a status code leave the adapter as it was. */
  lemma AnsweredCallsNeverRotate(c: HttpClient, outcomes: seq<Outcome>)
    requires c.Valid()
    requires forall k | 0 <= k < |outcomes| :: outcomes[k].Response?
    ensures AfterCalls(c, outcomes) == c
  {
    NoneFailed(outcomes);
    AfterCallsRotation(c, outcomes);
  }
}
