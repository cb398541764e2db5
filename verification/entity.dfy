/** Package-level constants of the client (define.go). */
module Define {
  const DefaultLeaseRenewalInterval: int := 30
  const DefaultLeaseDuration: int := 90
  const DefaultHostName: string := "localhost"
  const DefaultDataCenterInfoClass: string := "com.netflix.appinfo.InstanceInfo$DefaultDataCenterInfo"
  const DefaultDataCenterInfoName: string := "MyOwn"

  const ApplicationJsonValue: string := "application/json"
  const ApplicationXmlValue: string := "application/xml"

  const StatusUp: string := "UP"
  const StatusDown: string := "DOWN"
  const StatusStarting: string := "STARTING"
  const StatusOutOfService: string := "OUT_OF_SERVICE"
  const StatusUnknown: string := "UNKNOWN"
}

/** The configuration and the instance record (eureka_entity.go). Go's
    nil-able fields are `Option`s; unset Go fields hold their zero value. */
module Entity {
  import opened Base

  /** What the application hands to the client at start-up. */
  datatype EurekaClientConfig = EurekaClientConfig(
    username: string,
    password: string,
    headerContentType: string,
    serviceUrls: seq<string>,
    registerWithEureka: bool,
    appName: string,
    instanceId: string,
    port: int,
    hostName: string,
    renewalIntervalInSecs: int,
    durationInSecs: int)

  datatype WrapperPort = WrapperPort(port: int, enabled: bool)

  datatype WrapperSecurePort = WrapperSecurePort(port: int, enable: bool)

  datatype WrapperDataCenterInfo = WrapperDataCenterInfo(className: string, name: string)

  datatype WrapperLeaseInfo = WrapperLeaseInfo(
    renewalIntervalInSecs: int,
    durationInSecs: int,
    registrationTimestamp: int,
    lastRenewalTimestamp: int,
    evictionTimestamp: int,
    serviceUpTimestamp: int)

  datatype WrapperMetadata = WrapperMetadata(managementPort: string, jmxPort: string)

  /** The body of a register call: the record wrapped under `instance`. */
  datatype InstanceInfo = InstanceInfo(instance: WrapperInstanceInfo)

  /** The registration payload describing this process to the registry. */
  datatype WrapperInstanceInfo = WrapperInstanceInfo(
    instanceId: string,
    hostName: string,
    app: string,
    ipAddr: string,
    status: string,
    overriddenStatus: string,
    port: Option<WrapperPort>,
    securePort: Option<WrapperSecurePort>,
    countryId: int,
    dataCenterInfo: Option<WrapperDataCenterInfo>,
    leaseInfo: Option<WrapperLeaseInfo>,
    metadata: Option<WrapperMetadata>,
    homePageUrl: string,
    statusPageUrl: string,
    healthCheckUrl: string,
    vipAddress: string,
    secureVipAddress: string,
    isCoordinatingDiscoveryServer: string,
    lastUpdatedTimestamp: string,
    lastDirtyTimestamp: string,
    actionType: string)
}

/** The request/response boundary of http.go. The network call itself is
    not modelled: its answer is an input. */
module Transport {
  import opened Base

  type Bytes = seq<bv8>

  datatype Method = Get | Post | Put | Delete

  /** Everything `handleHttpRequest` is given. */
  datatype Request = Request(
    httpMethod: Method,
    url: string,
    headers: map<string, string>,
    body: Bytes,
    username: string,
    password: string)

  /** What the network answered: a failure before any status arrived, or a
      status code with the body (read only for GET requests). */
  datatype Outcome = Failed(reason: string) | Response(body: Bytes, status: int) {

    /** The status code `handleHttpRequest` returns: zero when it failed
        before a response was available. */
    function StatusCode(): int {
      match this
      case Failed(_) => 0
      case Response(_, status) => status
    }

    /** The `err` that `handleHttpRequest` returns. */
    function ErrorOf(): Option<Error> {
      match this
      case Failed(reason) => Some(TransportError(reason))
      case Response(_, _) => None
    }
  }

  const StatusOK: int := 200
  const StatusNoContent: int := 204
  const StatusNotFound: int := 404
}
