/** `buildTopRoutesRequest`: checks the route options and builds the
    TopRoutes query. The output-format check, the resolution of the resource
    argument and the final conversion of the query parameters are done by
    helpers outside this model; their outcomes are parameters here. */
module RouteRequest {
  import opened Wrappers

  /** The options of `linkerd routes` that reach the request. */
  datatype RoutesOptions = RoutesOptions(
    namespace: string,
    timeWindow: string,
    toService: string,
    toServiceNamespace: string,
    toAll: bool,
    toExternal: string)

  /** A resolved resource argument. */
  datatype Resource = Resource(namespace: string, resourceType: string, name: string)

  /** Where the queried traffic goes. `--to-external` shares the `ToService`
      variant with `--to-service`: both end up in the request's one
      destination-name field. */
  datatype Destination = NoDestination | ToService(name: string) | ToAll

  datatype RequestError =
    | InvalidOutputFormat(reason: string)
    | InvalidTarget(reason: string)
    | ExternalWithService
    | AllWithDestination
    | InvalidRequest(reason: string)

  /** The message each failure reports. */
  function ErrorMessage(e: RequestError): string
  {
    match e
    case InvalidOutputFormat(reason) => reason
    case InvalidTarget(reason) => reason
    case ExternalWithService => "\"--to-external\" and \"--to-service\" are mutually exclusive"
    case AllWithDestination => "\"--to-all\" cannot be used with \"--to-service\" or \"--to-external\""
    case InvalidRequest(reason) => reason
  }

  /** The fields of the TopRoutes query. The namespace is the one given by
      `--namespace`, not the resolved resource's. */
  datatype Request = Request(
    timeWindow: string,
    resourceName: string,
    resourceType: string,
    namespace: string,
    toService: string,
    toAll: bool)

  const ClusterDomainSuffix: string := ".svc.cluster.local"

  /** The fully qualified name of a service in a namespace. */
  function QualifiedService(service: string, namespace: string): (name: string)
    ensures |name| == |service| + 1 + |namespace| + |ClusterDomainSuffix|
    ensures name[..|service|] == service
    ensures name[|service|..|service| + 1] == "."
    ensures name[|service| + 1..|service| + 1 + |namespace|] == namespace
    ensures name[|name| - |ClusterDomainSuffix|..] == ClusterDomainSuffix
    ensures name != ""
  {
    service + "." + namespace + ClusterDomainSuffix
  }

  /** The namespace `--to-service` is looked up in: `--to-service-namespace`
      when given, the command's `--namespace` otherwise. */
  function ToServiceNamespace(o: RoutesOptions): string
  {
    if o.toServiceNamespace != "" then o.toServiceNamespace else o.namespace
  }

  /** The destination-filter part of `buildTopRoutesRequest`, step by step as
      the command does it: qualify `--to-service`, reject it together with
      `--to-external`, let `--to-external` take its place, reject either
      together with `--to-all`. */
  function DestinationFilter(o: RoutesOptions): (r: Result<Destination, RequestError>)
    ensures r == Failure(ExternalWithService) <==> o.toService != "" && o.toExternal != ""
    ensures (r == Failure(AllWithDestination))
            <==> (o.toAll && (o.toService != "" || o.toExternal != "") && !(o.toService != "" && o.toExternal != ""))
    ensures r.Success? <==> !(o.toService != "" && o.toExternal != "") && !(o.toAll && (o.toService != "" || o.toExternal != ""))
    ensures r.Success? && o.toService != "" ==> r.value == ToService(QualifiedService(o.toService, ToServiceNamespace(o)))
    ensures r.Success? && o.toExternal != "" ==> r.value == ToService(o.toExternal)
    ensures r.Success? && o.toAll ==> r.value == ToAll
    ensures r.Success? && o.toService == "" && o.toExternal == "" && !o.toAll ==> r.value == NoDestination
  {
    var toService :=
      if o.toService != "" then QualifiedService(o.toService, ToServiceNamespace(o)) else "";
    if o.toExternal != "" && toService != "" then Failure(ExternalWithService)
    else
      var toService := if o.toExternal != "" then o.toExternal else toService;
      if toService != "" && o.toAll then Failure(AllWithDestination)
      else if toService != "" then Success(ToService(toService))
      else if o.toAll then Success(ToAll)
      else Success(NoDestination)
  }

  /** `--to-service-namespace` has no effect without `--to-service`. */
  lemma ToServiceNamespaceNeedsToService(o: RoutesOptions, ns: string)
    requires o.toService == ""
    ensures DestinationFilter(o.(toServiceNamespace := ns)) == DestinationFilter(o)
  {
  }

  /** The query parameters for a resolved resource and an accepted
      destination filter. */
  function RequestParams(t: Resource, dest: Destination, o: RoutesOptions): Request
  {
    Request(o.timeWindow, t.name, t.resourceType, o.namespace,
            if dest.ToService? then dest.name else "", dest.ToAll?)
  }

  /** `buildTopRoutesRequest`: an output-format failure comes first, then a
      resource-resolution failure, then a conflicting destination filter,
      then a failure of the helper that turns the parameters into the query
      (`paramsError` gives that helper's error for given parameters, if any).
      Otherwise the parameters name the resolved resource in the command's
      namespace and carry the one selected destination. */
  function BuildTopRoutesRequest(formatError: Option<string>, target: Result<Resource, string>, o: RoutesOptions,
                                 paramsError: Request -> Option<string>)
    : (r: Result<Request, RequestError>)
    ensures formatError.Some? ==> r == Failure(InvalidOutputFormat(formatError.value))
    ensures formatError.None? && target.Failure? ==> r == Failure(InvalidTarget(target.error))
    ensures formatError.None? && target.Success? && DestinationFilter(o).Failure? ==> r == Failure(DestinationFilter(o).error)
    ensures formatError.None? && target.Success? && DestinationFilter(o).Success? ==>
              var p := RequestParams(target.value, DestinationFilter(o).value, o);
              && (r.Success? <==> paramsError(p).None?)
              && (r.Failure? ==> r.error == InvalidRequest(paramsError(p).value))
              && (r.Success? ==> r.value == p)
    ensures r.Success? ==> formatError.None? && target.Success? && DestinationFilter(o).Success?
    ensures r.Success? ==>
              && r.value.timeWindow == o.timeWindow
              && r.value.resourceName == target.value.name
              && r.value.resourceType == target.value.resourceType
              && r.value.namespace == o.namespace
              && !(r.value.toAll && r.value.toService != "")
              && (r.value.toAll <==> DestinationFilter(o).value == ToAll)
              && (r.value.toService != "" <==> DestinationFilter(o).value.ToService?)
              && (DestinationFilter(o).value.ToService? ==> r.value.toService == DestinationFilter(o).value.name)
  {
    if formatError.Some? then Failure(InvalidOutputFormat(formatError.value))
    else if target.Failure? then Failure(InvalidTarget(target.error))
    else
      match DestinationFilter(o)
      case Failure(e) => Failure(e)
      case Success(dest) =>
        var p := RequestParams(target.value, dest, o);
        match paramsError(p)
        case Some(reason) => Failure(InvalidRequest(reason))
        case None => Success(p)
  }
}
