/**
 * `planRouteWithExclusions`: builds the routing request (locations,
 * fixed costing, optional exclusion rings), and turns the routing
 * engine's reply into the route the map draws, or null.
 */
module RouteWithObstacles {
  import opened Wrappers
  import opened Geo
  import Seqs
  import opened ExclusionRings

  /** One entry of the request's `locations`. */
  datatype Location = Location(lon: real, lat: real)

  /** The JSON request body sent to the routing proxy. */
  datatype RouteRequest = RouteRequest(
    locations: seq<Location>,
    costing: string,
    alternates: int,
    costingOptions: map<string, map<string, string>>,
    excludePolygons: Option<seq<seq<Position>>>)

  /** The routing engine's reply, as far as it is read: `trip.legs[i].shape`. */
  datatype Leg = Leg(shape: string)
  datatype Trip = Trip(legs: Option<seq<Leg>>)
  datatype Reply = Reply(trip: Option<Trip>)

  /** A request and the route drawn from the reply to it (`None` for null). */
  datatype Planned = Planned(request: RouteRequest, route: Option<RouteGeoJSON>)

  function ToLocation(c: Coords): Location
  {
    Location(c.lon, c.lat)
  }

  /** `coords.map(c => ({ lon: c.lon, lat: c.lat }))`. */
  function Locations(coords: seq<Coords>): (r: seq<Location>)
    ensures |r| == |coords|
    ensures forall i :: 0 <= i < |coords| ==> r[i].lon == coords[i].lon && r[i].lat == coords[i].lat
  {
    Seqs.Map(coords, ToLocation)
  }

  /** The body before exclusions are attached: costing "auto", one alternate, empty auto options. */
  function BaseRequest(coords: seq<Coords>): RouteRequest
  {
    RouteRequest(Locations(coords), "auto", 1, map["auto" := map[]], None)
  }

  /**
   * The request body of lines 18-58. It fails exactly when some given
   * geometry has no polygon (reading `coordinates[0][0]` throws before
   * the `try`); otherwise `exclude_polygons` is present exactly when
   * geometries were given and at least one ring survived, and then holds
   * those rings; everything else is fixed by the coordinates.
   */
  function BuildRequest(coords: seq<Coords>, dangerous: Option<seq<Geometry>>): (r: Result<RouteRequest, Fault>)
    ensures r.Failure? <==> dangerous.Some? && exists i :: 0 <= i < |dangerous.value| && !HasPolygon(dangerous.value[i])
    ensures r.Success? ==>
      && |r.value.locations| == |coords|
      && (forall i :: 0 <= i < |coords| ==>
            r.value.locations[i].lon == coords[i].lon && r.value.locations[i].lat == coords[i].lat)
      && r.value.costing == "auto"
      && r.value.alternates == 1
      && r.value.costingOptions == map["auto" := map[]]
    ensures r.Success? ==>
      (r.value.excludePolygons.Some? <==> dangerous.Some? && |ExcludePolygonsAsWritten(dangerous.value).value| > 0)
    ensures r.Success? && r.value.excludePolygons.Some? ==>
      r.value.excludePolygons.value == ExcludePolygonsAsWritten(dangerous.value).value
  {
    var body := BaseRequest(coords);
    match dangerous
    case None => Success(body)
    case Some(gs) =>
      match ExcludePolygonsAsWritten(gs)
      case Failure(e) => Failure(e)
      case Success(polygons) =>
        if |polygons| > 0 then Success(body.(excludePolygons := Some(polygons))) else Success(body)
  }

  /** `data.trip?.legs?.length` is truthy. */
  predicate HasLegs(reply: Reply)
  {
    reply.trip.Some? && reply.trip.value.legs.Some? && |reply.trip.value.legs.value| > 0
  }

  /**
   * Lines 60-92: a failed fetch, a non-ok status, a body that is not the
   * expected JSON, or a reply without legs all give null; otherwise the
   * first leg's shape, decoded at precision 6, is drawn with every
   * `[lat, lng]` pair swapped to `[lng, lat]`.
   */
  function RouteFromReply(fetched: Fetched<Reply>, decode6: string -> seq<Pair>): (r: Option<RouteGeoJSON>)
    ensures r.Some? <==> fetched.Response? && fetched.ok && fetched.body.Some? && HasLegs(fetched.body.value)
    ensures r.Some? ==>
      var decoded := decode6(fetched.body.value.trip.value.legs.value[0].shape);
      |r.value.coordinates| == |decoded| && SwapAll(r.value.coordinates) == decoded
  {
    match fetched
    case NetworkFailure => None
    case Response(ok, body) =>
      if !ok || body.None? || !HasLegs(body.value) then None
      else Some(RouteFromDecoded(decode6(body.value.trip.value.legs.value[0].shape)))
  }

  /** Only the first leg is drawn: replies that agree on it give the same route. */
  lemma OnlyFirstLegIsDrawn(ok: bool, x: Reply, y: Reply, decode6: string -> seq<Pair>)
    requires HasLegs(x) && HasLegs(y)
    requires x.trip.value.legs.value[0] == y.trip.value.legs.value[0]
    ensures RouteFromReply(Response(ok, Some(x)), decode6) == RouteFromReply(Response(ok, Some(y)), decode6)
  {
  }

  /**
   * The whole of `planRouteWithExclusions`: the fault of the ring
   * extraction rejects the call before anything is sent; otherwise the
   * request is built and the reply to it yields the route or null.
   */
  function PlanRouteWithExclusions(
    coords: seq<Coords>, dangerous: Option<seq<Geometry>>,
    fetched: Fetched<Reply>, decode6: string -> seq<Pair>): (r: Result<Planned, Fault>)
    ensures r.Failure? <==> dangerous.Some? && exists i :: 0 <= i < |dangerous.value| && !HasPolygon(dangerous.value[i])
    ensures r.Success? ==> r.value.request.costing == "auto" && r.value.request.alternates == 1
    ensures r.Success? ==> (r.value.route.None? <==>
      fetched.NetworkFailure? || !fetched.ok || fetched.body.None? || !HasLegs(fetched.body.value))
    ensures r.Success? ==>
      && BuildRequest(coords, dangerous).Success?
      && r.value.request == BuildRequest(coords, dangerous).value
      && r.value.route == RouteFromReply(fetched, decode6)
  {
    match BuildRequest(coords, dangerous)
    case Failure(e) => Failure(e)
    case Success(request) => Success(Planned(request, RouteFromReply(fetched, decode6)))
  }
}
