/**
 * `planOptimalRoute`: the OSRM request path (`lon,lat` parts joined by
 * `;`) and the route drawn from the first returned route, or null.
 */
module OptimalRoute {
  import opened Wrappers
  import opened Geo
  import Seqs
  import Strings

  const OsrmApiUrl: string := "https://router.project-osrm.org/route/v1/driving"
  const Query: string := "?overview=full&geometries=polyline"

  /** The characters JavaScript's number-to-string conversion can produce. */
  const NumberAlphabet: string := "0123456789+-.eEINaNfinity"

  /** Text a number converts to in a template literal. */
  predicate IsNumberText(s: string)
  {
    forall i :: 0 <= i < |s| ==> s[i] in NumberAlphabet
  }

  /** `${coord.lon},${coord.lat}`, with `show` the number-to-string conversion. */
  function Part(c: Coords, show: real -> string): string
  {
    show(c.lon) + "," + show(c.lat)
  }

  function Parts(coords: seq<Coords>, show: real -> string): seq<string>
  {
    Seqs.Map(coords, c => Part(c, show))
  }

  /** `parts.join(";")` over one part per coordinate. */
  function Path(coords: seq<Coords>, show: real -> string): string
  {
    Strings.Join(Parts(coords, show), ';')
  }

  lemma NumberTextHasNoDelimiter(s: string)
    requires IsNumberText(s)
    ensures ',' !in s && ';' !in s
  {
  }

  /** One part splits at its comma into the longitude text and the latitude text. */
  lemma PartSplitsIntoLonLat(c: Coords, show: real -> string)
    requires IsNumberText(show(c.lon)) && IsNumberText(show(c.lat))
    ensures ';' !in Part(c, show)
    ensures Strings.Split(Part(c, show), ',') == [show(c.lon), show(c.lat)]
  {
    NumberTextHasNoDelimiter(show(c.lon));
    NumberTextHasNoDelimiter(show(c.lat));
    Strings.SplitAfterPiece(show(c.lon), ',', show(c.lat));
    Strings.SplitWithoutSeparator(show(c.lat), ',');
  }

  /**
   * The path holds exactly one `lon,lat` part per coordinate, in input
   * order and longitude first, with one `;` between neighbours.
   */
  lemma PathHasOnePartPerCoordinate(coords: seq<Coords>, show: real -> string)
    requires |coords| >= 1
    requires forall x :: IsNumberText(show(x))
    ensures |Strings.Split(Path(coords, show), ';')| == |coords|
    ensures forall i :: 0 <= i < |coords| ==>
      Strings.Split(Strings.Split(Path(coords, show), ';')[i], ',') == [show(coords[i].lon), show(coords[i].lat)]
    ensures Strings.Count(Path(coords, show), ';') == |coords| - 1
  {
    var parts := Parts(coords, show);
    forall i | 0 <= i < |parts|
      ensures ';' !in parts[i] && Strings.Split(parts[i], ',') == [show(coords[i].lon), show(coords[i].lat)]
    {
      PartSplitsIntoLonLat(coords[i], show);
    }
    Strings.SplitJoin(parts, ';');
    Strings.JoinSeparatorCount(parts, ';');
  }

  /** Lines 15-19: a part pushed per coordinate, then the parts joined. */
  method CoordinatePath(coords: seq<Coords>, show: real -> string) returns (path: string)
    ensures path == Path(coords, show)
  {
    var parts: seq<string> := [];
    var i := 0;
    while i < |coords|
      invariant 0 <= i <= |coords|
      invariant parts == Parts(coords[..i], show)
    {
      parts := parts + [Part(coords[i], show)];
      i := i + 1;
      assert coords[..i][..i - 1] == coords[..i - 1];
    }
    assert coords[..|coords|] == coords;
    path := Strings.Join(parts, ';');
  }

  /** The reply of the OSRM service, as far as it is read: `routes[i].geometry`. */
  datatype OsrmRoute = OsrmRoute(geometry: string)
  datatype OsrmReply = OsrmReply(routes: Option<seq<OsrmRoute>>)

  /** `data.routes?.length` is truthy. */
  predicate HasRoutes(reply: OsrmReply)
  {
    reply.routes.Some? && |reply.routes.value| > 0
  }

  /**
   * Lines 21-51: a failed fetch, a non-ok status, a body that is not the
   * expected JSON, or an empty or missing `routes` give null; otherwise
   * the first route's geometry, decoded, is drawn with every
   * `[lat, lng]` swapped to `[lng, lat]`.
   */
  function RouteFromOsrm(fetched: Fetched<OsrmReply>, decode: string -> seq<Pair>): (r: Option<RouteGeoJSON>)
    ensures r.Some? <==> fetched.Response? && fetched.ok && fetched.body.Some? && HasRoutes(fetched.body.value)
    ensures r.Some? ==>
      var decoded := decode(fetched.body.value.routes.value[0].geometry);
      |r.value.coordinates| == |decoded| && SwapAll(r.value.coordinates) == decoded
  {
    match fetched
    case NetworkFailure => None
    case Response(ok, body) =>
      if !ok || body.None? || !HasRoutes(body.value) then None
      else Some(RouteFromDecoded(decode(body.value.routes.value[0].geometry)))
  }

  /**
   * The whole of `planOptimalRoute`: the URL it fetches and the route
   * it resolves to, given the reply to that URL.
   */
  method PlanOptimalRoute(coords: seq<Coords>, show: real -> string, fetched: Fetched<OsrmReply>, decode: string -> seq<Pair>)
    returns (url: string, route: Option<RouteGeoJSON>)
    ensures url == OsrmApiUrl + "/" + Path(coords, show) + Query
    ensures route.None? <==> fetched.NetworkFailure? || !fetched.ok || fetched.body.None? || !HasRoutes(fetched.body.value)
    ensures route.Some? ==>
      SwapAll(route.value.coordinates) == decode(fetched.body.value.routes.value[0].geometry)
  {
    var coordinates := CoordinatePath(coords, show);
    url := OsrmApiUrl + "/" + coordinates + Query;
    route := RouteFromOsrm(fetched, decode);
  }
}
