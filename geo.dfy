/**
 * Values shared by the two route planners: the app's coordinates, the
 * two-number arrays the routing services and GeoJSON exchange, the
 * line-string route the map draws, and the outcome of a `fetch`.
 */
module Geo {
  import opened Wrappers
  import Seqs

  /** The app's `Coords`: a latitude and a longitude in degrees. */
  datatype Coords = Coords(lat: real, lon: real)

  /** A `[number, number]` array. */
  datatype Pair = Pair(first: real, second: real)

  function Swap(p: Pair): Pair
  {
    Pair(p.second, p.first)
  }

  /** `pairs.map(([a, b]) => [b, a])`: both components of every pair exchanged. */
  function SwapAll(ps: seq<Pair>): (qs: seq<Pair>)
    ensures |qs| == |ps|
    ensures forall i :: 0 <= i < |ps| ==> qs[i].first == ps[i].second && qs[i].second == ps[i].first
  {
    Seqs.Map(ps, Swap)
  }

  /** Swapping twice gives back the pairs one started from. */
  lemma SwapAllTwice(ps: seq<Pair>)
    ensures SwapAll(SwapAll(ps)) == ps
  {
  }

  /** A GeoJSON `Feature` whose geometry is a `LineString` of `[lng, lat]` pairs. */
  datatype RouteGeoJSON = LineStringFeature(coordinates: seq<Pair>)

  /**
   * The route drawn from a decoded polyline: the decoder yields
   * `[lat, lng]` pairs and the map wants `[lng, lat]`, so every pair is
   * swapped; nothing is added, dropped or reordered.
   */
  function RouteFromDecoded(decoded: seq<Pair>): (r: RouteGeoJSON)
    ensures |r.coordinates| == |decoded|
    ensures forall i :: 0 <= i < |decoded| ==>
      r.coordinates[i].first == decoded[i].second && r.coordinates[i].second == decoded[i].first
    ensures SwapAll(r.coordinates) == decoded
  {
    SwapAllTwice(decoded);
    LineStringFeature(SwapAll(decoded))
  }

  /**
   * What `await fetch(...)` followed by `await response.json()` gives:
   * the request failed outright, or a response came back with its `ok`
   * flag and its body, `None` when the body is not JSON of the expected shape.
   */
  datatype Fetched<T> = NetworkFailure | Response(ok: bool, body: Option<T>)
}
