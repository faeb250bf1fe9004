/**
 * `process_data` of the hazard pre-processing script: records are
 * grouped by event type in first-appearance order, every record with a
 * position becomes a circle, the circles of a group are merged, and
 * each group with at least one circle becomes one MultiPolygon feature
 * tagged with its event type.
 */
module MergeByDistance {
  import opened Wrappers
  import opened Geo
  import Seqs

  const RangeMultiplier: real := 0.3
  const MetersPerDegree: real := 111320.0
  const MultiPolygonType: string := "MultiPolygon"

  /** `point_data.get('c', 0)`: an absent key reads as 0, a key holding null as None. */
  datatype RadiusField = AbsentRadius | NullRadius | RadiusValue(value: real)

  /**
   * One input record: event type `e`, latitude `a`, longitude `b`, range
   * `c`. `get` reads an absent key and a null value alike as None.
   */
  datatype Item = Item(e: Option<int>, a: Option<real>, b: Option<real>, c: RadiusField)

  /** `None * RANGE_MULTIPLIER` raises a TypeError and aborts the whole run. */
  datatype Fault = TypeError

  /** `Point(lon, lat).buffer(radius_degrees)`, kept as its centre and radius. */
  datatype Circle = Circle(lon: real, lat: real, radiusDegrees: real)

  type Ring = seq<Pair>

  datatype Polygon = Polygon(exterior: Ring, interiors: seq<Ring>)

  /** What `unary_union` returns: one polygon, or a MultiPolygon of several. */
  datatype Merged = OnePolygon(polygon: Polygon) | ManyPolygons(polygons: seq<Polygon>)

  /** One output GeoJSON feature: `properties.name_id`, geometry type and coordinates. */
  datatype Feature = Feature(nameId: Option<int>, geometryType: string, coordinates: seq<seq<Ring>>)

  predicate HasNullRadius(it: Item)
  {
    it.c.NullRadius?
  }

  predicate NoNullRadius(points: seq<Item>)
  {
    forall j :: 0 <= j < |points| ==> !HasNullRadius(points[j])
  }

  /** `lat is not None and lon is not None`. */
  predicate HasPosition(it: Item)
  {
    it.a.Some? && it.b.Some?
  }

  /**
   * Lines 11-16: the circle around `(lon, lat)` whose radius is the given
   * metres at 111320 metres per degree.
   */
  function CreateCircle(lon: real, lat: real, radiusMeters: real): (c: Circle)
    ensures c.lon == lon && c.lat == lat
    ensures c.radiusDegrees * 111320.0 == radiusMeters
    ensures radiusMeters >= 0.0 ==> 0.0 <= c.radiusDegrees <= radiusMeters
  {
    Circle(lon, lat, radiusMeters * (1.0 / MetersPerDegree))
  }

  /**
   * `point_data.get('c', 0) * RANGE_MULTIPLIER`, for a record whose `c` is
   * not null: an absent range counts as 0, and a range that is not
   * negative shrinks to 30% of itself.
   */
  function ScaledRadius(c: RadiusField): (r: real)
    requires !c.NullRadius?
    ensures c.AbsentRadius? ==> r == 0.0
    ensures c.RadiusValue? ==> r * 10.0 == c.value * 3.0
    ensures c.RadiusValue? && c.value >= 0.0 ==> 0.0 <= r <= c.value
  {
    match c
    case AbsentRadius => 0.0 * RangeMultiplier
    case RadiusValue(v) => v * RangeMultiplier
  }

  function CircleOf(it: Item): Circle
    requires HasPosition(it) && !HasNullRadius(it)
  {
    CreateCircle(it.b.value, it.a.value, ScaledRadius(it.c))
  }

  /** The circles of a group: one per record with a position, in record order. */
  function Circles(points: seq<Item>): (r: seq<Circle>)
    requires NoNullRadius(points)
    ensures |r| <= |points|
  {
    var located := Seqs.Filter(points, HasPosition);
    assert forall j :: 0 <= j < |located| ==> located[j] in located && located[j] in points;
    Seqs.Map(located, CircleOf)
  }

  /** Circles are made record by record, so the circles of a concatenation concatenate. */
  lemma CirclesAppend(a: seq<Item>, b: seq<Item>)
    requires NoNullRadius(a) && NoNullRadius(b)
    ensures NoNullRadius(a + b)
    ensures Circles(a + b) == Circles(a) + Circles(b)
  {
    assert NoNullRadius(a + b) by {
      forall j | 0 <= j < |a + b| ensures !HasNullRadius((a + b)[j]) {
        if j >= |a| {
          assert (a + b)[j] == b[j - |a|];
        }
      }
    }
    var fa := Seqs.Filter(a, HasPosition);
    var fb := Seqs.Filter(b, HasPosition);
    assert Seqs.Filter(a + b, HasPosition) == fa + fb by {
      Seqs.FilterAppend(a, b, HasPosition);
    }
    assert forall j :: 0 <= j < |fa| ==> HasPosition(fa[j]) && !HasNullRadius(fa[j]) by {
      assert forall j :: 0 <= j < |fa| ==> fa[j] in fa && fa[j] in a;
    }
    assert forall j :: 0 <= j < |fb| ==> HasPosition(fb[j]) && !HasNullRadius(fb[j]) by {
      assert forall j :: 0 <= j < |fb| ==> fb[j] in fb && fb[j] in b;
    }
    Seqs.MapAppend(fa, fb, CircleOf);
  }

  /** A record with both coordinates contributes its own circle, centred on `(b, a)` with the scaled radius. */
  lemma PositionedItemAddsItsCircle(it: Item)
    requires HasPosition(it) && !HasNullRadius(it)
    ensures NoNullRadius([it])
    ensures Circles([it]) == [CreateCircle(it.b.value, it.a.value, ScaledRadius(it.c))]
  {
    assert [it][..0] == [];
  }

  /** A record without a latitude or a longitude contributes no circle. */
  lemma UnlocatedItemAddsNoCircle(a: seq<Item>, it: Item, b: seq<Item>)
    requires NoNullRadius(a) && NoNullRadius(b) && !HasNullRadius(it) && !HasPosition(it)
    ensures NoNullRadius(a + [it] + b)
    ensures Circles(a + [it] + b) == Circles(a + b)
  {
    assert Circles([it]) == [] by {
      assert [it][..0] == [];
      assert Seqs.Filter([it], HasPosition) == [];
    }
    CirclesAppend(a, [it]);
    var front := a + [it];
    assert Circles(front) == Circles(a);
    CirclesAppend(front, b);
    CirclesAppend(a, b);
  }

  /** A record without a range gets a radius of 0 instead of failing. */
  lemma MissingRangeGivesZeroRadius(it: Item)
    requires HasPosition(it) && it.c.AbsentRadius?
    ensures CircleOf(it) == Circle(it.b.value, it.a.value, 0.0)
  {
  }

  /** The records of event type `k`, in input order. */
  function ItemsOf(data: seq<Item>, k: Option<int>): (r: seq<Item>)
    ensures |r| <= |data|
    ensures forall x :: x in r ==> x in data && x.e == k
    ensures forall x :: x in data && x.e == k ==> x in r
  {
    if |data| == 0 then []
    else
      var init := data[..|data| - 1];
      assert data == init + [data[|data| - 1]];
      ItemsOf(init, k) + (if data[|data| - 1].e == k then [data[|data| - 1]] else [])
  }

  /** The distinct event types, in order of first appearance. */
  function EventTypes(data: seq<Item>): (keys: seq<Option<int>>)
    ensures forall i, j :: 0 <= i < j < |keys| ==> keys[i] != keys[j]
    ensures forall k :: k in keys <==> ItemsOf(data, k) != []
  {
    if |data| == 0 then []
    else
      var init := data[..|data| - 1];
      var prev := EventTypes(init);
      var k := data[|data| - 1].e;
      assert forall j :: j != k ==> ItemsOf(data, j) == ItemsOf(init, j);
      assert ItemsOf(data, k) == ItemsOf(init, k) + [data[|data| - 1]];
      if k in prev then prev else prev + [k]
  }

  /** Grouping a concatenation: the records of the first part come first in every group. */
  lemma {:induction false} ItemsOfAppend(a: seq<Item>, b: seq<Item>, k: Option<int>)
    ensures ItemsOf(a + b, k) == ItemsOf(a, k) + ItemsOf(b, k)
  {
    if |b| > 0 {
      var init := b[..|b| - 1];
      assert (a + b)[..|a + b| - 1] == a + init;
      ItemsOfAppend(a, init, k);
    } else {
      assert a + b == a;
    }
  }

  /**
   * First-appearance order: records appended later never reorder the
   * event types already seen, they can only add new ones at the end.
   */
  lemma {:induction false} EventTypesGrowAtTheEnd(a: seq<Item>, b: seq<Item>)
    ensures EventTypes(a) <= EventTypes(a + b)
  {
    if |b| > 0 {
      var init := b[..|b| - 1];
      assert (a + b)[..|a + b| - 1] == a + init;
      EventTypesGrowAtTheEnd(a, init);
    } else {
      assert a + b == a;
    }
  }

  /** The total number of records in the groups of the given keys. */
  function GroupSizes(keys: seq<Option<int>>, data: seq<Item>): nat
  {
    if |keys| == 0 then 0
    else GroupSizes(keys[..|keys| - 1], data) + |ItemsOf(data, keys[|keys| - 1])|
  }

  /** One more record adds one to the total of distinct keys exactly when its type is among them. */
  lemma {:induction false} GroupSizesStep(keys: seq<Option<int>>, init: seq<Item>, x: Item)
    requires forall i, j :: 0 <= i < j < |keys| ==> keys[i] != keys[j]
    ensures GroupSizes(keys, init + [x]) == GroupSizes(keys, init) + (if x.e in keys then 1 else 0)
  {
    var data := init + [x];
    assert data[..|data| - 1] == init;
    if |keys| > 0 {
      var prev := keys[..|keys| - 1];
      var k := keys[|keys| - 1];
      GroupSizesStep(prev, init, x);
      assert keys == prev + [k];
      assert x.e in keys <==> x.e in prev || x.e == k;
      if x.e == k {
        assert x.e !in prev;
      }
    }
  }

  /**
   * Every record lands in exactly one group: the groups, which hold only
   * records of their own type, together hold as many records as the input.
   */
  lemma {:induction false} EveryItemInOneGroup(data: seq<Item>)
    ensures GroupSizes(EventTypes(data), data) == |data|
  {
    if |data| > 0 {
      var init := data[..|data| - 1];
      var x := data[|data| - 1];
      assert data == init + [x];
      var prev := EventTypes(init);
      EveryItemInOneGroup(init);
      GroupSizesStep(prev, init, x);
      if x.e !in prev {
        assert ItemsOf(init, x.e) == [];
        assert ItemsOf(data, x.e) == [x];
        assert (prev + [x.e])[..|prev|] == prev;
      }
    }
  }

  /** A group with at least one record that has a position. */
  predicate HasPositionedItem(data: seq<Item>, k: Option<int>)
  {
    exists i :: 0 <= i < |data| && data[i].e == k && HasPosition(data[i])
  }

  /** Lines 51-52: a single polygon is wrapped as a one-element MultiPolygon. */
  function AsMultiPolygon(m: Merged): (ps: seq<Polygon>)
    ensures m.OnePolygon? ==> ps == [m.polygon]
    ensures m.ManyPolygons? ==> ps == m.polygons
  {
    match m
    case OnePolygon(p) => [p]
    case ManyPolygons(ps) => ps
  }

  /** Line 59: a polygon's coordinate entry, exterior ring first, then its holes. */
  function PolygonEntry(p: Polygon): seq<Ring>
  {
    [p.exterior] + p.interiors
  }

  /** A group yields circles exactly when one of its records has both coordinates. */
  lemma CirclesEmptyIffUnlocated(group: seq<Item>)
    requires NoNullRadius(group)
    ensures |Circles(group)| == 0 <==> forall j :: 0 <= j < |group| ==> !HasPosition(group[j])
  {
    var located := Seqs.Filter(group, HasPosition);
    assert |Circles(group)| == |located|;
    if j :| 0 <= j < |group| && HasPosition(group[j]) {
      assert group[j] in located;
    }
    if |located| > 0 {
      assert located[0] in located;
    }
  }

  /**
   * Lines 35-71 for one group: no feature when the group has no circle
   * (no record with a position, by `CirclesEmptyIffUnlocated`); otherwise a MultiPolygon tagged with the group's event type, with one
   * coordinate entry per merged polygon.
   */
  function FeatureOf(k: Option<int>, group: seq<Item>, union: seq<Circle> -> Merged): (f: Option<Feature>)
    requires NoNullRadius(group)
    ensures f.None? <==> |Circles(group)| == 0
    ensures f.Some? ==>
      && f.value.nameId == k
      && f.value.geometryType == MultiPolygonType
      && |f.value.coordinates| == |AsMultiPolygon(union(Circles(group)))|
    ensures f.Some? && union(Circles(group)).OnePolygon? ==>
      f.value.coordinates == [PolygonEntry(union(Circles(group)).polygon)]
  {
    var circles := Circles(group);
    if |circles| == 0 then None
    else Some(Feature(k, MultiPolygonType, Seqs.Map(AsMultiPolygon(union(circles)), PolygonEntry)))
  }

  /** Entry `i` of a group's feature is merged polygon `i`: its exterior ring, then its holes. */
  lemma FeatureCoordinates(k: Option<int>, group: seq<Item>, union: seq<Circle> -> Merged)
    requires NoNullRadius(group)
    ensures var f := FeatureOf(k, group, union);
      f.Some? ==> forall i :: 0 <= i < |f.value.coordinates| ==>
        && |f.value.coordinates[i]| > 0
        && f.value.coordinates[i][0] == AsMultiPolygon(union(Circles(group)))[i].exterior
        && f.value.coordinates[i][1..] == AsMultiPolygon(union(Circles(group)))[i].interiors
  {
  }

  function NameIdOf(f: Feature): Option<int>
  {
    f.nameId
  }

  /** The keys, in order, whose group has a record with a position. */
  function KeysWithPosition(keys: seq<Option<int>>, data: seq<Item>): (r: seq<Option<int>>)
    ensures |r| <= |keys|
    ensures forall k :: k in r <==> k in keys && HasPositionedItem(data, k)
  {
    if |keys| == 0 then []
    else
      var k := keys[|keys| - 1];
      var init := keys[..|keys| - 1];
      assert keys == init + [k];
      KeysWithPosition(init, data) + (if HasPositionedItem(data, k) then [k] else [])
  }

  /** No group of the given keys has a record with a null `c`. */
  predicate GroupsHaveNoNull(keys: seq<Option<int>>, data: seq<Item>)
  {
    forall j :: 0 <= j < |keys| ==> NoNullRadius(ItemsOf(data, keys[j]))
  }

  /** A group's circles exist exactly when one of its records has a position. */
  lemma CirclesExistIffPositioned(data: seq<Item>, k: Option<int>)
    requires NoNullRadius(ItemsOf(data, k))
    ensures |Circles(ItemsOf(data, k))| > 0 <==> HasPositionedItem(data, k)
  {
    var group := ItemsOf(data, k);
    CirclesEmptyIffUnlocated(group);
    if HasPositionedItem(data, k) {
      var i :| 0 <= i < |data| && data[i].e == k && HasPosition(data[i]);
      assert data[i] in group;
    }
  }


  /**
   * The features of the given keys, in key order: one per key whose
   * group has a record with a position, tagged with that key, always a
   * MultiPolygon.
   */
  function FeaturesFor(keys: seq<Option<int>>, data: seq<Item>, union: seq<Circle> -> Merged): (fs: seq<Feature>)
    requires GroupsHaveNoNull(keys, data)
    ensures |fs| <= |keys|
    ensures forall f :: f in fs ==> f.geometryType == MultiPolygonType
    ensures Seqs.Map(fs, NameIdOf) == KeysWithPosition(keys, data)
  {
    if |keys| == 0 then []
    else
      var k := keys[|keys| - 1];
      var init := keys[..|keys| - 1];
      assert GroupsHaveNoNull(init, data) by {
        forall j | 0 <= j < |init| ensures NoNullRadius(ItemsOf(data, init[j])) {
          assert init[j] == keys[j];
        }
      }
      var prev := FeaturesFor(init, data, union);
      CirclesExistIffPositioned(data, k);
      var last := FeatureOf(k, ItemsOf(data, k), union);
      AppendFeature(prev, last, k, KeysWithPosition(init, data));
      prev + (if last.Some? then [last.value] else [])
  }

  /** Appending the feature of key `k`, if any, to MultiPolygon features whose tags are `ids`. */
  lemma AppendFeature(prev: seq<Feature>, last: Option<Feature>, k: Option<int>, ids: seq<Option<int>>)
    requires forall f :: f in prev ==> f.geometryType == MultiPolygonType
    requires Seqs.Map(prev, NameIdOf) == ids
    requires last.Some? ==> last.value.geometryType == MultiPolygonType && last.value.nameId == k
    ensures forall f :: f in prev + (if last.Some? then [last.value] else []) ==> f.geometryType == MultiPolygonType
    ensures Seqs.Map(prev + (if last.Some? then [last.value] else []), NameIdOf) ==
      ids + (if last.Some? then [k] else [])
  {
    var fs := prev + (if last.Some? then [last.value] else []);
    assert fs[..|prev|] == prev;
  }

  /** Every feature is tagged with one of the keys, namely the one its group belongs to. */
  lemma FeaturesAreTagged(keys: seq<Option<int>>, data: seq<Item>, union: seq<Circle> -> Merged)
    requires GroupsHaveNoNull(keys, data)
    ensures forall f :: f in FeaturesFor(keys, data, union) ==> f.nameId in keys && HasPositionedItem(data, f.nameId)
  {
    var fs := FeaturesFor(keys, data, union);
    var ids := Seqs.Map(fs, NameIdOf);
    forall f | f in fs ensures f.nameId in keys && HasPositionedItem(data, f.nameId) {
      var j :| 0 <= j < |fs| && fs[j] == f;
      assert ids[j] == f.nameId;
      assert ids[j] in KeysWithPosition(keys, data);
    }
  }

  /** Extending a prefix of the keys by one key adds that key's feature, when it has one, at the end. */
  lemma FeaturesForStep(keys: seq<Option<int>>, i: int, data: seq<Item>, union: seq<Circle> -> Merged)
    requires 0 <= i < |keys|
    requires GroupsHaveNoNull(keys[..i], data) && NoNullRadius(ItemsOf(data, keys[i]))
    ensures GroupsHaveNoNull(keys[..i + 1], data)
    ensures var last := FeatureOf(keys[i], ItemsOf(data, keys[i]), union);
      FeaturesFor(keys[..i + 1], data, union) ==
      FeaturesFor(keys[..i], data, union) + (if last.Some? then [last.value] else [])
  {
    var longer := keys[..i + 1];
    assert longer[..i] == keys[..i];
    forall j | 0 <= j < |longer| ensures NoNullRadius(ItemsOf(data, longer[j])) {
      if j < i {
        assert longer[j] == keys[..i][j];
      }
    }
  }

  /** A record with a null `c` lies in the group of its own event type. */
  lemma NullRadiusInGroup(data: seq<Item>, n: int)
    requires 0 <= n < |data| && HasNullRadius(data[n])
    ensures !NoNullRadius(ItemsOf(data, data[n].e))
  {
    var group := ItemsOf(data, data[n].e);
    assert data[n] in group;
    var j :| 0 <= j < |group| && group[j] == data[n];
  }

  /** A group's record with a null `c` is a record of the input with a null `c`. */
  lemma GroupNullIsInputNull(data: seq<Item>, k: Option<int>)
    requires !NoNullRadius(ItemsOf(data, k))
    ensures !NoNullRadius(data)
  {
    var group := ItemsOf(data, k);
    var j :| 0 <= j < |group| && HasNullRadius(group[j]);
    assert group[j] in group;
    var n :| 0 <= n < |data| && data[n] == group[j];
  }

  /** When no group has a null `c`, no record has one. */
  lemma NoNullInAnyGroup(data: seq<Item>)
    requires GroupsHaveNoNull(EventTypes(data), data)
    ensures NoNullRadius(data)
  {
    forall n | 0 <= n < |data| ensures !HasNullRadius(data[n]) {
      if HasNullRadius(data[n]) {
        NullRadiusInGroup(data, n);
      }
    }
  }

  /**
   * Lines 26-32: the dictionary from event type to its records, built
   * in one pass; `order` is the dictionary's insertion order.
   */
  method GroupByEvent(data: seq<Item>) returns (order: seq<Option<int>>, groups: map<Option<int>, seq<Item>>)
    ensures order == EventTypes(data)
    ensures forall k :: k in groups <==> k in order
    ensures forall k :: k in groups ==> groups[k] == ItemsOf(data, k)
  {
    order, groups := [], map[];
    var i := 0;
    while i < |data|
      invariant 0 <= i <= |data|
      invariant GroupedUpTo(data, i, order, groups)
    {
      var item := data[i];
      ghost var order0, groups0 := order, groups;
      if item.e !in groups {
        order := order + [item.e];
        groups := groups[item.e := []];
      }
      groups := groups[item.e := groups[item.e] + [item]];
      GroupInsert(data, i, order0, groups0, order, groups);
      i := i + 1;
    }
    assert data[..i] == data;
  }

  /** The records of `data[..i]` grouped by type: the loop invariant of `GroupByEvent`. */
  ghost predicate GroupedUpTo(data: seq<Item>, i: int, order: seq<Option<int>>, groups: map<Option<int>, seq<Item>>)
    requires 0 <= i <= |data|
  {
    && order == EventTypes(data[..i])
    && (forall k :: k in groups <==> k in order)
    && (forall k :: k in groups ==> groups[k] == ItemsOf(data[..i], k))
  }

  /** `order` and `groups` after the loop body has inserted record `i`. */
  ghost predicate Inserted(data: seq<Item>, i: int, order: seq<Option<int>>, groups: map<Option<int>, seq<Item>>,
                           order': seq<Option<int>>, groups': map<Option<int>, seq<Item>>)
    requires 0 <= i < |data|
  {
    var e := data[i].e;
    && order' == (if e in groups then order else order + [e])
    && groups' == (if e in groups then groups else groups[e := []])[e := (if e in groups then groups[e] else []) + [data[i]]]
  }

  /** Inserting record `i` into its group, as the loop body does, extends the grouping by one record. */
  lemma GroupInsert(data: seq<Item>, i: int, order: seq<Option<int>>, groups: map<Option<int>, seq<Item>>,
                    order': seq<Option<int>>, groups': map<Option<int>, seq<Item>>)
    requires 0 <= i < |data|
    requires GroupedUpTo(data, i, order, groups)
    requires Inserted(data, i, order, groups, order', groups')
    ensures GroupedUpTo(data, i + 1, order', groups')
  {
    OrderStep(data, i, order, groups, order', groups');
    KeysStep(data, i, order, groups, order', groups');
    ContentsStep(data, i, order, groups, order', groups');
  }

  /** The types of one more record: its type is appended when it is new. */
  lemma OrderStep(data: seq<Item>, i: int, order: seq<Option<int>>, groups: map<Option<int>, seq<Item>>,
                  order': seq<Option<int>>, groups': map<Option<int>, seq<Item>>)
    requires 0 <= i < |data|
    requires GroupedUpTo(data, i, order, groups)
    requires Inserted(data, i, order, groups, order', groups')
    ensures order' == EventTypes(data[..i + 1])
  {
    assert data[..i + 1][..i] == data[..i];
  }

  /** The dictionary's keys and the order stay in step. */
  lemma KeysStep(data: seq<Item>, i: int, order: seq<Option<int>>, groups: map<Option<int>, seq<Item>>,
                 order': seq<Option<int>>, groups': map<Option<int>, seq<Item>>)
    requires 0 <= i < |data|
    requires GroupedUpTo(data, i, order, groups)
    requires Inserted(data, i, order, groups, order', groups')
    ensures forall k :: k in groups' <==> k in order'
  {
  }

  /** Appending record `i` to its own group keeps every group equal to the records of its type read so far. */
  lemma ContentsStep(data: seq<Item>, i: int, order: seq<Option<int>>, groups: map<Option<int>, seq<Item>>,
                     order': seq<Option<int>>, groups': map<Option<int>, seq<Item>>)
    requires 0 <= i < |data|
    requires GroupedUpTo(data, i, order, groups)
    requires Inserted(data, i, order, groups, order', groups')
    ensures forall k :: k in groups' ==> groups'[k] == ItemsOf(data[..i + 1], k)
  {
    var e, before, after := data[i].e, data[..i], data[..i + 1];
    assert after[..i] == before;
    forall k | k in groups' ensures groups'[k] == ItemsOf(after, k) {
      assert ItemsOf(after, k) == ItemsOf(before, k) + (if e == k then [data[i]] else []);
      if k == e && e !in groups {
        assert e !in EventTypes(before);
      }
    }
  }

  /**
   * Lines 36-42: the circles of one group. The radius is computed for
   * every record before its position is checked, so a null `c` aborts
   * even on a record without a position.
   */
  method BufferPoints(points: seq<Item>) returns (r: Result<seq<Circle>, Fault>)
    ensures r.Failure? <==> !NoNullRadius(points)
    ensures r.Success? ==> r.value == Circles(points)
  {
    var circles: seq<Circle> := [];
    var j := 0;
    while j < |points|
      invariant 0 <= j <= |points|
      invariant NoNullRadius(points[..j])
      invariant circles == Circles(points[..j])
    {
      var p := points[j];
      if p.c.NullRadius? {
        return Failure(TypeError);
      }
      assert points[..j + 1][..j] == points[..j];
      var radius := ScaledRadius(p.c);
      if p.a.Some? && p.b.Some? {
        circles := circles + [CreateCircle(p.b.value, p.a.value, radius)];
      }
      j := j + 1;
    }
    assert points[..j] == points;
    return Success(circles);
  }

  /** Lines 55-59: one coordinate entry per polygon, in order. */
  method PolygonCoords(polygons: seq<Polygon>) returns (coords: seq<seq<Ring>>)
    ensures coords == Seqs.Map(polygons, PolygonEntry)
    ensures forall j :: 0 <= j < |polygons| ==>
      |coords[j]| == 1 + |polygons[j].interiors| &&
      coords[j][0] == polygons[j].exterior && coords[j][1..] == polygons[j].interiors
  {
    coords := [];
    var j := 0;
    while j < |polygons|
      invariant 0 <= j <= |polygons|
      invariant coords == Seqs.Map(polygons[..j], PolygonEntry)
    {
      var poly := polygons[j];
      assert polygons[..j + 1][..j] == polygons[..j];
      coords := coords + [[poly.exterior] + poly.interiors];
      j := j + 1;
    }
    assert polygons[..j] == polygons;
  }

  /**
   * Lines 35-69 for one event type: the group's circles are merged and
   * become one feature, or none when the group has no circle.
   */
  method GroupFeature(k: Option<int>, points: seq<Item>, union: seq<Circle> -> Merged)
    returns (r: Result<Option<Feature>, Fault>)
    ensures r.Failure? <==> !NoNullRadius(points)
    ensures r.Success? ==> r.value == FeatureOf(k, points, union)
  {
    var circles := BufferPoints(points);
    if circles.Failure? {
      return Failure(TypeError);
    }
    if |circles.value| == 0 {
      return Success(None);
    }
    var merged := union(circles.value);
    var polygons := AsMultiPolygon(merged);
    var coords := PolygonCoords(polygons);
    return Success(Some(Feature(k, MultiPolygonType, coords)));
  }

  /**
   * Lines 18-77 without the file I/O: the run aborts exactly when some
   * record has a null `c`; otherwise it yields the features of the event
   * types in first-appearance order.
   */
  method ProcessData(data: seq<Item>, union: seq<Circle> -> Merged) returns (r: Result<seq<Feature>, Fault>)
    ensures r.Failure? <==> !NoNullRadius(data)
    ensures r.Success? ==>
      GroupsHaveNoNull(EventTypes(data), data) &&
      r.value == FeaturesFor(EventTypes(data), data, union)
  {
    var order, groups := GroupByEvent(data);
    var features: seq<Feature> := [];
    var i := 0;
    while i < |order|
      invariant 0 <= i <= |order|
      invariant GroupsHaveNoNull(order[..i], data)
      invariant features == FeaturesFor(order[..i], data, union)
    {
      var k := order[i];
      var points := groups[k];
      assert points == ItemsOf(data, k);
      var feature := GroupFeature(k, points, union);
      if feature.Failure? {
        GroupNullIsInputNull(data, k);
        return Failure(TypeError);
      }
      FeaturesForStep(order, i, data, union);
      features := features + (if feature.value.Some? then [feature.value.value] else []);
      i := i + 1;
    }
    assert order[..i] == order;
    NoNullInAnyGroup(data);
    return Success(features);
  }
}
