/** The in-memory GeoJSON feature collection as `json.load` returns it, and
    the pass that names the collection and turns every property other than
    `fid`, `lon` and `lat` into its string form. */
module GeoJson {
  import opened Values
  import opened Geometry

  /** One feature: its geometry and its properties by key. */
  datatype Feature = Feature(geometry: Geometry, properties: map<string, Value>)

  /** The property keys whose values the pass leaves as they are. */
  const KeptKeys: set<string> := {"fid", "lon", "lat"}

  /** The value a property has after the pass. */
  function Stringified(key: string, v: Value): (r: Value)
    ensures key in KeptKeys ==> r == v
    ensures key !in KeptKeys ==> r == Str(ToStr(v))
  {
    if key in KeptKeys then v else Str(ToStr(v))
  }

  /** The properties of one feature after the pass. */
  function StringifyProperties(props: map<string, Value>): (r: map<string, Value>)
  {
    map k | k in props :: Stringified(k, props[k])
  }

  function StringifyFeature(f: Feature): Feature
  {
    f.(properties := StringifyProperties(f.properties))
  }

  /** The features after the pass, in their order. */
  function StringifyAll(fs: seq<Feature>): (rs: seq<Feature>)
    ensures |rs| == |fs|
  {
    seq(|fs|, i requires 0 <= i < |fs| => StringifyFeature(fs[i]))
  }

  /** After the pass every feature keeps its geometry and its keys, `fid`,
      `lon` and `lat` keep their values, and every other property holds the
      string form of its old value. */
  lemma StringifyAllFacts(fs: seq<Feature>, i: nat, k: string)
    requires i < |fs|
    ensures |StringifyAll(fs)| == |fs|
    ensures StringifyAll(fs)[i].geometry == fs[i].geometry
    ensures StringifyAll(fs)[i].properties.Keys == fs[i].properties.Keys
    ensures k in fs[i].properties && k in KeptKeys ==>
      StringifyAll(fs)[i].properties[k] == fs[i].properties[k]
    ensures k in fs[i].properties && k !in KeptKeys ==>
      StringifyAll(fs)[i].properties[k] == Str(ToStr(fs[i].properties[k]))
  {
  }

  /** Every property outside `fid`, `lon` and `lat` is a string after the pass. */
  predicate AllStringsOutsideKept(fs: seq<Feature>)
  {
    forall i, k | 0 <= i < |fs| && k in fs[i].properties && k !in KeptKeys ::
      fs[i].properties[k].Str?
  }

  lemma StringifyAllTypes(fs: seq<Feature>)
    ensures AllStringsOutsideKept(StringifyAll(fs))
  {
  }

  /** The pass changes nothing in its own output: `str` of a string is that string. */
  lemma StringifyIdempotent(fs: seq<Feature>)
    ensures StringifyAll(StringifyAll(fs)) == StringifyAll(fs)
  {
    var once := StringifyAll(fs);
    forall i | 0 <= i < |fs|
      ensures StringifyFeature(once[i]) == once[i]
    {
      var p := once[i].properties;
      assert StringifyProperties(p) == p;
    }
  }

  /** The pass leaves a collection already in its output form unchanged. */
  lemma StringifyFixedPoint(fs: seq<Feature>)
    requires AllStringsOutsideKept(fs)
    ensures StringifyAll(fs) == fs
  {
    forall i | 0 <= i < |fs|
      ensures StringifyFeature(fs[i]) == fs[i]
    {
      var p := fs[i].properties;
      assert StringifyProperties(p) == p;
    }
  }

  /** The decoded GeoJSON document: its top-level `name` and its features. */
  class FeatureCollection {
    var name: string
    var features: seq<Feature>

    constructor (name: string, features: seq<Feature>)
      ensures this.name == name && this.features == features
    {
      this.name := name;
      this.features := features;
    }

    /** Sets `name` to `title`, then walks every feature and every property
        key, replacing each value outside `fid`, `lon`, `lat` by its string. */
    method Stringify(title: string)
      modifies this
      ensures name == title
      ensures features == StringifyAll(old(features))
    {
      name := title;
      var i := 0;
      while i < |features|
        invariant 0 <= i <= |features| == |old(features)| && name == title
        invariant forall j | 0 <= j < i :: features[j] == StringifyFeature(old(features)[j])
        invariant forall j | i <= j < |features| :: features[j] == old(features)[j]
      {
        var f := features[i];
        var props := f.properties;
        var pending := props.Keys;
        while pending != {}
          invariant pending <= props.Keys == f.properties.Keys
          invariant forall k | k in props && k !in pending :: props[k] == Stringified(k, f.properties[k])
          invariant forall k | k in pending :: props[k] == f.properties[k]
          decreases pending
        {
          var k :| k in pending;
          if k !in KeptKeys {
            props := props[k := Str(ToStr(props[k]))];
          }
          pending := pending - {k};
        }
        assert props == StringifyProperties(f.properties);
        features := features[i := f.(properties := props)];
        i := i + 1;
      }
    }
  }
}
