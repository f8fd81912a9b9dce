/** Gear types: the split of a type's features into merits and demerits. */
module Gear {
  import opened Text

  /** A row of `gear_features`. */
  datatype GearFeature = GearFeature(id: int, gearTypeId: int, featureType: string, description: string,
                                     displayOrder: int)

  /** `f.feature_type.to_lowercase() == kind`. */
  predicate OfKind(f: GearFeature, kind: string) {
    Lower(f.featureType) == kind
  }

  /** The descriptions of the features of one kind, in feature order. */
  function DescriptionsOf(features: seq<GearFeature>, kind: string): (ds: seq<string>)
    ensures |ds| <= |features|
  {
    if features == [] then []
    else (if OfKind(features[0], kind) then [features[0].description] else []) + DescriptionsOf(features[1..], kind)
  }

  function Merits(features: seq<GearFeature>): seq<string> {
    DescriptionsOf(features, "merit")
  }

  function Demerits(features: seq<GearFeature>): seq<string> {
    DescriptionsOf(features, "demerit")
  }

  /** Number of features of a kind. */
  function CountKind(features: seq<GearFeature>, kind: string): nat {
    if features == [] then 0 else (if OfKind(features[0], kind) then 1 else 0) + CountKind(features[1..], kind)
  }

  /** A description is listed iff some feature of that kind carries it. */
  lemma {:induction false} DescriptionsOfMembership(features: seq<GearFeature>, kind: string, d: string)
    ensures d in DescriptionsOf(features, kind) <==>
      exists k :: 0 <= k < |features| && OfKind(features[k], kind) && features[k].description == d
  {
    if features != [] {
      var tail := features[1..];
      DescriptionsOfMembership(tail, kind, d);
      assert forall k :: 1 <= k < |features| ==> features[k] == tail[k - 1];
      if d in DescriptionsOf(tail, kind) {
        var k :| 0 <= k < |tail| && OfKind(tail[k], kind) && tail[k].description == d;
        assert features[k + 1] == tail[k];
      }
    }
  }

  /** Feature order is kept: the list of a concatenation is the
      concatenation of the lists. */
  lemma {:induction false} DescriptionsOfConcat(a: seq<GearFeature>, b: seq<GearFeature>, kind: string)
    ensures DescriptionsOf(a + b, kind) == DescriptionsOf(a, kind) + DescriptionsOf(b, kind)
  {
    if a == [] {
      assert a + b == b;
    } else {
      var head := if OfKind(a[0], kind) then [a[0].description] else [];
      assert (a + b)[0] == a[0] && (a + b)[1..] == a[1..] + b;
      assert DescriptionsOf(a + b, kind) == head + DescriptionsOf(a[1..] + b, kind);
      DescriptionsOfConcat(a[1..], b, kind);
      assert head + (DescriptionsOf(a[1..], kind) + DescriptionsOf(b, kind))
          == (head + DescriptionsOf(a[1..], kind)) + DescriptionsOf(b, kind);
    }
  }

  /** One entry per feature of the kind. */
  lemma {:induction false} DescriptionsOfLength(features: seq<GearFeature>, kind: string)
    ensures |DescriptionsOf(features, kind)| == CountKind(features, kind)
  {
    if features != [] {
      DescriptionsOfLength(features[1..], kind);
    }
  }

  /** The positions of the features that are neither merits nor demerits. */
  function Others(features: seq<GearFeature>): set<int> {
    set k | 0 <= k < |features| && !OfKind(features[k], "merit") && !OfKind(features[k], "demerit")
  }

  /** No feature is both a merit and a demerit, and a feature of any other
      type is neither: merits, demerits and the rest partition the
      features. */
  lemma MeritsDemeritsPartition(features: seq<GearFeature>)
    ensures |Merits(features)| + |Demerits(features)| == |features| - |Others(features)|
  {
    DescriptionsOfLength(features, "merit");
    DescriptionsOfLength(features, "demerit");
    CountPartition(features);
  }

  lemma {:induction false} CountPartition(features: seq<GearFeature>)
    ensures CountKind(features, "merit") + CountKind(features, "demerit") == |features| - |Others(features)|
  {
    if features == [] {
      assert Others(features) == {};
    } else {
      var n := |features| - 1;
      var init := features[..n];
      CountPartition(init);
      assert features == init + [features[n]];
      CountKindSnoc(init, features[n], "merit");
      CountKindSnoc(init, features[n], "demerit");
      OthersSnoc(features);
      assert "merit" != "demerit";
    }
  }

  lemma OthersSnoc(features: seq<GearFeature>)
    requires features != []
    ensures var n := |features| - 1;
      |Others(features)| == |Others(features[..n])|
        + (if !OfKind(features[n], "merit") && !OfKind(features[n], "demerit") then 1 else 0)
  {
    var n := |features| - 1;
    var init := features[..n];
    assert forall k :: 0 <= k < n ==> init[k] == features[k];
    if !OfKind(features[n], "merit") && !OfKind(features[n], "demerit") {
      assert Others(features) == Others(init) + {n};
    } else {
      assert Others(features) == Others(init);
    }
  }

  lemma {:induction false} CountKindSnoc(a: seq<GearFeature>, f: GearFeature, kind: string)
    ensures CountKind(a + [f], kind) == CountKind(a, kind) + (if OfKind(f, kind) then 1 else 0)
  {
    if a == [] {
      assert a + [f] == [f];
    } else {
      assert (a + [f])[1..] == a[1..] + [f];
      CountKindSnoc(a[1..], f, kind);
    }
  }

  /** Matching ignores ASCII case: any spelling of "merit", such as
      "MERIT" or "Merit", is a merit and not a demerit. */
  lemma UpperCaseCounts(f: GearFeature)
    requires Lower(f.featureType) == "merit"
    ensures Merits([f]) == [f.description] && Demerits([f]) == []
    ensures Lower("MERIT") == "merit" && Lower("Merit") == "merit"
  {
    assert Lower("MERIT") == "merit";
  }
}
