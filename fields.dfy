/**
 * The GA4 schema registry: the allow-list of metric names, the allow-list of
 * dimension names, and the map from Universal Analytics ("ga:"-prefixed)
 * names to their GA4 equivalents. All three are fixed literals; the lemmas
 * below state the facts about them that the field validator relies on.
 */
module Ga4Fields {

  /** The metric allow-list, in declaration order. */
  const Metrics: seq<string> := [
    "totalUsers", "newUsers", "sessions", "screenPageViews", "bounceRate",
    "averageSessionDuration", "engagedSessions", "engagementRate", "eventCount",
    "conversions", "userEngagementDuration", "activeUsers",
    "sessionConversionRate", "userConversionRate", "views"
  ]

  /** The dimension allow-list, in declaration order. */
  const Dimensions: seq<string> := [
    "date", "pagePath", "landingPage", "sessionSource", "sessionMedium",
    "country", "city", "deviceCategory", "browser", "operatingSystem",
    "language", "userGender", "userAgeBracket", "eventName",
    "sessionDefaultChannelGroup", "region", "continent", "platform",
    "appVersion", "pageTitle", "sourceMedium", "campaignName", "hostName"
  ]

  /** Universal Analytics name to GA4 name. */
  const UaToGa4: map<string, string> := map[
    "ga:landingPagePath" := "landingPage",
    "ga:pagePath" := "pagePath",
    "ga:source" := "sessionSource",
    "ga:medium" := "sessionMedium",
    "ga:country" := "country",
    "ga:city" := "city",
    "ga:deviceCategory" := "deviceCategory",
    "ga:browser" := "browser",
    "ga:operatingSystem" := "operatingSystem",
    "ga:language" := "language",
    "ga:userGender" := "userGender",
    "ga:userAgeBracket" := "userAgeBracket",
    "ga:eventName" := "eventName",
    "ga:channelGrouping" := "sessionDefaultChannelGroup",
    "ga:region" := "region",
    "ga:continent" := "continent",
    "ga:platform" := "platform",
    "ga:appVersion" := "appVersion",
    "ga:pageTitle" := "pageTitle",
    "ga:sourceMedium" := "sourceMedium",
    "ga:campaign" := "campaignName",
    "ga:hostname" := "hostName"
  ]

  /**
   * A proof-only view of `UaToGa4`: its entries in declaration order, as a
   * list of pairs. The translator never reads it; facts about the map are
   * proved on this list, which can be indexed, and carried back to the map
   * by `AliasListing`, which proves that these are exactly its entries.
   */
  const AliasPairs: seq<(string, string)> := [
    ("ga:landingPagePath", "landingPage"),
    ("ga:pagePath", "pagePath"),
    ("ga:source", "sessionSource"),
    ("ga:medium", "sessionMedium"),
    ("ga:country", "country"),
    ("ga:city", "city"),
    ("ga:deviceCategory", "deviceCategory"),
    ("ga:browser", "browser"),
    ("ga:operatingSystem", "operatingSystem"),
    ("ga:language", "language"),
    ("ga:userGender", "userGender"),
    ("ga:userAgeBracket", "userAgeBracket"),
    ("ga:eventName", "eventName"),
    ("ga:channelGrouping", "sessionDefaultChannelGroup"),
    ("ga:region", "region"),
    ("ga:continent", "continent"),
    ("ga:platform", "platform"),
    ("ga:appVersion", "appVersion"),
    ("ga:pageTitle", "pageTitle"),
    ("ga:sourceMedium", "sourceMedium"),
    ("ga:campaign", "campaignName"),
    ("ga:hostname", "hostName")
  ]

  /**
   * The dimension the i-th alias key maps to: the dimension list after
   * "date", with its first two entries in the other order.
   */
  function AliasTarget(i: nat): string
    requires i < 22
  {
    if i == 0 then Dimensions[2] else if i == 1 then Dimensions[1] else Dimensions[i + 1]
  }

  /** No name occurs twice in `s`. */
  predicate Distinct(s: seq<string>) {
    forall i, j :: 0 <= i < j < |s| ==> s[i] != s[j]
  }

  /** No name of `s` at an index in [lo1, hi1) equals one at a later index in [lo2, hi2). */
  predicate DistinctAcross(s: seq<string>, lo1: nat, hi1: nat, lo2: nat, hi2: nat)
    requires hi1 <= |s| && hi2 <= |s|
  {
    forall i, j :: lo1 <= i < hi1 && lo2 <= j < hi2 && i < j ==> s[i] != s[j]
  }

  /** No two keys of `m` share a value. */
  predicate Injective(m: map<string, string>) {
    forall k1, k2 :: k1 in m && k2 in m && k1 != k2 ==> m[k1] != m[k2]
  }

  /** The set of names a list holds. */
  function Elements(s: seq<string>): (r: set<string>)
    ensures forall x :: x in r <==> x in s
  {
    set x | x in s
  }

  /** The keys of a list of pairs, in order. */
  function Keys(pairs: seq<(string, string)>): (r: seq<string>)
    ensures |r| == |pairs|
    ensures forall i :: 0 <= i < |pairs| ==> r[i] == pairs[i].0
  {
    seq(|pairs|, i requires 0 <= i < |pairs| => pairs[i].0)
  }

  /** The values of a list of pairs, in order. */
  function Targets(pairs: seq<(string, string)>): (r: seq<string>)
    ensures |r| == |pairs|
    ensures forall i :: 0 <= i < |pairs| ==> r[i] == pairs[i].1
  {
    seq(|pairs|, i requires 0 <= i < |pairs| => pairs[i].1)
  }

  /** `m` holds exactly the entries listed in `pairs`. */
  predicate ListedBy(m: map<string, string>, pairs: seq<(string, string)>) {
    && (forall k :: k in m ==> (k, m[k]) in pairs)
    && (forall i :: 0 <= i < |pairs| ==> pairs[i].0 in m && m[pairs[i].0] == pairs[i].1)
  }

  /** A map listed by `pairs` has the listed keys and the listed values. */
  lemma ListedKeysValues(m: map<string, string>, pairs: seq<(string, string)>)
    requires ListedBy(m, pairs)
    ensures m.Keys == Elements(Keys(pairs))
    ensures m.Values == Elements(Targets(pairs))
  {
    forall k | k in m ensures k in Elements(Keys(pairs)) {
      var i :| 0 <= i < |pairs| && pairs[i] == (k, m[k]);
      assert Keys(pairs)[i] == k;
    }
    forall v | v in m.Values ensures v in Elements(Targets(pairs)) {
      var k :| k in m && m[k] == v;
      var i :| 0 <= i < |pairs| && pairs[i] == (k, v);
      assert Targets(pairs)[i] == v;
    }
    forall v | v in Elements(Targets(pairs)) ensures v in m.Values {
      var i :| 0 <= i < |pairs| && Targets(pairs)[i] == v;
      assert pairs[i].0 in m && m[pairs[i].0] == v;
    }
  }

  /** A map listed by pairs whose values are distinct is injective. */
  lemma ListedInjective(m: map<string, string>, pairs: seq<(string, string)>)
    requires ListedBy(m, pairs)
    requires Distinct(Targets(pairs))
    ensures Injective(m)
  {
    forall k1, k2 | k1 in m && k2 in m && k1 != k2 ensures m[k1] != m[k2] {
      var i :| 0 <= i < |pairs| && pairs[i] == (k1, m[k1]);
      var j :| 0 <= j < |pairs| && pairs[j] == (k2, m[k2]);
      assert Targets(pairs)[i] == m[k1] && Targets(pairs)[j] == m[k2];
    }
  }

  lemma TableSizes()
    ensures |Metrics| == 15 && |Dimensions| == 23 && |AliasPairs| == 22
  {
  }

  // The facts about the literals are proved a few entries at a time: one
  // proof over a whole table is more than the solver should be asked for.

  /** Every entry of the map is listed, and every listed key is in the map. */
  lemma AliasPairsMatchMap()
    ensures forall k :: k in UaToGa4 ==> (k, UaToGa4[k]) in AliasPairs
    ensures forall i :: 0 <= i < |AliasPairs| ==> AliasPairs[i].0 in UaToGa4
  {
  }

  lemma AliasPairKeysDistinct()
    ensures forall i, j :: 0 <= i < j < |AliasPairs| ==> AliasPairs[i].0 != AliasPairs[j].0
  {
  }

  lemma AliasPairTargets0()
    ensures forall i :: 0 <= i < 11 ==> AliasPairs[i].1 == AliasTarget(i)
  {
  }

  lemma AliasPairTargets1()
    ensures forall i :: 11 <= i < |AliasPairs| ==> AliasPairs[i].1 == AliasTarget(i)
  {
  }

  /** The alias map holds exactly the entries `AliasPairs` lists. */
  lemma AliasListing()
    ensures ListedBy(UaToGa4, AliasPairs)
  {
    AliasPairsMatchMap();
    AliasPairKeysDistinct();
    forall i | 0 <= i < |AliasPairs| ensures UaToGa4[AliasPairs[i].0] == AliasPairs[i].1 {
      var k := AliasPairs[i].0;
      var j :| 0 <= j < |AliasPairs| && AliasPairs[j] == (k, UaToGa4[k]);
      assert i == j;
    }
  }

  /** The i-th alias target is `AliasTarget(i)`. */
  lemma AliasTargetsListed()
    ensures forall i :: 0 <= i < |AliasPairs| ==> Targets(AliasPairs)[i] == AliasTarget(i)
  {
    AliasPairTargets0();
    AliasPairTargets1();
  }

  lemma MetricsDistinct()
    ensures Distinct(Metrics)
  {
  }

  lemma DimensionsBlock0() ensures DistinctAcross(Dimensions, 0, 8, 0, 8) { }
  lemma DimensionsBlock1() ensures DistinctAcross(Dimensions, 8, 16, 8, 16) { }
  lemma DimensionsBlock2() ensures DistinctAcross(Dimensions, 16, 23, 16, 23) { }
  lemma DimensionsBlock3() ensures DistinctAcross(Dimensions, 0, 8, 8, 16) { }
  lemma DimensionsBlock4() ensures DistinctAcross(Dimensions, 0, 8, 16, 23) { }
  lemma DimensionsBlock5() ensures DistinctAcross(Dimensions, 8, 16, 16, 23) { }

  /** The dimension list does not repeat a name. */
  lemma DimensionsDistinct()
    ensures Distinct(Dimensions)
  {
    DimensionsBlock0();
    DimensionsBlock1();
    DimensionsBlock2();
    DimensionsBlock3();
    DimensionsBlock4();
    DimensionsBlock5();
  }

  lemma DisjointBlock0()
    ensures forall i, j :: 0 <= i < |Metrics| && 0 <= j < 12 ==> Metrics[i] != Dimensions[j]
  {
  }

  lemma DisjointBlock1()
    ensures forall i, j :: 0 <= i < |Metrics| && 12 <= j < |Dimensions| ==> Metrics[i] != Dimensions[j]
  {
  }

  /** A name is never both a metric and a dimension. */
  lemma MetricsDimensionsDisjoint()
    ensures forall m :: m in Metrics ==> m !in Dimensions
  {
    DisjointBlock0();
    DisjointBlock1();
  }

  /** Every alias resolves to a canonical dimension. */
  lemma AliasTargetsAreDimensions()
    ensures forall k :: k in UaToGa4 ==> UaToGa4[k] in Dimensions
  {
  }

  /** So an alias never resolves to a metric. */
  lemma AliasTargetsAreNotMetrics()
    ensures forall k :: k in UaToGa4 ==> UaToGa4[k] !in Metrics
  {
    AliasTargetsAreDimensions();
    MetricsDimensionsDisjoint();
  }

  /** Every alias key carries the Universal Analytics prefix "ga:". */
  lemma AliasKeysArePrefixed()
    ensures forall k :: k in UaToGa4 ==> |k| > 3 && k[..3] == "ga:"
  {
  }

  /** No canonical metric or dimension name has ':' as its third character, so none starts with "ga:". */
  lemma CanonicalNamesUnprefixed()
    ensures forall i :: 0 <= i < |Metrics| ==> |Metrics[i]| < 3 || Metrics[i][2] != ':'
    ensures forall i :: 0 <= i < |Dimensions| ==> |Dimensions[i]| < 3 || Dimensions[i][2] != ':'
  {
  }

  lemma PrefixedNameNotListed(k: string, names: seq<string>)
    requires |k| > 3 && k[..3] == "ga:"
    requires forall i :: 0 <= i < |names| ==> |names[i]| < 3 || names[i][2] != ':'
    ensures k !in names
  {
    assert k[2] == ':';
  }

  /**
   * No alias key is itself a canonical name, so the validator consults the
   * alias map only for names that are not in the allow-list of either kind.
   */
  lemma AliasKeysAreNotCanonical()
    ensures forall k :: k in UaToGa4 ==> k !in Metrics && k !in Dimensions
  {
    AliasKeysArePrefixed();
    CanonicalNamesUnprefixed();
    forall k | k in UaToGa4 ensures k !in Metrics && k !in Dimensions {
      PrefixedNameNotListed(k, Metrics);
      PrefixedNameNotListed(k, Dimensions);
    }
  }

  /** The alias targets, in order, repeat no name. */
  lemma AliasTargetsDistinct()
    ensures Distinct(Targets(AliasPairs))
  {
    AliasTargetsListed();
    DimensionsDistinct();
  }

  /** The alias targets are the dimensions other than "date". */
  lemma AliasTargetSet()
    ensures Elements(Targets(AliasPairs)) == Elements(Dimensions) - {"date"}
  {
    AliasTargetsListed();
    DimensionsDistinct();
    var t := Targets(AliasPairs);
    forall d | d in Elements(Dimensions) - {"date"} ensures d in Elements(t) {
      var i :| 0 <= i < |Dimensions| && Dimensions[i] == d;
      var k := if i == 1 then 1 else if i == 2 then 0 else i - 1;
      assert t[k] == d;
    }
    forall v | v in Elements(t) ensures v in Elements(Dimensions) - {"date"} {
      var i :| 0 <= i < |t| && t[i] == v;
      assert Dimensions[0] == "date";
    }
  }

  /** Distinct aliases resolve to distinct dimensions. */
  lemma AliasesInjective()
    ensures Injective(UaToGa4)
  {
    AliasListing();
    AliasTargetsDistinct();
    ListedInjective(UaToGa4, AliasPairs);
  }

  /** The aliases resolve to every dimension except "date", and to nothing else. */
  lemma AliasTargetsCoverDimensionsButDate()
    ensures UaToGa4.Values == Elements(Dimensions) - {"date"}
  {
    AliasListing();
    ListedKeysValues(UaToGa4, AliasPairs);
    AliasTargetSet();
  }

  lemma {:induction false} DistinctElements(s: seq<string>)
    requires Distinct(s)
    ensures |Elements(s)| == |s|
  {
    if s != [] {
      var last := s[|s| - 1];
      assert Distinct(s[..|s| - 1]);
      DistinctElements(s[..|s| - 1]);
      assert Elements(s) == Elements(s[..|s| - 1]) + {last};
      assert last !in Elements(s[..|s| - 1]);
    }
  }

  /** The alias map has 22 entries, resolving to 22 different dimensions. */
  lemma AliasCount()
    ensures |UaToGa4| == 22 && |UaToGa4.Values| == 22
  {
    AliasListing();
    ListedKeysValues(UaToGa4, AliasPairs);
    AliasPairKeysDistinct();
    DistinctElements(Keys(AliasPairs));
    AliasTargetsDistinct();
    DistinctElements(Targets(AliasPairs));
  }
}
