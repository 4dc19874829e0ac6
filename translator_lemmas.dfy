/**
 * What the translator promises its caller: the order in which a reply is
 * classified, that validation is all-or-nothing, what a successful query
 * holds, and that the caller can tell the outcomes apart.
 */
module TranslatorLemmas {
  import opened Wrappers
  import opened JsonValue
  import Ga4Fields
  import Validator
  import opened Translator

  type Decoder = string -> Option<map<string, Json>>

  // ------------------------------------------------ before validation

  /** An empty-response error comes from a reply that is all whitespace, and only from one. */
  lemma EmptyResponseIffBlank(reg: Registry, reply: Reply, parse: Decoder)
    ensures Translate(reg, reply, parse) == Error(EmptyResponse) <==> reply.Replied? && AllSpace(reply.content)
  {
  }

  /** A blank reply is never handed to the decoder: any two decoders give the same outcome. */
  lemma BlankReplyNeverDecoded(reg: Registry, text: string, parse1: Decoder, parse2: Decoder)
    requires AllSpace(text)
    ensures Translate(reg, Replied(text), parse1) == Translate(reg, Replied(text), parse2)
  {
  }

  /** The decoder only ever sees the stripped reply. */
  lemma DecoderSeesStrippedText(reg: Registry, text: string, parse1: Decoder, parse2: Decoder)
    requires parse1(Strip(text)) == parse2(Strip(text))
    ensures Translate(reg, Replied(text), parse1) == Translate(reg, Replied(text), parse2)
  {
  }

  /** A non-blank reply the decoder rejects is an invalid-response error. */
  lemma UndecodableIsInvalidResponse(reg: Registry, text: string, parse: Decoder)
    requires !AllSpace(text) && parse(Strip(text)).None?
    ensures Translate(reg, Replied(text), parse) == Error(InvalidResponse)
  {
  }

  /** A "rephrase" key wins over everything else in the object; nothing is validated. */
  lemma RephraseBypassesValidation(reg: Registry, params: map<string, Json>)
    requires "rephrase" in params
    ensures Interpret(reg, params) == Rephrase(params["rephrase"])
  {
  }

  // ------------------------------------------------------ validation

  /** The validator's allow-list and alias map accept exactly the known metric names. */
  lemma KnownMetricResolves(reg: Registry, v: Json)
    ensures v in MetricNames(reg) || v in AliasNames(reg) <==> KnownMetric(reg, v)
  {
    StringsMembership(reg.metrics, v);
  }

  /** The validator's allow-list and alias map accept exactly the known dimension names. */
  lemma KnownDimensionResolves(reg: Registry, v: Json)
    ensures v in DimensionNames(reg) || v in AliasNames(reg) <==> KnownDimension(reg, v)
  {
    StringsMembership(reg.dimensions, v);
  }

  lemma NoneRejectedIffAllKnownMetrics(reg: Registry, ms: seq<Json>)
    ensures Validator.Rejected(ms, MetricNames(reg), AliasNames(reg)) == [] <==> forall v :: v in ms ==> KnownMetric(reg, v)
  {
    Validator.NothingRejected(ms, MetricNames(reg), AliasNames(reg));
    forall v ensures v in MetricNames(reg) || v in AliasNames(reg) <==> KnownMetric(reg, v) {
      KnownMetricResolves(reg, v);
    }
  }

  lemma NoneRejectedIffAllKnownDimensions(reg: Registry, ds: seq<Json>)
    ensures Validator.Rejected(ds, DimensionNames(reg), AliasNames(reg)) == [] <==> forall v :: v in ds ==> KnownDimension(reg, v)
  {
    Validator.NothingRejected(ds, DimensionNames(reg), AliasNames(reg));
    forall v ensures v in DimensionNames(reg) || v in AliasNames(reg) <==> KnownDimension(reg, v) {
      KnownDimensionResolves(reg, v);
    }
  }

  /**
   * No partial queries: a decoded object without "rephrase" becomes a query
   * exactly when both lists can be iterated and every item in them is a
   * known name (canonical or alias) of its own kind.
   */
  lemma QueryIffAllFieldsKnown(reg: Registry, params: map<string, Json>)
    requires "rephrase" !in params
    ensures Interpret(reg, params).Query? <==>
              && FieldItems(params, "metrics").Ok?
              && FieldItems(params, "dimensions").Ok?
              && (forall v :: v in FieldItems(params, "metrics").value ==> KnownMetric(reg, v))
              && (forall v :: v in FieldItems(params, "dimensions").value ==> KnownDimension(reg, v))
  {
    if FieldItems(params, "metrics").Ok? && FieldItems(params, "dimensions").Ok? {
      NoneRejectedIffAllKnownMetrics(reg, FieldItems(params, "metrics").value);
      NoneRejectedIffAllKnownDimensions(reg, FieldItems(params, "dimensions").value);
    }
  }

  /**
   * An exception raised while reading a field list (a value that cannot be
   * iterated, or a list or dict item looked up in the alias map) is caught by
   * the outer handler: the outcome is the API error carrying it, never a
   * field error. The metric list is read first.
   */
  lemma ReadingErrorIsApiError(reg: Registry, params: map<string, Json>)
    requires "rephrase" !in params
    ensures FieldItems(params, "metrics").Err? ==>
              Interpret(reg, params) == Error(ApiError(FieldItems(params, "metrics").error))
    ensures FieldItems(params, "metrics").Ok? && FieldItems(params, "dimensions").Err? ==>
              Interpret(reg, params) == Error(ApiError(FieldItems(params, "dimensions").error))
  {
  }

  /**
   * When both lists iterate but the object is not accepted, the single error
   * lists every unknown item of each bucket, and nothing else. The lists are
   * the validator's rejected lists, so they keep input order and duplicates.
   */
  lemma InvalidFieldsListed(reg: Registry, params: map<string, Json>)
    requires "rephrase" !in params
    requires FieldItems(params, "metrics").Ok? && FieldItems(params, "dimensions").Ok?
    ensures var o := Interpret(reg, params);
            o.Query? || (o.Error? && o.failure.InvalidFields? &&
              (forall v :: v in o.failure.metrics <==>
                 v in FieldItems(params, "metrics").value && !KnownMetric(reg, v)) &&
              (forall v :: v in o.failure.dimensions <==>
                 v in FieldItems(params, "dimensions").value && !KnownDimension(reg, v)))
    ensures var o := Interpret(reg, params);
            o.Error? ==> o.failure == InvalidFields(
              Validator.Rejected(FieldItems(params, "metrics").value, MetricNames(reg), AliasNames(reg)),
              Validator.Rejected(FieldItems(params, "dimensions").value, DimensionNames(reg), AliasNames(reg)))
  {
    var ms := FieldItems(params, "metrics").value;
    var ds := FieldItems(params, "dimensions").value;
    forall v ensures v in Validator.Rejected(ms, MetricNames(reg), AliasNames(reg)) <==> v in ms && !KnownMetric(reg, v) {
      Validator.RejectedMembers(ms, MetricNames(reg), AliasNames(reg), v);
      KnownMetricResolves(reg, v);
    }
    forall v ensures v in Validator.Rejected(ds, DimensionNames(reg), AliasNames(reg)) <==> v in ds && !KnownDimension(reg, v) {
      Validator.RejectedMembers(ds, DimensionNames(reg), AliasNames(reg), v);
      KnownDimensionResolves(reg, v);
    }
  }

  // ---------------------------------------------------------- the query

  /**
   * A query is the decoded object with "metrics" and "dimensions" replaced
   * by the validated lists ([] when the key was absent) and every other key
   * kept as decoded.
   */
  lemma QueryKeepsOtherKeys(reg: Registry, params: map<string, Json>, q: map<string, Json>)
    requires Interpret(reg, params) == Query(q)
    ensures q.Keys == params.Keys + {"metrics", "dimensions"}
    ensures forall k :: k in params && k != "metrics" && k != "dimensions" ==> q[k] == params[k]
    ensures FieldItems(params, "metrics").Ok? && FieldItems(params, "dimensions").Ok?
    ensures q["metrics"] == JArray(Validator.Accepted(FieldItems(params, "metrics").value, MetricNames(reg), AliasNames(reg)))
    ensures q["dimensions"] == JArray(Validator.Accepted(FieldItems(params, "dimensions").value, DimensionNames(reg), AliasNames(reg)))
    ensures "metrics" !in params ==> q["metrics"] == JArray([])
    ensures "dimensions" !in params ==> q["dimensions"] == JArray([])
    ensures "rephrase" !in q
  {
  }

  /** What an accepted item can be, given where it came from. */
  lemma AcceptedItemIsName(reg: Registry, items: seq<Json>, names: seq<string>, v: Json)
    requires v in Validator.Accepted(items, Strings(names), AliasNames(reg))
    ensures v.JString? && (v.s in names || v.s in reg.aliases.Values)
  {
    Validator.AcceptedOrigins(items, Strings(names), AliasNames(reg), v);
    if v in items && v in Strings(names) {
      StringsMembership(names, v);
    } else {
      var k :| k in items && k !in Strings(names) && k in AliasNames(reg) && AliasNames(reg)[k] == v;
      assert v == JString(reg.aliases[k.s]);
    }
  }

  /**
   * When every alias names a dimension, every dimension of a query is a
   * canonical dimension. A metric is a canonical metric or, when an alias was
   * given in the metric list, the dimension the alias names: the alias target
   * is not checked against the metric allow-list.
   */
  lemma QueryNamesAreCanonical(reg: Registry, params: map<string, Json>, q: map<string, Json>)
    requires forall k :: k in reg.aliases ==> reg.aliases[k] in reg.dimensions
    requires Interpret(reg, params) == Query(q)
    ensures q["dimensions"].JArray? && q["metrics"].JArray?
    ensures forall v :: v in q["dimensions"].items ==> v.JString? && v.s in reg.dimensions
    ensures forall v :: v in q["metrics"].items ==>
              v.JString? && (v.s in reg.metrics || v.s in reg.dimensions)
  {
    QueryKeepsOtherKeys(reg, params, q);
    var ms := FieldItems(params, "metrics").value;
    var ds := FieldItems(params, "dimensions").value;
    forall v | v in q["dimensions"].items ensures v.JString? && v.s in reg.dimensions {
      AcceptedItemIsName(reg, ds, reg.dimensions, v);
    }
    forall v | v in q["metrics"].items
      ensures v.JString? && (v.s in reg.metrics || v.s in reg.dimensions)
    {
      AcceptedItemIsName(reg, ms, reg.metrics, v);
    }
  }

  /** With the GA4 tables: every query dimension is in GA4_DIMENSIONS, every query metric in GA4_METRICS or GA4_DIMENSIONS. */
  lemma Ga4QueryNamesAreCanonical(params: map<string, Json>, q: map<string, Json>)
    requires Interpret(Ga4, params) == Query(q)
    ensures q["dimensions"].JArray? && q["metrics"].JArray?
    ensures forall v :: v in q["dimensions"].items ==> v.JString? && v.s in Ga4Fields.Dimensions
    ensures forall v :: v in q["metrics"].items ==>
              v.JString? && (v.s in Ga4Fields.Metrics || v.s in Ga4Fields.Dimensions)
  {
    assert forall k :: k in Ga4.aliases ==> Ga4.aliases[k] in Ga4.dimensions by {
      Ga4Fields.AliasTargetsAreDimensions();
    }
    QueryNamesAreCanonical(Ga4, params, q);
  }

  // ------------------------------------------------------ worked cases
  //
  // Each case is proved for any registry with the few facts it relies on,
  // then instantiated with the GA4 tables.

  /** The GA4 names the worked cases use, as the tables list them. */
  lemma Ga4ListedNames()
    ensures "totalUsers" in Ga4.metrics && "country" in Ga4.dimensions && "date" in Ga4.dimensions
  {
  }

  /** Names the GA4 tables do not list where the worked cases look. */
  lemma Ga4UnlistedNames()
    ensures "ga:country" !in Ga4.metrics && "ga:bogus" !in Ga4.metrics && "totalUsers" !in Ga4.dimensions
  {
    Ga4Fields.CanonicalNamesUnprefixed();
    Ga4Fields.PrefixedNameNotListed("ga:country", Ga4.metrics);
    Ga4Fields.PrefixedNameNotListed("ga:bogus", Ga4.metrics);
    Ga4ListedNames();
    Ga4Fields.MetricsDimensionsDisjoint();
  }

  /** Names the GA4 alias map has, or lacks. */
  lemma Ga4AliasNames()
    ensures "ga:country" in Ga4.aliases && Ga4.aliases["ga:country"] == "country"
    ensures "ga:bogus" !in Ga4.aliases && "totalUsers" !in Ga4.aliases
  {
  }

  /** An alias given as a metric comes back as its target, whatever kind of name that is. */
  lemma AliasGivenAsMetricIsReplaced(reg: Registry)
    requires "ga:country" !in reg.metrics && "ga:country" in reg.aliases && reg.aliases["ga:country"] == "country"
    ensures Interpret(reg, map["metrics" := JArray([JString("ga:country")])])
            == Query(map["metrics" := JArray([JString("country")]), "dimensions" := JArray([])])
  {
    var item := JString("ga:country");
    StringsMembership(reg.metrics, item);
    assert item in AliasNames(reg) && AliasNames(reg)[item] == JString("country");
    Validator.AliasResolvedUnchecked(item, MetricNames(reg), AliasNames(reg));
  }

  /** With the GA4 tables, "ga:country" as a metric becomes the metric "country", which is a dimension. */
  lemma Ga4AliasGivenAsMetricBecomesDimension()
    ensures Interpret(Ga4, map["metrics" := JArray([JString("ga:country")])])
            == Query(map["metrics" := JArray([JString("country")]), "dimensions" := JArray([])])
  {
    Ga4UnlistedNames();
    Ga4AliasNames();
    AliasGivenAsMetricIsReplaced(Ga4);
  }

  /** An answer that names only canonical fields passes through unchanged, other keys included. */
  lemma CanonicalAnswerAccepted(reg: Registry, params: map<string, Json>, metric: string, dimension: string)
    requires "rephrase" !in params
    requires metric in reg.metrics && dimension in reg.dimensions
    requires "metrics" in params && params["metrics"] == JArray([JString(metric)])
    requires "dimensions" in params && params["dimensions"] == JArray([JString(dimension)])
    ensures Interpret(reg, params) == Query(params)
  {
    StringsMembership(reg.metrics, JString(metric));
    StringsMembership(reg.dimensions, JString(dimension));
    Validator.AllowedNamesPassUnchanged([JString(metric)], MetricNames(reg), AliasNames(reg));
    Validator.AllowedNamesPassUnchanged([JString(dimension)], DimensionNames(reg), AliasNames(reg));
    assert params["metrics" := JArray([JString(metric)])]["dimensions" := JArray([JString(dimension)])] == params;
  }

  /** With the GA4 tables, the example answer in the prompt passes through unchanged. */
  lemma Ga4UsersFromUnitedStatesAccepted()
    ensures var params := map[
              "metrics" := JArray([JString("totalUsers")]),
              "dimensions" := JArray([JString("country")]),
              "filters" := JObject([("country", JString("United States"))]),
              "summary" := JString("Total users from the United States (all time or most recent data).")];
            Interpret(Ga4, params) == Query(params)
  {
    var params := map[
      "metrics" := JArray([JString("totalUsers")]),
      "dimensions" := JArray([JString("country")]),
      "filters" := JObject([("country", JString("United States"))]),
      "summary" := JString("Total users from the United States (all time or most recent data).")];
    Ga4ListedNames();
    CanonicalAnswerAccepted(Ga4, params, "totalUsers", "country");
  }

  /** One unknown name spoils the whole query, even next to valid ones. */
  lemma UnknownFieldRejectsQuery(reg: Registry, metric: string, unknown: string, dimension: string)
    requires metric in reg.metrics && dimension in reg.dimensions
    requires unknown !in reg.metrics && unknown !in reg.aliases
    ensures Interpret(reg, map[
              "metrics" := JArray([JString(metric), JString(unknown)]),
              "dimensions" := JArray([JString(dimension)])])
            == Error(InvalidFields([JString(unknown)], []))
  {
    var ms := [JString(metric), JString(unknown)];
    var ds := [JString(dimension)];
    var params := map["metrics" := JArray(ms), "dimensions" := JArray(ds)];
    assert FieldItems(params, "metrics") == Ok(ms);
    assert FieldItems(params, "dimensions") == Ok(ds);
    StringsMembership(reg.metrics, JString(metric));
    StringsMembership(reg.metrics, JString(unknown));
    StringsMembership(reg.dimensions, JString(dimension));
    assert Validator.Rejected(ms[1..], MetricNames(reg), AliasNames(reg)) == [JString(unknown)];
    assert Validator.Rejected(ms, MetricNames(reg), AliasNames(reg)) == [JString(unknown)];
    Validator.AllowedNamesPassUnchanged(ds, DimensionNames(reg), AliasNames(reg));
  }

  /** With the GA4 tables, "ga:bogus" next to "totalUsers" rejects the query. */
  lemma Ga4BogusFieldRejectsQuery()
    ensures Interpret(Ga4, map[
              "metrics" := JArray([JString("totalUsers"), JString("ga:bogus")]),
              "dimensions" := JArray([JString("country")])])
            == Error(InvalidFields([JString("ga:bogus")], []))
  {
    Ga4ListedNames();
    Ga4UnlistedNames();
    Ga4AliasNames();
    UnknownFieldRejectsQuery(Ga4, "totalUsers", "ga:bogus", "country");
  }

  /** A metric name is not accepted as a dimension; order is kept. */
  lemma MetricAsDimensionRejected()
    ensures Validator.Accepted(["date", "totalUsers"], Ga4.dimensions, Ga4.aliases) == ["date"]
    ensures Validator.Rejected(["date", "totalUsers"], Ga4.dimensions, Ga4.aliases) == ["totalUsers"]
  {
    Ga4ListedNames();
    Ga4UnlistedNames();
    Ga4AliasNames();
  }

  /** A number as the metric list raises TypeError inside the try block, reported as an API error. */
  lemma NumberAsMetricsIsApiError(reg: Registry)
    ensures Interpret(reg, map["metrics" := JInt(5)]) == Error(ApiError(NotIterable(JInt(5))))
  {
  }

  /** The text the caller sees for that error. */
  lemma NotIterableMessage(show: Json -> string)
    ensures Message(ApiError(NotIterable(JInt(5))), show)
            == ApiErrorPrefix + "'int' object is not iterable" + ApiErrorAdvice
  {
    assert TypeName(JInt(5)) == "int";
    assert "'" + "int" + "'" + " object is not iterable" == "'int' object is not iterable";
  }

  /**
   * A non-empty string as the metric list is iterated character by
   * character, and single characters are never known names when every
   * metric and every alias key is longer: the field error reports exactly
   * what iterating the string yields, one one-character string per
   * character, in order.
   */
  lemma StringAsMetricsIsSplit(reg: Registry, s: string)
    requires s != []
    requires forall i :: 0 <= i < |reg.metrics| ==> |reg.metrics[i]| > 1
    requires forall k :: k in reg.aliases ==> |k| > 1
    ensures Interpret(reg, map["metrics" := JString(s)]) == Error(InvalidFields(Iterate(JString(s)).value, []))
  {
    var params := map["metrics" := JString(s)];
    var items := FieldItems(params, "metrics").value;
    assert FieldItems(params, "dimensions") == Ok([]);
    forall i | 0 <= i < |items| ensures items[i] !in MetricNames(reg) && items[i] !in AliasNames(reg) {
      assert |items[i].s| == 1;
      KnownMetricResolves(reg, items[i]);
    }
    Validator.UnknownNamesAllRejected(items, MetricNames(reg), AliasNames(reg));
  }

  /** "views" as the metric list is reported as its five letters. */
  lemma ViewsAsMetricsIsSplit(reg: Registry)
    requires forall i :: 0 <= i < |reg.metrics| ==> |reg.metrics[i]| > 1
    requires forall k :: k in reg.aliases ==> |k| > 1
    ensures Interpret(reg, map["metrics" := JString("views")])
            == Error(InvalidFields([JString("v"), JString("i"), JString("e"), JString("w"), JString("s")], []))
  {
    ViewsIteratedByCharacter();
    StringAsMetricsIsSplit(reg, "views");
  }

  /** `for f in "views"` yields the five one-letter strings. */
  lemma ViewsIteratedByCharacter()
    ensures Iterate(JString("views")) == Ok([JString("v"), JString("i"), JString("e"), JString("w"), JString("s")])
  {
    var items := [JString("v"), JString("i"), JString("e"), JString("w"), JString("s")];
    var chars := Iterate(JString("views")).value;
    assert chars[0] == items[0] && chars[1] == items[1] && chars[2] == items[2] && chars[3] == items[3] && chars[4] == items[4];
    assert chars == items;
  }

  /** With the GA4 tables, "views" as the metric list is rejected letter by letter. */
  lemma Ga4StringAsMetricsIsSplit()
    ensures Interpret(Ga4, map["metrics" := JString("views")])
            == Error(InvalidFields([JString("v"), JString("i"), JString("e"), JString("w"), JString("s")], []))
  {
    assert forall i :: 0 <= i < |Ga4.metrics| ==> |Ga4.metrics[i]| > 1;
    assert forall k :: k in Ga4.aliases ==> |k| > 1 by {
      Ga4Fields.AliasKeysArePrefixed();
    }
    ViewsAsMetricsIsSplit(Ga4);
  }

  // ------------------------------------------------- the returned dict

  /**
   * The dict returned for each outcome: an error carries only "error", a
   * rephrase only "rephrase", and a query never "rephrase" but always both
   * field lists, so a caller that tests "rephrase" first reads a query
   * correctly.
   */
  lemma ResponseKeys(reg: Registry, params: map<string, Json>, show: Json -> string)
    ensures var o := Interpret(reg, params);
            var r := Response(o, show);
            && (o.Error? ==> r.Keys == {"error"} && r["error"] == JString(Message(o.failure, show)))
            && (o.Rephrase? ==> r.Keys == {"rephrase"} && r["rephrase"] == params["rephrase"])
            && (o.Query? ==> "rephrase" !in r && "metrics" in r && "dimensions" in r)
  {
  }

  /**
   * An "error" key the language model put in its answer survives into the
   * query, so a caller that tests "error" before "metrics" shows a valid
   * query as an error.
   */
  lemma QueryMayCarryErrorKey(reg: Registry)
    ensures Interpret(reg, map["error" := JString("x")])
            == Query(map["error" := JString("x"), "metrics" := JArray([]), "dimensions" := JArray([])])
  {
    var params := map["error" := JString("x")];
    assert FieldItems(params, "metrics") == Ok([]);
    assert FieldItems(params, "dimensions") == Ok([]);
  }
}
