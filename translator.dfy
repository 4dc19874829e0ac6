/**
 * The query translator (nlq_to_ga4_params) from the moment the language
 * model has answered: the answer is stripped, decoded, and classified into
 * exactly one of an error, a rephrase suggestion, or a GA4 query whose
 * metrics and dimensions have been checked by the field validator.
 *
 * The language-model call is an input (`Reply`): it either raised, or
 * produced a text. The JSON decoder is the parameter `parse`: it either
 * fails, or yields the decoded object as a key-to-value map.
 */
module Translator {
  import opened Wrappers
  import opened JsonValue
  import Ga4Fields
  import Validator

  /** The outcome of the language-model call. */
  datatype Reply =
    | Raised(detail: string)      // the call, or reading its first choice, raised
    | Replied(content: string)    // the text of the first choice

  /** Why an exception reached the translator's outer handler. */
  datatype Cause =
    | Backend(detail: string)     // raised by the language-model call
    | NotIterable(value: Json)    // `for f in value` on a number, bool or null
    | Unhashable(item: Json)      // `f in mapping` on a list or dict

  datatype Failure =
    | ApiError(cause: Cause)
    | EmptyResponse
    | InvalidResponse
    | InvalidFields(metrics: seq<Json>, dimensions: seq<Json>)

  /** The three results the translator returns; exactly one per call. */
  datatype Outcome =
    | Error(failure: Failure)
    | Rephrase(suggestion: Json)
    | Query(params: map<string, Json>)

  // ---------------------------------------------------------------- str.strip

  /** Python's str.isspace on one character. */
  predicate IsSpace(c: char) {
    || c == ' ' || '\t' <= c <= '\r' || '\U{1c}' <= c <= '\U{1f}'
    || c == '\U{85}' || c == '\U{a0}' || c == '\U{1680}'
    || '\U{2000}' <= c <= '\U{200a}' || c == '\U{2028}' || c == '\U{2029}'
    || c == '\U{202f}' || c == '\U{205f}' || c == '\U{3000}'
  }

  predicate AllSpace(s: string) {
    forall k :: 0 <= k < |s| ==> IsSpace(s[k])
  }

  /** The length of the run of whitespace that starts `s`. */
  function LeadingSpaces(s: string): (n: nat)
    ensures n <= |s| && AllSpace(s[..n])
    ensures n < |s| ==> !IsSpace(s[n])
  {
    if s != [] && IsSpace(s[0]) then 1 + LeadingSpaces(s[1..]) else 0
  }

  /** The length of the run of whitespace that ends `s`. */
  function TrailingSpaces(s: string): (n: nat)
    ensures n <= |s| && AllSpace(s[|s| - n..])
    ensures n < |s| ==> !IsSpace(s[|s| - n - 1])
  {
    if s != [] && IsSpace(s[|s| - 1]) then 1 + TrailingSpaces(s[..|s| - 1]) else 0
  }

  /** A text is all whitespace exactly when its leading whitespace is all of it. */
  lemma AllSpaceIffLeadingAll(s: string)
    ensures AllSpace(s) <==> LeadingSpaces(s) == |s|
  {
    if LeadingSpaces(s) == |s| {
      assert s[..|s|] == s;
    }
  }

  /**
   * str.strip(): the slice of `s` left after removing whitespace from both
   * ends. What is cut from either end is whitespace; the result is empty
   * exactly when `s` is all whitespace, and otherwise starts and ends with a
   * non-whitespace character.
   */
  function Strip(s: string): (r: string)
    ensures LeadingSpaces(s) + |r| <= |s| && r == s[LeadingSpaces(s)..LeadingSpaces(s) + |r|]
    ensures AllSpace(s[LeadingSpaces(s) + |r|..])
    ensures r == [] <==> AllSpace(s)
    ensures r != [] ==> !IsSpace(r[0]) && !IsSpace(r[|r| - 1])
  {
    var a := LeadingSpaces(s);
    AllSpaceIffLeadingAll(s);
    if a == |s| then []
    else
      var t := s[a..];
      var b := TrailingSpaces(t);
      assert !IsSpace(t[0]);
      assert b < |t|;
      t[..|t| - b]
  }

  /** Stripping twice is stripping once. */
  lemma StripIdempotent(s: string)
    ensures Strip(Strip(s)) == Strip(s)
  {
    var r := Strip(s);
    if r != [] {
      assert LeadingSpaces(r) == 0;
      assert TrailingSpaces(r) == 0;
    }
  }

  // ----------------------------------------------------------- field lists

  /**
   * What `for f in value` yields: the one-character strings of a str, the
   * items of a list, the keys of a dict; any other value raises TypeError.
   */
  function Iterate(value: Json): (r: Result<seq<Json>, Cause>)
    ensures r.Err? <==> value.JInt? || value.JFloat? || value.JBool? || value.JNull?
    ensures r.Err? ==> r.error == NotIterable(value)
    ensures value.JArray? ==> r == Ok(value.items)
    ensures value.JString? ==> r.Ok? && |r.value| == |value.s|
    ensures value.JString? ==> forall i :: 0 <= i < |value.s| ==> r.value[i] == JString([value.s[i]])
    ensures value.JObject? ==> r.Ok? && |r.value| == |value.members|
    ensures value.JObject? ==> forall i :: 0 <= i < |value.members| ==> r.value[i] == JString(value.members[i].0)
  {
    match value
    case JString(s) => Ok(seq(|s|, i requires 0 <= i < |s| => JString([s[i]])))
    case JArray(items) => Ok(items)
    case JObject(members) => Ok(seq(|members|, i requires 0 <= i < |members| => JString(members[i].0)))
    case _ => Err(NotIterable(value))
  }

  /** The first item that cannot be hashed, if any. */
  function FirstUnhashable(items: seq<Json>): (r: Option<Json>)
    ensures r.None? <==> forall i :: 0 <= i < |items| ==> Hashable(items[i])
    ensures r.Some? ==> exists i :: 0 <= i < |items| && items[i] == r.value && !Hashable(items[i])
                                    && forall j :: 0 <= j < i ==> Hashable(items[j])
  {
    if items == [] then None
    else if !Hashable(items[0]) then Some(items[0])
    else
      var r := FirstUnhashable(items[1..]);
      assert r.Some? ==> exists i :: 0 <= i < |items| && items[i] == r.value && !Hashable(items[i])
                                     && forall j :: 0 <= j < i ==> Hashable(items[j]) by {
        if r.Some? {
          var i :| 0 <= i < |items[1..]| && items[1..][i] == r.value && !Hashable(items[1..][i])
                   && forall j :: 0 <= j < i ==> Hashable(items[1..][j]);
          assert items[i + 1] == r.value;
          forall j | 0 <= j < i + 1 ensures Hashable(items[j]) {
            if j > 0 { assert items[j] == items[1..][j - 1]; }
          }
        }
      }
      r
  }

  /**
   * The items validate_fields receives for `key` (absent means []), or the
   * exception it raises on them: iterating a value that is not iterable, or
   * looking up a list or dict item in the alias map. Such an item never
   * matches a canonical name, so the lookup is always reached for it.
   */
  function FieldItems(params: map<string, Json>, key: string): (r: Result<seq<Json>, Cause>)
    ensures key !in params ==> r == Ok([])
    ensures var v := if key in params then params[key] else JArray([]);
            && (r.Ok? <==> Iterate(v).Ok? && forall i :: 0 <= i < |Iterate(v).value| ==> Hashable(Iterate(v).value[i]))
            && (r.Ok? ==> r.value == Iterate(v).value)
            && (Iterate(v).Err? ==> r == Err(NotIterable(v)))
            && (Iterate(v).Ok? && r.Err? ==> r.error.Unhashable? && FirstUnhashable(Iterate(v).value) == Some(r.error.item))
  {
    var value := if key in params then params[key] else JArray([]);
    match Iterate(value)
    case Err(c) => Err(c)
    case Ok(items) =>
      match FirstUnhashable(items)
      case Some(item) => Err(Unhashable(item))
      case None => Ok(items)
  }

  /**
   * The tables the validator runs against. The translator reads the three
   * literals of the schema registry (`Ga4`); the properties below are proved
   * for any tables, assuming of them only what they need.
   */
  datatype Registry = Registry(metrics: seq<string>, dimensions: seq<string>, aliases: map<string, string>)

  const Ga4: Registry := Registry(Ga4Fields.Metrics, Ga4Fields.Dimensions, Ga4Fields.UaToGa4)

  /** The tables as the decoded strings the validator compares items with. */
  function MetricNames(reg: Registry): seq<Json> { Strings(reg.metrics) }
  function DimensionNames(reg: Registry): seq<Json> { Strings(reg.dimensions) }
  function AliasNames(reg: Registry): map<Json, Json> { StringMap(reg.aliases) }

  /** A decoded item the validator accepts in the metric bucket. */
  predicate KnownMetric(reg: Registry, v: Json) {
    v.JString? && (v.s in reg.metrics || v.s in reg.aliases)
  }

  /** A decoded item the validator accepts in the dimension bucket. */
  predicate KnownDimension(reg: Registry, v: Json) {
    v.JString? && (v.s in reg.dimensions || v.s in reg.aliases)
  }

  // ---------------------------------------------------------- classification

  /**
   * What the translator returns for a decoded object: a rephrase exactly
   * when the object has a "rephrase" key; otherwise an exception raised while
   * reading the field lists, a field error naming at least one field, or a
   * query holding both lists.
   */
  function Interpret(reg: Registry, params: map<string, Json>): (r: Outcome)
    ensures r.Rephrase? <==> "rephrase" in params
    ensures r.Error? ==> || (r.failure.ApiError? && !r.failure.cause.Backend?)
                         || (r.failure.InvalidFields? && (r.failure.metrics != [] || r.failure.dimensions != []))
    ensures r.Query? ==> "metrics" in r.params && r.params["metrics"].JArray?
                         && "dimensions" in r.params && r.params["dimensions"].JArray?
  {
    if "rephrase" in params then Rephrase(params["rephrase"])
    else
      match FieldItems(params, "metrics")
      case Err(c) => Error(ApiError(c))
      case Ok(ms) =>
        match FieldItems(params, "dimensions")
        case Err(c) => Error(ApiError(c))
        case Ok(ds) =>
          var invalidMetrics := Validator.Rejected(ms, MetricNames(reg), AliasNames(reg));
          var invalidDims := Validator.Rejected(ds, DimensionNames(reg), AliasNames(reg));
          if invalidMetrics != [] || invalidDims != [] then
            Error(InvalidFields(invalidMetrics, invalidDims))
          else
            var metrics := Validator.Accepted(ms, MetricNames(reg), AliasNames(reg));
            var dimensions := Validator.Accepted(ds, DimensionNames(reg), AliasNames(reg));
            Query(params["metrics" := JArray(metrics)]["dimensions" := JArray(dimensions)])
  }

  /**
   * What the translator returns once the language model has answered. An
   * error carrying the backend's own exception arises exactly when the call
   * raised; a rephrase or a query needs a non-blank text that decodes.
   */
  function Translate(reg: Registry, reply: Reply, parse: string -> Option<map<string, Json>>): (r: Outcome)
    ensures (r.Error? && r.failure.ApiError? && r.failure.cause.Backend?) <==> reply.Raised?
    ensures !r.Error? ==> reply.Replied? && !AllSpace(reply.content) && parse(Strip(reply.content)).Some?
  {
    match reply
    case Raised(detail) => Error(ApiError(Backend(detail)))
    case Replied(text) =>
      var content := Strip(text);
      if content == [] then Error(EmptyResponse)
      else
        match parse(content)
        case None => Error(InvalidResponse)
        case Some(params) => Interpret(reg, params)
  }

  /**
   * nlq_to_ga4_params after the language-model call: early returns for each
   * failure, both buckets validated before either is reported, and the
   * decoded object's two lists overwritten on success.
   */
  method NlqToGa4Params(reply: Reply, parse: string -> Option<map<string, Json>>)
    returns (result: Outcome)
    ensures result == Translate(Ga4, reply, parse)
  {
    if reply.Raised? {
      return Error(ApiError(Backend(reply.detail)));
    }
    var content := Strip(reply.content);
    if content == [] {
      return Error(EmptyResponse);
    }
    var decoded := parse(content);
    if decoded.None? {
      return Error(InvalidResponse);
    }
    var params := decoded.value;
    ghost var decodedParams := params;
    assert Translate(Ga4, reply, parse) == Interpret(Ga4, decodedParams);
    if "rephrase" in params {
      return Rephrase(params["rephrase"]);
    }
    var metricItems := FieldItems(params, "metrics");
    if metricItems.Err? {
      return Error(ApiError(metricItems.error));
    }
    var metrics, invalidMetrics := Validator.ValidateFields(metricItems.value, MetricNames(Ga4), AliasNames(Ga4));
    var dimensionItems := FieldItems(params, "dimensions");
    if dimensionItems.Err? {
      assert Interpret(Ga4, decodedParams) == Error(ApiError(dimensionItems.error));
      return Error(ApiError(dimensionItems.error));
    }
    var dimensions, invalidDims := Validator.ValidateFields(dimensionItems.value, DimensionNames(Ga4), AliasNames(Ga4));
    if invalidMetrics != [] || invalidDims != [] {
      assert Interpret(Ga4, decodedParams) == Error(InvalidFields(invalidMetrics, invalidDims));
      return Error(InvalidFields(invalidMetrics, invalidDims));
    }
    params := params["metrics" := JArray(metrics)];
    params := params["dimensions" := JArray(dimensions)];
    assert Interpret(Ga4, decodedParams) == Query(params);
    return Query(params);
  }

  // ---------------------------------------------------------------- messages

  const EmptyResponseText :=
    "Language model API returned an empty response. Please check your API key, usage limits, or try again later."
  const InvalidResponseText :=
    "Language model API returned an invalid response. This may be a temporary issue with the API. Please try again, check your API key, or contact support if the problem persists."
  const ApiErrorPrefix := "Language model API error: "
  const ApiErrorAdvice := ". Please check your API key, usage limits, or try again later."
  const FieldsAdvice := ". Please use only valid GA4 fields."

  /** Python's `sep.join(parts)`. */
  function Join(sep: string, parts: seq<string>): string {
    if parts == [] then ""
    else if |parts| == 1 then parts[0]
    else parts[0] + sep + Join(sep, parts[1..])
  }

  /** Joining one more part adds the separator and that part at the end. */
  lemma {:induction false} JoinAppend(sep: string, parts: seq<string>, p: string)
    requires parts != []
    ensures Join(sep, parts + [p]) == Join(sep, parts) + sep + p
  {
    if |parts| == 1 {
      assert (parts + [p])[1..] == [p];
    } else {
      assert (parts + [p])[1..] == parts[1..] + [p];
      JoinAppend(sep, parts[1..], p);
    }
  }

  /** The renderings of the items, in order. */
  function Shown(items: seq<Json>, show: Json -> string): (r: seq<string>)
    ensures |r| == |items| && forall i :: 0 <= i < |items| ==> r[i] == show(items[i])
  {
    seq(|items|, i requires 0 <= i < |items| => show(items[i]))
  }

  /**
   * Python's rendering of a list, given the rendering `show` of one item:
   * "[]" for no items, the one rendering in brackets for one item.
   */
  function ListText(items: seq<Json>, show: Json -> string): (r: string)
    ensures |r| >= 2 && r[0] == '[' && r[|r| - 1] == ']'
    ensures items == [] ==> r == "[]"
    ensures |items| == 1 ==> r == "[" + show(items[0]) + "]"
  {
    "[" + Join(", ", Shown(items, show)) + "]"
  }

  /** One more item adds ", " and its rendering before the closing bracket. */
  lemma ListTextAppend(items: seq<Json>, x: Json, show: Json -> string)
    requires items != []
    ensures var t := ListText(items, show);
            ListText(items + [x], show) == t[..|t| - 1] + ", " + show(x) + "]"
  {
    var parts := Shown(items, show);
    assert Shown(items + [x], show) == parts + [show(x)];
    JoinAppend(", ", parts, show(x));
    var t := ListText(items, show);
    assert t[..|t| - 1] == "[" + Join(", ", parts);
  }

  /**
   * The text of the exception the outer handler catches (`str(e)`): the
   * backend's own text, or a TypeError naming the offending value's type in
   * quotes, at the start for iteration and at the end for hashing.
   */
  function CauseText(c: Cause): (r: string)
    ensures c.Backend? ==> r == c.detail
    ensures c.NotIterable? ==> var q := "'" + TypeName(c.value) + "'"; |q| <= |r| && r[..|q|] == q
    ensures c.Unhashable? ==> var q := "'" + TypeName(c.item) + "'"; |q| <= |r| && r[|r| - |q|..] == q
  {
    match c
    case Backend(detail) => detail
    case NotIterable(value) =>
      Framed("'" + TypeName(value) + "'", "", " object is not iterable");
      "'" + TypeName(value) + "'" + " object is not iterable"
    case Unhashable(item) =>
      Framed("unhashable type: ", "", "'" + TypeName(item) + "'");
      "unhashable type: " + ("'" + TypeName(item) + "'")
  }

  /** The clauses collected in `errors`, metrics first. */
  function FieldClauses(metrics: seq<Json>, dimensions: seq<Json>, show: Json -> string): (r: seq<string>)
    ensures |r| == (if metrics != [] then 1 else 0) + (if dimensions != [] then 1 else 0)
    ensures metrics != [] ==> r[0] == "Invalid metrics: " + ListText(metrics, show)
    ensures dimensions != [] ==> r[|r| - 1] == "Invalid dimensions: " + ListText(dimensions, show)
  {
    (if metrics != [] then ["Invalid metrics: " + ListText(metrics, show)] else [])
    + (if dimensions != [] then ["Invalid dimensions: " + ListText(dimensions, show)] else [])
  }

  /** The text stored under "error" for each failure. */
  function Message(f: Failure, show: Json -> string): (msg: string)
    ensures f.ApiError? ==> && |ApiErrorPrefix| + |ApiErrorAdvice| <= |msg|
                            && msg[..|ApiErrorPrefix|] == ApiErrorPrefix
                            && msg[|ApiErrorPrefix|..|msg| - |ApiErrorAdvice|] == CauseText(f.cause)
                            && msg[|msg| - |ApiErrorAdvice|..] == ApiErrorAdvice
  {
    match f
    case ApiError(c) =>
      Framed(ApiErrorPrefix, CauseText(c), ApiErrorAdvice);
      ApiErrorPrefix + CauseText(c) + ApiErrorAdvice
    case EmptyResponse => EmptyResponseText
    case InvalidResponse => InvalidResponseText
    case InvalidFields(metrics, dimensions) => Join(" ", FieldClauses(metrics, dimensions, show)) + FieldsAdvice
  }

  /** Two parts are joined with one separator between them. */
  lemma JoinTwo(sep: string, a: string, b: string)
    ensures Join(sep, [a, b]) == a + sep + b
  {
    assert [a, b][1..] == [b];
  }

  /**
   * A field error ends with the GA4 advice and starts with the metrics
   * clause when there is one, otherwise with the dimensions clause; with
   * both, the metrics clause comes first and one space separates them.
   */
  lemma FieldErrorText(metrics: seq<Json>, dimensions: seq<Json>, show: Json -> string)
    requires metrics != [] || dimensions != []
    ensures EndsWith(Message(InvalidFields(metrics, dimensions), show), FieldsAdvice)
    ensures metrics != [] ==> StartsWith(Message(InvalidFields(metrics, dimensions), show), "Invalid metrics: ")
    ensures metrics == [] ==> StartsWith(Message(InvalidFields(metrics, dimensions), show), "Invalid dimensions: ")
    ensures metrics != [] && dimensions != [] ==>
              Message(InvalidFields(metrics, dimensions), show)
              == "Invalid metrics: " + ListText(metrics, show) + " "
                 + "Invalid dimensions: " + ListText(dimensions, show) + FieldsAdvice
  {
    var clauses := FieldClauses(metrics, dimensions, show);
    var text := Join(" ", clauses);
    assert Message(InvalidFields(metrics, dimensions), show) == text + FieldsAdvice;
    assert (text + FieldsAdvice)[|text|..] == FieldsAdvice;
    FirstClauseLeads(clauses);
    if metrics != [] {
      StartsWithFirst("Invalid metrics: ", ListText(metrics, show));
      StartsWithTransitive("Invalid metrics: ", clauses[0], text);
      StartsWithFirst(text, FieldsAdvice);
      StartsWithTransitive("Invalid metrics: ", text, text + FieldsAdvice);
      if dimensions != [] {
        BothClauses(metrics, dimensions, show);
      }
    } else {
      StartsWithFirst("Invalid dimensions: ", ListText(dimensions, show));
      StartsWithTransitive("Invalid dimensions: ", clauses[0], text);
      StartsWithFirst(text, FieldsAdvice);
      StartsWithTransitive("Invalid dimensions: ", text, text + FieldsAdvice);
    }
  }

  /** A joined list of one or two clauses starts with the first clause. */
  lemma FirstClauseLeads(clauses: seq<string>)
    requires 1 <= |clauses| <= 2
    ensures StartsWith(Join(" ", clauses), clauses[0])
  {
    if |clauses| == 2 {
      JoinTwo(" ", clauses[0], clauses[1]);
      assert clauses == [clauses[0], clauses[1]];
      StartsWithFirst(clauses[0], " ");
      StartsWithFirst(clauses[0] + " ", clauses[1]);
      StartsWithTransitive(clauses[0], clauses[0] + " ", Join(" ", clauses));
    }
  }

  /** `q` is a suffix of `t`. */
  predicate EndsWith(t: string, q: string) {
    |q| <= |t| && t[|t| - |q|..] == q
  }

  /** `p` is a prefix of `t`. */
  predicate StartsWith(t: string, p: string) {
    |p| <= |t| && t[..|p|] == p
  }

  lemma StartsWithFirst(a: string, b: string)
    ensures StartsWith(a + b, a)
  {
    assert (a + b)[..|a|] == a;
  }

  lemma StartsWithTransitive(p: string, a: string, t: string)
    requires StartsWith(a, p) && StartsWith(t, a)
    ensures StartsWith(t, p)
  {
    assert t[..|p|] == t[..|a|][..|p|];
  }

  /** With both kinds of invalid names, the two clauses are joined by one space. */
  lemma BothClauses(metrics: seq<Json>, dimensions: seq<Json>, show: Json -> string)
    requires metrics != [] && dimensions != []
    ensures Message(InvalidFields(metrics, dimensions), show)
            == "Invalid metrics: " + ListText(metrics, show) + " "
               + "Invalid dimensions: " + ListText(dimensions, show) + FieldsAdvice
  {
    var m := "Invalid metrics: " + ListText(metrics, show);
    var d := "Invalid dimensions: " + ListText(dimensions, show);
    assert FieldClauses(metrics, dimensions, show) == [m, d];
    JoinTwo(" ", m, d);
    Regroup(m + " ", "Invalid dimensions: ", ListText(dimensions, show));
  }

  lemma Regroup(a: string, b: string, c: string)
    ensures a + (b + c) == a + b + c
  {
  }

  /** With one kind of invalid names, the message is its clause and the advice. */
  lemma OneClause(metrics: seq<Json>, dimensions: seq<Json>, show: Json -> string, clause: string)
    requires (metrics == []) != (dimensions == [])
    requires clause == if metrics != [] then "Invalid metrics: " + ListText(metrics, show)
                       else "Invalid dimensions: " + ListText(dimensions, show)
    ensures Message(InvalidFields(metrics, dimensions), show) == clause + FieldsAdvice
  {
    assert FieldClauses(metrics, dimensions, show) == [clause];
  }

  /** A concatenation starts with its first part and ends with its last. */
  lemma Framed(p: string, x: string, q: string)
    ensures (p + x + q)[..|p|] == p && (p + x + q)[|p + x|..] == q
    ensures p + x + q == p + (x + q)
  {
  }

  /** The dict nlq_to_ga4_params returns for an outcome. */
  function Response(o: Outcome, show: Json -> string): (r: map<string, Json>)
    ensures o.Error? ==> r.Keys == {"error"} && r["error"] == JString(Message(o.failure, show))
    ensures o.Rephrase? ==> r.Keys == {"rephrase"} && r["rephrase"] == o.suggestion
    ensures o.Query? ==> r == o.params
  {
    match o
    case Error(f) => map["error" := JString(Message(f, show))]
    case Rephrase(suggestion) => map["rephrase" := suggestion]
    case Query(params) => params
  }
}
