# GA4 natural-language query translator: a Dafny model

The Streamlit front end of the Google Analytics MCP server turns a question in
plain English into Google Analytics 4 (GA4) report parameters. It sends the
question to a language model and decodes the JSON answer. The answer's
`metrics` and `dimensions` are then checked against the GA4 field tables, and
Universal Analytics names (`ga:country`, …) are translated to their GA4
equivalents. The result is exactly one of these dicts:

- an `error` dict;
- a `rephrase` dict, when the model could not map the question;
- the decoded parameters, with validated field lists.

This project models that step and the tables it relies on:

- `fields.dfy` (module `Ga4Fields`): the three literal tables, 15 metrics, 23
  dimensions and 22 aliases. Lemmas state what the validator relies on: the
  tables are duplicate-free and disjoint; every alias names a dimension; no
  alias key is a canonical name; the alias map is injective and covers every
  dimension except `date`.
- `validator.dfy` (module `Validator`): `validate_fields`. It is an imperative
  loop (`ValidateFields`) proved against two recursive specification
  functions (`Accepted`, `Rejected`), with lemmas about partition, order,
  membership and alias resolution.
- `json.dfy` (module `JsonValue`): the decoded JSON values the validator
  compares. It also holds Python's type names and hashability, and the
  string tables lifted to decoded strings.
- `translator.dfy` (module `Translator`): the classification after the
  language-model call.
  - `Strip` models `str.strip`, using Python's whitespace set.
  - `FieldItems` models what `for f in value` yields for each JSON kind, and
    the `TypeError`s it can raise.
  - `Interpret` and `Translate` are the specification functions.
  - `NlqToGa4Params` is the method with the source's early returns and its
    in-place overwrite of the two lists.
  - `Message` and `Response` give the exact error texts and the returned
    dict; `FieldErrorText` states the shape of the field error. Exception
    texts follow CPython up to 3.13.
- `translator_lemmas.dfy` (module `TranslatorLemmas`): what the classification
  promises.
  - The order of the checks.
  - No partial queries: a query results exactly when every field is known.
  - The error lists every unknown field.
  - A query keeps every other key.
  - Worked cases from the prompt's own example answer.

The translator is parameterised by a `Registry`, which holds the three tables.
The general lemmas hold for any tables. `Translator.Ga4` is the registry built
from the literals, and the `Ga4…` lemmas instantiate the general ones with it.

The language-model call is an input (`Reply`): it either raised or returned a
text. `json.loads` is a parameter `parse` that either fails or yields the
decoded object. The rendering of one list element inside an error message
(Python's `repr`) is a parameter `show`.

`validate_fields` does not check that an alias target is in the allow-list it was given. The
same alias map is passed for metrics, so `ga:country` given as a metric comes
back as the metric `country`, which is a dimension. The model does exactly
this (`Validator.AliasResolvedUnchecked`,
`TranslatorLemmas.Ga4AliasGivenAsMetricBecomesDimension`).

## Model

The three tables are the constants `Ga4Fields.Metrics`, `Ga4Fields.Dimensions`
and `Ga4Fields.UaToGa4`, written out entry for entry from ga4_fields.py:2-34.
Being constants they have no contract; the rows for `Ga4Fields` below state
what holds of them.

| member | source | states |
|---|---|---|
| Ga4Fields.TableSizes | google-analytics-mcp/streamlit_ui/ga4_fields.py:2-34 | there are 15 metrics, 23 dimensions and 22 alias entries |
| Ga4Fields.AliasListing | google-analytics-mcp/streamlit_ui/ga4_fields.py:11-34 | the alias map holds exactly the 22 listed key-target pairs |
| Ga4Fields.MetricsDistinct | google-analytics-mcp/streamlit_ui/ga4_fields.py:2-4 | no metric name is listed twice |
| Ga4Fields.DimensionsDistinct | google-analytics-mcp/streamlit_ui/ga4_fields.py:6-8 | no dimension name is listed twice |
| Ga4Fields.MetricsDimensionsDisjoint | google-analytics-mcp/streamlit_ui/ga4_fields.py:2-8 | no name is both a metric and a dimension |
| Ga4Fields.AliasTargetsAreDimensions | google-analytics-mcp/streamlit_ui/ga4_fields.py:11-34 | every alias maps to a name in the dimension list |
| Ga4Fields.AliasTargetsAreNotMetrics | google-analytics-mcp/streamlit_ui/ga4_fields.py:11-34 | no alias maps to a metric name, so an alias given as a metric never yields a metric |
| Ga4Fields.AliasKeysArePrefixed | google-analytics-mcp/streamlit_ui/ga4_fields.py:11-34 | every alias key starts with "ga:" and has more after it |
| Ga4Fields.CanonicalNamesUnprefixed | google-analytics-mcp/streamlit_ui/ga4_fields.py:2-8 | no metric or dimension name has ':' as its third character, so none starts with "ga:" |
| Ga4Fields.AliasKeysAreNotCanonical | google-analytics-mcp/streamlit_ui/ga4_fields.py:11-34 | no alias key is a metric or a dimension, so the alias branch is reached only for non-canonical names |
| Ga4Fields.AliasesInjective | google-analytics-mcp/streamlit_ui/ga4_fields.py:11-34 | two different alias keys never map to the same name |
| Ga4Fields.AliasTargetsDistinct | google-analytics-mcp/streamlit_ui/ga4_fields.py:11-34 | the listed alias targets are pairwise different |
| Ga4Fields.AliasTargetSet | google-analytics-mcp/streamlit_ui/ga4_fields.py:6-34 | the listed alias targets are the dimension names without "date" |
| Ga4Fields.AliasTargetsCoverDimensionsButDate | google-analytics-mcp/streamlit_ui/ga4_fields.py:6-34 | the set of alias targets is exactly the dimension set without "date" |
| Ga4Fields.AliasCount | google-analytics-mcp/streamlit_ui/ga4_fields.py:11-34 | the alias map has 22 keys mapping to 22 distinct dimensions |
| JsonValue.StringsMembership | google-analytics-mcp/streamlit_ui/nlq.py:9 | a decoded value is in the lifted allow-list exactly when it is a string whose text is listed |
| JsonValue.StringMap | google-analytics-mcp/streamlit_ui/nlq.py:11-12 | a decoded value is an alias key exactly when it is a string whose text is a key, and it maps to the lifted target |
| JsonValue.TypeName | google-analytics-mcp/streamlit_ui/nlq.py:73 | the name is one of the seven Python type names a decoded JSON value can have |
| JsonValue.TypeNamesTellKindsApart | google-analytics-mcp/streamlit_ui/nlq.py:73 | two decoded values share a type name exactly when they are of the same kind, so the TypeError text identifies the type |
| JsonValue.Hashable | google-analytics-mcp/streamlit_ui/nlq.py:11 | a decoded value cannot be looked up in a dict exactly when its type is list or dict |
| Validator.Resolve | google-analytics-mcp/streamlit_ui/nlq.py:9-14 | an allowed name is kept as it is; an alias key outside the allow-list is replaced by its target; a name is dropped exactly when it is neither; so a name that comes back changed was such an alias key |
| Validator.Accepted | google-analytics-mcp/streamlit_ui/nlq.py:9-12 | the accepted list is never longer than the input |
| Validator.Rejected | google-analytics-mcp/streamlit_ui/nlq.py:8-14 | the rejected and the accepted names together account for every input exactly once, duplicates included |
| Validator.SplitOne | google-analytics-mcp/streamlit_ui/nlq.py:9-14 | one name goes to exactly one list: its resolution if accepted, the name as given if rejected |
| Validator.ValidateFields | google-analytics-mcp/streamlit_ui/nlq.py:5-15 | the loop's two lists are the accepted and the rejected names of the whole input |
| Validator.SplitAppend | google-analytics-mcp/streamlit_ui/nlq.py:8-14 | both lists are built in input order: the split of a concatenation is the concatenation of the splits |
| Validator.AllowedNamesPassUnchanged | google-analytics-mcp/streamlit_ui/nlq.py:9-10 | if every name is in the allow-list, the result is the input unchanged and nothing is rejected |
| Validator.UnknownNamesAllRejected | google-analytics-mcp/streamlit_ui/nlq.py:13-14 | if no name is allowed or an alias, the input is rejected as it is and nothing is accepted |
| Validator.AliasResolvedUnchecked | google-analytics-mcp/streamlit_ui/nlq.py:11-12 | a name outside the allow-list that is an alias key is accepted as its target, whether or not the target is allowed |
| Validator.RejectedMembers | google-analytics-mcp/streamlit_ui/nlq.py:8-14 | a value is rejected exactly when it is an input that is neither allowed nor an alias key, unresolved |
| Validator.NothingRejected | google-analytics-mcp/streamlit_ui/nlq.py:8-14 | nothing is rejected exactly when every input is allowed or an alias key |
| Validator.AcceptedOrigins | google-analytics-mcp/streamlit_ui/nlq.py:9-12 | every accepted value is an allowed input or the target of an alias key found in the input |
| Translator.LeadingSpaces | google-analytics-mcp/streamlit_ui/nlq.py:50 | the count is a prefix of whitespace followed by a non-space or the end |
| Translator.TrailingSpaces | google-analytics-mcp/streamlit_ui/nlq.py:50 | the count is a suffix of whitespace preceded by a non-space or the start |
| Translator.AllSpaceIffLeadingAll | google-analytics-mcp/streamlit_ui/nlq.py:50 | a text is all whitespace exactly when its leading whitespace is the whole text |
| Translator.Strip | google-analytics-mcp/streamlit_ui/nlq.py:50 | with whitespace as Python's `str.isspace` defines it (`IsSpace`), the result is the slice after the leading whitespace and what is cut after it is whitespace; it is empty exactly when the text is all whitespace, otherwise it starts and ends with a non-space |
| Translator.StripIdempotent | google-analytics-mcp/streamlit_ui/nlq.py:50 | stripping twice is stripping once |
| Translator.Iterate | google-analytics-mcp/streamlit_ui/nlq.py:8 | iteration fails exactly for numbers, booleans and null, with a not-iterable error; a list yields its items, a string the one-character string of each character in order, a dict its keys in order |
| Translator.FirstUnhashable | google-analytics-mcp/streamlit_ui/nlq.py:11 | none is found exactly when every item is hashable; a found item is unhashable and every item before it is hashable |
| Translator.FieldItems | google-analytics-mcp/streamlit_ui/nlq.py:60-61 | the value under the key, or [] when absent, is iterated; the items come back exactly when iteration succeeds and all are hashable; otherwise the error is the not-iterable error of the value or the unhashable error of the first unhashable item |
| Translator.Interpret | google-analytics-mcp/streamlit_ui/nlq.py:57-71 | a rephrase exactly when the object has a "rephrase" key; an error is either an exception from reading the field lists (never the backend's) or a field error naming at least one field; a query holds both lists as lists |
| Translator.Translate | google-analytics-mcp/streamlit_ui/nlq.py:43-73 | the error carrying the backend's exception arises exactly when the call raised; a rephrase or a query needs a reply that is not blank and that decodes |
| Translator.NlqToGa4Params | google-analytics-mcp/streamlit_ui/nlq.py:50-72 | the method's early returns and in-place overwrite give the outcome the classification defines |
| Translator.ListText | google-analytics-mcp/streamlit_ui/nlq.py:64-66 | a rendered list is bracketed by "[" and "]"; no items render as "[]", one item as its rendering in brackets |
| Translator.ListTextAppend | google-analytics-mcp/streamlit_ui/nlq.py:64-66 | one more item adds ", " and its rendering before the closing bracket, so the items appear in order, separated by ", " |
| Translator.FieldClauses | google-analytics-mcp/streamlit_ui/nlq.py:62-66 | one clause per non-empty invalid list; the metrics clause comes first and the dimensions clause last, each its label followed by the rendered list |
| Translator.JoinTwo | google-analytics-mcp/streamlit_ui/nlq.py:68 | `Join` is Python's `sep.join(parts)`; joining two parts puts the separator once between them |
| Translator.JoinAppend | google-analytics-mcp/streamlit_ui/nlq.py:68 | joining one more part with `Join` (`sep.join`) adds the separator and that part at the end |
| Translator.BothClauses | google-analytics-mcp/streamlit_ui/nlq.py:62-68 | with both kinds of invalid names the message is the metrics clause, one space, the dimensions clause, then the GA4 advice |
| Translator.OneClause | google-analytics-mcp/streamlit_ui/nlq.py:62-68 | with one kind of invalid names the message is that clause followed by the GA4 advice |
| Translator.FieldErrorText | google-analytics-mcp/streamlit_ui/nlq.py:62-68 | a field error ends with the GA4 advice and starts with the metrics clause when there is one, otherwise with the dimensions clause |
| Translator.CauseText | google-analytics-mcp/streamlit_ui/nlq.py:73 | the backend's text is kept as is; a not-iterable error starts with the quoted type name, an unhashable error ends with it |
| Translator.Message | google-analytics-mcp/streamlit_ui/nlq.py:73 | an API error is the prefix, then exactly the exception text, then the advice |
| Translator.Response | google-analytics-mcp/streamlit_ui/nlq.py:52-73 | an error gives a dict holding only "error" with the message, a rephrase a dict holding only "rephrase", a query the parameters themselves |
| TranslatorLemmas.EmptyResponseIffBlank | google-analytics-mcp/streamlit_ui/nlq.py:50-52 | the empty-response error arises exactly from a reply that is all whitespace |
| TranslatorLemmas.BlankReplyNeverDecoded | google-analytics-mcp/streamlit_ui/nlq.py:51-54 | a blank reply gives the same outcome whatever the decoder does |
| TranslatorLemmas.DecoderSeesStrippedText | google-analytics-mcp/streamlit_ui/nlq.py:50-54 | the outcome depends on the decoder only through what it does with the stripped text |
| TranslatorLemmas.UndecodableIsInvalidResponse | google-analytics-mcp/streamlit_ui/nlq.py:53-56 | a non-blank reply the decoder rejects is an invalid-response error |
| TranslatorLemmas.RephraseBypassesValidation | google-analytics-mcp/streamlit_ui/nlq.py:57-58 | an object with a "rephrase" key yields that value as a rephrase, whatever its fields |
| TranslatorLemmas.KnownMetricResolves | google-analytics-mcp/streamlit_ui/nlq.py:60 | the validator's metric tables accept exactly the strings that are metrics or alias keys |
| TranslatorLemmas.KnownDimensionResolves | google-analytics-mcp/streamlit_ui/nlq.py:61 | the validator's dimension tables accept exactly the strings that are dimensions or alias keys |
| TranslatorLemmas.NoneRejectedIffAllKnownMetrics | google-analytics-mcp/streamlit_ui/nlq.py:60-63 | no metric is rejected exactly when every item is a known metric name |
| TranslatorLemmas.NoneRejectedIffAllKnownDimensions | google-analytics-mcp/streamlit_ui/nlq.py:61-65 | no dimension is rejected exactly when every item is a known dimension name |
| TranslatorLemmas.QueryIffAllFieldsKnown | google-analytics-mcp/streamlit_ui/nlq.py:60-71 | an object without "rephrase" becomes a query exactly when both lists iterate and every item is known for its kind: never a partial query |
| TranslatorLemmas.ReadingErrorIsApiError | google-analytics-mcp/streamlit_ui/nlq.py:60-73 | an exception raised while reading the metric list, or else the dimension list, becomes the API error carrying it, never a field error |
| TranslatorLemmas.InvalidFieldsListed | google-analytics-mcp/streamlit_ui/nlq.py:60-68 | otherwise the single error lists exactly the unknown items of each kind; each list is the validator's rejected list, so input order and duplicates are kept |
| TranslatorLemmas.QueryKeepsOtherKeys | google-analytics-mcp/streamlit_ui/nlq.py:60-71 | a query is the decoded object with both lists replaced by the validated ones (empty when absent) and every other key unchanged |
| TranslatorLemmas.AcceptedItemIsName | google-analytics-mcp/streamlit_ui/nlq.py:9-12 | an accepted item is a string naming a listed field or an alias target |
| TranslatorLemmas.QueryNamesAreCanonical | google-analytics-mcp/streamlit_ui/nlq.py:60-71 | when aliases name dimensions, query dimensions are dimensions and query metrics are metrics or dimensions |
| TranslatorLemmas.Ga4QueryNamesAreCanonical | google-analytics-mcp/streamlit_ui/nlq.py:60-71 | the same for the GA4 tables |
| TranslatorLemmas.AliasGivenAsMetricIsReplaced | google-analytics-mcp/streamlit_ui/nlq.py:60 | "ga:country" given as a metric becomes the metric "country" when it is an alias of it and not a metric |
| TranslatorLemmas.Ga4AliasGivenAsMetricBecomesDimension | google-analytics-mcp/streamlit_ui/nlq.py:60 | with the GA4 tables, "ga:country" as a metric yields a query with the metric "country" |
| TranslatorLemmas.CanonicalAnswerAccepted | google-analytics-mcp/streamlit_ui/nlq.py:69-71 | an answer naming one known metric and one known dimension comes back unchanged, other keys included |
| TranslatorLemmas.Ga4UsersFromUnitedStatesAccepted | google-analytics-mcp/streamlit_ui/nlq.py:37 | the prompt's example answer is returned unchanged |
| TranslatorLemmas.UnknownFieldRejectsQuery | google-analytics-mcp/streamlit_ui/nlq.py:62-68 | one unknown metric beside a valid one turns the whole answer into an error listing only the unknown one |
| TranslatorLemmas.Ga4BogusFieldRejectsQuery | google-analytics-mcp/streamlit_ui/nlq.py:62-68 | with the GA4 tables, "ga:bogus" next to "totalUsers" is reported alone |
| TranslatorLemmas.MetricAsDimensionRejected | google-analytics-mcp/streamlit_ui/nlq.py:61 | a metric given as a dimension is rejected; the accepted dimension keeps its place |
| TranslatorLemmas.NumberAsMetricsIsApiError | google-analytics-mcp/streamlit_ui/nlq.py:72-73 | a number as the metric list raises inside the handler and becomes an API error |
| TranslatorLemmas.NotIterableMessage | google-analytics-mcp/streamlit_ui/nlq.py:72-73 | that error reads "'int' object is not iterable" between the API-error prefix and advice |
| TranslatorLemmas.StringAsMetricsIsSplit | google-analytics-mcp/streamlit_ui/nlq.py:8 | a non-empty string as the metric list is iterated by character; when every metric and alias key is longer than one character, the error reports exactly those one-character strings in order and no dimension |
| TranslatorLemmas.ViewsIteratedByCharacter | google-analytics-mcp/streamlit_ui/nlq.py:8 | iterating the string "views" yields its five one-letter strings |
| TranslatorLemmas.ViewsAsMetricsIsSplit | google-analytics-mcp/streamlit_ui/nlq.py:8 | with such tables, "views" as the metric list is reported as its five letters |
| TranslatorLemmas.Ga4StringAsMetricsIsSplit | google-analytics-mcp/streamlit_ui/nlq.py:8 | with the GA4 tables, "views" as the metric list is rejected as five one-letter names |
| TranslatorLemmas.ResponseKeys | google-analytics-mcp/streamlit_ui/nlq.py:52-71 | an error dict holds only "error", a rephrase dict only "rephrase", a query never "rephrase" and always both lists |
| TranslatorLemmas.QueryMayCarryErrorKey | google-analytics-mcp/streamlit_ui/app.py:170-173 | an "error" key in the decoded answer survives into the query, which a caller testing "error" shows as an error |

## Left out

- The language-model call, its API key and the prompt text (nlq.py:17-49) are foreign calls and fixed literals. The call's outcome is the input `Reply`. An exception while reading the first choice, or `strip` on a missing content, is folded into `Raised`.
- `json.loads` is the parameter `parse`; no JSON parser is modelled. A decoded top-level value that is not an object (a list, a string, a number) is not modelled: the model's decoder yields only objects.
- Python's `repr` of one list element in the field error is the parameter `show`. The list brackets and the ", " separators are modelled.
- JSON floats are kept as their literal text, with no arithmetic.
- Translator.CauseText: the TypeError texts are those of CPython up to 3.13. CPython 3.14 words a failed dict-key lookup as "cannot use 'list' as a dict key (unhashable type: 'list')", which does not end with the quoted type name as the contract states.
- A query's top-level parameters are a `map`, so their key order is not modelled. In Python the dict keeps the decoder's order, and "metrics" and "dimensions" are appended at the end when they were absent. Nested objects (`JObject`) do keep their order.
- The decoder is expected to give each key of an object once, as `json.loads` does (a repeated key keeps its last value). Iterating an object yields the keys as the decoder listed them.
- Dafny's `char` holds Unicode scalar values only, so a lone surrogate that `json.loads` can produce from an escape such as "\ud800" cannot appear in a modelled string.
- Validator.Accepted: its own contract states only the length bound; what an accepted name is (an allowed input, or the target of an alias key found in the input) is stated by `Validator.AcceptedOrigins`, and that nothing else changes by `Validator.AllowedNamesPassUnchanged`.
- The Streamlit user interface, the GA4 Data API wrapper and the test scripts (app.py, ga4_api.py, quick_test.py, test_server.py, test_credentials.py) are user interface, network and I/O code. The one exception is `QueryMayCarryErrorKey`, which states a fact the caller's reading order depends on.
