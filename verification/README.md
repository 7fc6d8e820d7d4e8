# medkit decision core in Dafny

This project models the deterministic core of medkit, a Python client that
searches three public medical sources and derives answers from their
results. The three sources are OpenFDA drug labels, PubMed papers and
ClinicalTrials.gov studies. The model is functional: records are immutable
datatypes, and every operation is a pure function of its inputs. Clocks are
parameters. Providers are values whose outcomes are given.

| file | module | what it models |
|---|---|---|
| wrappers.dfy | Wrappers | `Option`, `Result` and the Python exceptions the core raises (`PyError`) |
| text.dfy | Text | ASCII versions of the string built-ins used: `lower`, `upper`, `in`, `strip`, `replace`, `split`, `isdigit`, `int`/`str`, string ordering, `\b` word matching |
| json.dfy | Json | decoded JSON payloads with Python truthiness, `.get`, indexing and pydantic field checks |
| models.dfy | Models | the record types of `medkit/models.py`, their defaults and `url` properties |
| evidence.dfy | Evidence | `ClinicalEvidenceMatrix.score` |
| synthesis.dfy | Synthesis | `IntelligenceEngine.synthesize` and `correlate_entities` |
| ask.dfy | Ask | `AskEngine._determine_intent`, `_extract_search_terms` and the dispatch of `ask_sync` |
| client.dfy | Client | provider registration and lookup, error classification, `MedKit.search`, graph building, `conclude` |
| ratelimit.dfy | RateLimit | `RateLimiter.wait`, `AsyncRateLimiter.wait`, `paginate` |
| interactions.dfy | Interactions | `InteractionEngine.RULES` and `check` |
| graph.dfy | Graph | `MedicalGraph.add_node` and `add_edge` |
| cache.dfy | Cache | `MemoryCache.get` and `set` |
| pubmed.dfy | PubMed | `PubMedProvider._parse_summaries` |
| clinicaltrials.dfy | ClinicalTrials | `ClinicalTrialsProvider._parse_response` |
| openfda.dfy | OpenFda | `OpenFDAProvider`: the search term, HTTP error mapping and `_parse_response` |
| exporter.dfy | Exporter | the record flattening and row writing of `Exporter.to_csv` |

Conventions:

- Scores are exact integers, so there is no floating point.
  - Evidence weights are in tenths: a late-phase trial is 4, a mid-phase trial is 2, any other trial is 1.
  - Each paper is 1, capped at 5 in total. Any drug at all adds 3.
  - The confidence is in hundredths: `clamp(2 * tenths, 10, 100)`.
  - `Evidence.ScoreMatchesRealFormula` proves that this equals the source's formula over exact reals. The source adds doubles, so its rounding can differ; see Left out.
- Time is an integer number of ticks, passed in.
  - A rate limiter's sleep is returned as a duration.
  - The time stamped on admission is a second parameter, `later`, because the source reads the clock again before appending.
- A provider is a `Client.Provider` value.
  - It has an optional name, a health-check outcome (healthy, unhealthy or raising) and a search function.
  - The search function returns a payload or raises an error.
- Pydantic validation is a check on the raw field values. A record whose fields have the wrong types is an error value, not a record.

The model follows the code:

- The intent keywords and summary thresholds are those of `medkit/ask_engine.py` and `medkit/intelligence.py`.
- Routing is by plain substring, not by word.
- `RateLimiter` accepts `calls <= 0`; see Findings.

`Client.Search` also returns the list of sources marked offline. The source passes `offline_providers` to `SearchMetadata`, which declares no such field, so pydantic drops it. The model keeps it as a separate output, next to the list of sources whose search was invoked.

`ClinicalTrial` carries three fields that `medkit/intelligence.py` reads but `medkit/models.py` does not declare: `interventions`, `recruiting` and `description`. `ClinicalConclusion` is modelled as intelligence.py constructs it. The parsers fill the three extra fields with empty or false values (`Models.NewTrial`).

## Model

| member | source | states |
|---|---|---|
| Evidence.Score | medkit/intelligence.py:31-56 | The confidence is always between 0.1 and 1.0. With no trials, papers or drugs it is exactly 0.1. |
| Evidence.ScoreMatchesRealFormula | medkit/intelligence.py:33-56 | The hundredths score divided by 100 equals `min(max(raw / 5.0, 0.1), 1.0)` over exact reals. So `round(confidence, 2)` loses nothing. |
| Evidence.TrialTenths | medkit/intelligence.py:36-46 | Each trial adds at least 0.1 and at most 0.4. |
| Evidence.TrialTenthsConcat | medkit/intelligence.py:36-46 | The trial contribution of two lists together is the sum of their contributions. |
| Evidence.TrialOrderIrrelevant | medkit/intelligence.py:36-56 | Reordering the trials does not change the score. |
| Evidence.ScoreMonotoneInTrials | medkit/intelligence.py:36-56 | Inserting a trial anywhere never lowers the score. |
| Evidence.LatePhaseTrialsAlone | medkit/intelligence.py:36-56 | `n` late-phase trials add exactly `0.4 * n`. On their own they score `clamp(0.08 * n, 0.1, 1.0)`, so trial volume is not capped before the final clamp. |
| Evidence.TrialWeightIgnoresCase | medkit/intelligence.py:37-44 | Lower-casing a trial's phase labels does not change its weight, because the labels are upper-cased before matching. |
| Evidence.OneLabel | medkit/intelligence.py:37-43 | A single phase label matches a list of markers exactly when its upper-cased form contains one of them. |
| Evidence.RomanTwoIsMid | medkit/intelligence.py:38-44 | A trial whose only phase is "PHASE II" weighs 0.2. "PHASE III" and "PHASE IV" do not occur in it. |
| Evidence.UnspacedPhaseIsEarly | medkit/intelligence.py:38-46 | A phase spelled "PHASE3", with no space, matches no marker and weighs only 0.1. |
| Evidence.PapersBeyondFifthIgnored | medkit/intelligence.py:48-50 | Once there are five papers, another paper leaves the score unchanged. |
| Evidence.ScoreMonotoneInPapers | medkit/intelligence.py:48-56 | Another paper never lowers the score. |
| Evidence.DrugPresenceOnly | medkit/intelligence.py:52-56 | Adding drugs to a non-empty drug list changes nothing. No drug list scores more than a non-empty one. |
| Synthesis.TallyPositive | medkit/intelligence.py:76-83 | A name has a positive count exactly when it is some trial's intervention or some drug's brand or generic name. |
| Synthesis.TallyAddTrial | medkit/intelligence.py:77-79 | Another trial adds to a name's count one per occurrence of the name among the trial's interventions. |
| Synthesis.TallyAddDrug | medkit/intelligence.py:80-83 | Another drug adds 5 to its generic name and 5 to its brand name, so 10 when they are equal, and nothing to other names. |
| Synthesis.DrugNamesWeighFive | medkit/intelligence.py:80-83 | Every drug's brand name and generic name each count at least 5. |
| Synthesis.Candidates | medkit/intelligence.py:87-91 | The candidates are distinct. They are exactly the names shorter than 100 characters that have a positive count. |
| Synthesis.OutranksTransitive | medkit/intelligence.py:93 | The order by (descending count, ascending name) is transitive. |
| Synthesis.OutranksTotal | medkit/intelligence.py:93 | For two different names, one of them ranks first. |
| Synthesis.OutranksIrreflexive | medkit/intelligence.py:93 | No name ranks before itself. |
| Synthesis.BestIndex | medkit/intelligence.py:93 | The chosen candidate ranks before every other candidate. |
| Synthesis.TopK | medkit/intelligence.py:93-94 | The result is the first `k` candidates of the sort. It holds `min(k, n)` candidates, each ranking before the next. Each ranks before every candidate left out. With `n <= k` every candidate is kept. |
| Synthesis.TopInterventions | medkit/intelligence.py:85-94 | At most five names, each shorter than 100 characters and with a positive count. They are sorted by descending count and then by name. If some other such name exists, the list is full and all five rank before it. |
| Synthesis.SummaryThresholds | medkit/intelligence.py:96-112 | The confidence as a fraction selects the template: above 0.7 the high-confidence one, above 0.4 the emerging one, otherwise the limited one. |
| Synthesis.SuggestedTrials | medkit/intelligence.py:124 | The suggestions are the first `min(3, r)` ids of the `r` recruiting trials, in input order. |
| Synthesis.RecruitingIdsFollowOrder | medkit/intelligence.py:124 | The recruiting ids of two trial lists together are those of the first list followed by those of the second. |
| Synthesis.RecruitingIdsMembers | medkit/intelligence.py:124 | An id is among the recruiting ids exactly when some recruiting trial has it. |
| Synthesis.Synthesize | medkit/intelligence.py:64-125 | The conclusion keeps the query, and its confidence is `Evidence.Score` of the inputs. `evidence_count` holds the three list lengths. Its summary, top interventions and suggested trials are those specified by the members above. |
| Synthesis.NothingFoundIsLimited | medkit/intelligence.py:56-124 | With nothing found the confidence is 0.1. The summary is the limited template counting 0 papers and 0 trials. There are no top interventions and no suggested trials. |
| Synthesis.RelatedIdsFollowOrder | medkit/intelligence.py:137-147 | The trials related to a drug are listed in trial order. |
| Synthesis.RelatedIdsEmpty | medkit/intelligence.py:137-150 | A drug has no related trial exactly when no trial text contains its lower-cased brand or generic name as a whole word. |
| Synthesis.Correlate | medkit/intelligence.py:128-152 | Every key is the lower-cased brand name of the last drug with that key that some trial mentions, and it maps to that drug's related ids. Every drug that some trial mentions has its lower-cased brand name as a key. |
| Synthesis.WordInsideWordIsNoMatch | medkit/intelligence.py:144-146 | "trial" does not match inside "industrial": a match needs word boundaries. |
| Synthesis.WordAfterSpaceMatches | medkit/intelligence.py:144-146 | "trial" after a space at the end of the text is a match. |
| Text.ContainsWord | medkit/intelligence.py:144-146 | True exactly when the pattern occurs with a word boundary on both sides (`\b…\b`). |
| Text.StrLessTransitive | medkit/intelligence.py:93 | Python's string order is transitive. |
| Text.StrLessTotal | medkit/intelligence.py:93 | Of two different strings, one sorts first. |
| Ask.DetermineIntent | medkit/ask_engine.py:27-41 | The intent is "explain_drug" exactly when a drug keyword is a substring of the lower-cased query. It is "summarize_condition" exactly when no drug keyword occurs and a condition keyword does. Otherwise it is "synthesize". |
| Ask.IntentIgnoresCase | medkit/ask_engine.py:29 | Upper-casing or lower-casing the query does not change the intent. |
| Ask.EmbeddedRxExplainsDrug | medkit/ask_engine.py:32-34 | "herxheimer" routes to "explain_drug", because "rx" is matched anywhere. |
| Ask.OverviewSummarizes | medkit/ask_engine.py:37-39 | "overview" routes to "summarize_condition". |
| Ask.FixTypo | medkit/ask_engine.py:52 | A query without "clinial" is unchanged. Lower case is kept. |
| Ask.RemoveStopPatterns | medkit/ask_engine.py:71-72 | Removing the stop phrases keeps lower case. After at least one pattern the result has no whitespace at either end. |
| Ask.RemoveStopPatternsAbsent | medkit/ask_engine.py:55-72 | When no stop phrase occurs, the stop-phrase pass only strips whitespace. |
| Text.RemoveAlternativesDropsMatch | medkit/ask_engine.py:71-72 | When an alternative is the first of the pattern to match at the start, it is removed and matching resumes right after it. |
| Text.RemoveAlternativesKeepsPrefix | medkit/ask_engine.py:71-72 | Text at whose positions no alternative matches is kept unchanged in front of the rest's result. |
| Text.RemoveAlternativesRemovesFirst | medkit/ask_engine.py:71-72 | For `u + a + v`, where nothing matches inside `u` and `a` is the first alternative matching at `a + v`, the result is `u` followed by the result for `v`. So the leftmost match is what goes, and nothing before it changes. |
| Ask.LeadingPhraseThenNothing | medkit/ask_engine.py:55-72 | A text opening with the first alternative of the first pattern, followed by text with no stop phrase, comes out of the stop-phrase pass as that following text, stripped. |
| Ask.LeadingStopPhraseRemovedWith | medkit/ask_engine.py:49-93 | For any well-formed patterns, a query opening with the first pattern's first alternative, followed by text with no typo, stop phrase, separator or leading article, is cleaned to that text, stripped and trimmed. |
| Ask.LeadingStopPhraseRemoved | medkit/ask_engine.py:49-93 | The same for the source's own patterns: a question opening "what is the clinical status of" is searched for by what follows it, stripped and trimmed. |
| Ask.SplitOnSeparator | medkit/ask_engine.py:79-89 | A query without the separator is unchanged. Otherwise the result joins the text before the first occurrence with the text between the first occurrence and the next one, or the end. The first part is dropped if it mentions status, overview or summary, or if it is shorter than 3 once stripped. |
| Ask.SplitOnSeparators | medkit/ask_engine.py:77-89 | A query containing none of the separators is unchanged. Lower case is kept. |
| Ask.StripLeadingArticle | medkit/ask_engine.py:92 | A query that starts with no article followed by whitespace is unchanged. Otherwise the first such article and all the whitespace after it are removed. |
| Ask.TrimEnds | medkit/ask_engine.py:93 | The result has no whitespace at either end. Lower case is kept. |
| Ask.Clean | medkit/ask_engine.py:49-93 | For any well-formed stop patterns and separators, the cleaned query has no upper-case letter and no whitespace at either end. |
| Ask.ExtractSearchTerms | medkit/ask_engine.py:43-93 | The search terms have no upper-case letter and no whitespace at either end. |
| Ask.PlainQueryIsTrimmedWith | medkit/ask_engine.py:49-93 | A query with no "clinial", no stop phrase, no separator and no leading article is only processed in three steps. It is lower-cased and stripped. Then "?" and spaces are trimmed from both ends, and whitespace is stripped again. |
| Ask.PlainQueryIsTrimmed | medkit/ask_engine.py:49-93 | The same, for the source's own stop phrases, separators and articles. |
| Ask.Dispatch | medkit/ask_engine.py:139-158 | An explanation is given exactly when the intent is "explain_drug" and a drug was found. It holds the first drug and at most five papers and trials. A summary is given exactly for "summarize_condition". It holds the original question, the first five brand names, papers and trials. Otherwise the answer is the synthesis of everything found for the original question. |
| Ask.DispatchKeepsQuestion | medkit/ask_engine.py:145-157 | Summaries and conclusions carry the question as asked, not the cleaned terms. |
| Ask.AskSync | medkit/ask_engine.py:128-158 | The search receives the cleaned, lower-case terms. The answer is the dispatch of the original question on those results. |
| Ask.DrugQuestionWithoutDrugsSynthesizes | medkit/ask_engine.py:139-158 | A drug question whose search finds no drug falls through to a synthesis counting zero drugs. |
| Client.Lookup | medkit/client.py:69-70 | A lookup finds nothing exactly when the name is not registered. Otherwise it finds the provider registered under the name. |
| Client.Put | medkit/client.py:54 | Dictionary assignment keeps registration order. A known name keeps its place, and a new name goes last. |
| Client.PutDistinct | medkit/client.py:54 | Registered names stay distinct. |
| Client.PutLookup | medkit/client.py:54 | After an assignment the name finds the new provider. Every other name finds what it found before. |
| Client.RegisterProvider | medkit/client.py:50-54 | `PluginError` is raised exactly when the name is missing or empty. Otherwise the provider is stored under its name, replacing an earlier one. Other names are untouched. |
| Client.GetProvider | medkit/client.py:69-73 | A registered name returns its provider. Any other name raises `PluginError` with the source's message. |
| Client.RegisterThenGet | medkit/client.py:50-73 | A provider just registered is found under its name. |
| Client.HandleProviderError | medkit/client.py:56-67 | Medkit errors pass through unchanged. `RateLimitError` results exactly for HTTP 429. Connect and timeout failures become `APIError`, as does any other HTTP status. Every other error is re-raised unchanged. |
| Client.HandleProviderErrorIdempotent | medkit/client.py:56-67 | Classifying an already classified error changes nothing. |
| Client.SafeCall | medkit/client.py:228-240 | A source is marked offline exactly when it is missing, unhealthy, its health check raised, or its search raised. An offline source yields `[]`. Its search is invoked only when it is healthy. A `None` result becomes `[]` and is not marked offline. |
| Client.Items | medkit/client.py:253-268 | A list stays as it is. One truthy record becomes a one-element list. `None` and falsy values become `[]`. |
| Client.OfflineSources | medkit/client.py:226-244 | The offline list holds exactly the built-in sources that are down, in the call order openfda, pubmed, clinicaltrials. |
| Client.InvokedSources | medkit/client.py:228-235 | The sources whose search ran are exactly the registered, healthy built-in sources, in call order. |
| Client.Search | medkit/client.py:222-270 | Provider failures never escape. The only error is a validation error, when a source returns records of the wrong kind. `sources` lists every registered name in registration order, and `cached` is false. A source that is down contributes nothing. |
| Client.HealthyDrugsPassThrough | medkit/client.py:234-256 | A drug list from a healthy "openfda" arrives whole and in order, and the source is not marked offline. |
| Client.HealthyPapersPassThrough | medkit/client.py:234-261 | A paper list from a healthy "pubmed" arrives whole and in order, and the source is not marked offline. |
| Client.HealthyTrialsPassThrough | medkit/client.py:234-266 | A trial list from a healthy "clinicaltrials" arrives whole and in order, and the source is not marked offline. |
| Client.SearchKeepsRecords | medkit/client.py:242-270 | For all three sources, whatever each returned, re-wrapping its slot of the results gives back exactly the records its call produced, in order. |
| Client.SingleRecordAndNone | medkit/client.py:235-258 | A single drug returned on its own becomes a one-drug list. `None` becomes an empty list without an offline mark. |
| Client.OutageCalls | medkit/client.py:228-240 | Each failure kind marks its source offline: unhealthy, raising, or unregistered. Only the raising one was invoked. |
| Client.OutageScenario | medkit/client.py:222-270 | With all three sources failing, the search still returns. It has three empty lists, all three sources offline in call order, and the registered names as `sources`. |
| Client.DrugRequests | medkit/client.py:178-179 | A drug asks for a node keyed and labelled by its brand name, of type "drug". |
| Client.PaperRequests | medkit/client.py:181-182 | A paper asks for a node keyed by pmid and labelled by title, of type "paper". |
| Client.TrialRequests | medkit/client.py:184-185 | A trial asks for a node keyed by nct id, of type "trial". Its label is the title, or the nct id when the title is empty. |
| Client.AddDrugEdges | medkit/client.py:186-192 | Exactly the drugs whose lower-cased brand name occurs in a lower-cased intervention get an edge to the trial. Nodes are untouched. |
| Client.AddTrials | medkit/client.py:184-192 | Trial nodes are added in order. The edges are the old ones plus exactly the drug-trial pairs linked by an intervention. |
| Client.BuildGraph | medkit/client.py:173-194 | The nodes are those of drugs, papers and trials added in that order. Node ids and edge endpoints are unique. There is an edge from `s` to `x` exactly when a drug with brand `s` intervenes in a trial with id `x`. |
| Client.GraphNodesFirstWins | medkit/client.py:173-185 | The graph has exactly one node per requested id, carrying the earliest request for that id. |
| Client.Conclude | medkit/client.py:299-304 | The conclusion is the synthesis of the search for the query, and it keeps the query. |
| RateLimit.NewLimiter | medkit/utils.py:71-74 | Any `calls` and `period` are accepted, and the window starts empty. |
| RateLimit.Prune | medkit/utils.py:83 | A value survives exactly when it is a stamp with `now - t < period`. The window does not grow, and an ascending window stays ascending. |
| RateLimit.PopExpired | medkit/utils.py:114-115 | Front-popping keeps a suffix whose first stamp is young. Every popped stamp is old. |
| RateLimit.PruneKeepsYoung | medkit/utils.py:83 | A window whose stamps are all young is kept whole. |
| RateLimit.PruneSingle | medkit/utils.py:83 | One stamp is kept exactly when `now - t < period`. |
| RateLimit.PruneConcat | medkit/utils.py:83 | Pruning a concatenation prunes each part and concatenates the results. With `PruneSingle` this fixes every copy and the order of what is kept. |
| RateLimit.PruningAgrees | medkit/utils.py:83-117 | On ascending stamps, front-popping and the list comprehension keep the same window. |
| RateLimit.Decide | medkit/utils.py:85-93 | A call is admitted exactly when the window holds fewer than `calls` stamps, and then exactly one stamp is appended. The call crashes exactly when `calls <= 0` and the window is empty. Otherwise it waits `period - (now - oldest)` when positive, and re-checks. |
| RateLimit.SyncStep | medkit/utils.py:80-93 | One evaluation of `RateLimiter.wait` admits exactly when the pruned window has room, appending one stamp. Otherwise it waits a positive time on the pruned window. |
| RateLimit.AsyncStep | medkit/utils.py:111-126 | The same for `AsyncRateLimiter.wait`, with front-popping. |
| RateLimit.PositiveCallsNeverCrash | medkit/utils.py:80-126 | With `calls >= 1`, neither variant's evaluation crashes, whatever the window and the clock. |
| RateLimit.PositiveCallsRunsNeverCrash | medkit/utils.py:80-126 | With `calls >= 1`, no sequence of evaluations of either variant, at any times, crashes. The limit and the period never change. |
| RateLimit.CheckedLimiterNeverCrashes | medkit/utils.py:71-93 | A limiter built with `calls >= 1` admits its first call at any time, and no later run of either variant crashes. This is the intended behaviour whose absence Findings records. |
| RateLimit.VariantsAgree | medkit/utils.py:80-126 | On ascending stamps both limiters take the same decision and keep the same state. |
| RateLimit.StepKeepsGood | medkit/utils.py:83-93 | With `calls >= 1` and a clock that does not run backwards, no evaluation crashes. The window stays ascending and holds at most `calls` stamps. |
| RateLimit.OneSleepSuffices | medkit/utils.py:85-91 | After sleeping the returned time, the re-check admits the call. |
| RateLimit.ThirdCallWaitsForFirstToExpire | medkit/utils.py:80-93 | With two calls per 1000 ticks, calls at 0 and 100 are admitted. A third at `t` in [200, 1000) waits `1000 - t`, and at 1000 it is admitted. |
| RateLimit.Paginate | medkit/utils.py:129-142 | The result concatenates pages 0, 1, … in order, up to the first empty page, and at most `max_pages` of them. The empty page is fetched but nothing after it. `max_pages <= 0` fetches nothing. |
| RateLimit.StopPage | medkit/utils.py:137-140 | Paging stops at the first empty page, or at `max_pages`. |
| RateLimit.StopPageIsFirstEmpty | medkit/utils.py:137-140 | When page `p` is the first empty one, paging stops exactly there. |
| RateLimit.FullPagesAllTaken | medkit/utils.py:137-142 | With no empty page, all `max_pages` pages are taken. |
| Interactions.Rule | medkit/interactions.py:61 | `RULES.get(d1, {}).get(d2)` finds a warning exactly when the table pairs `d1` with `d2`. |
| Interactions.Lookup | medkit/interactions.py:61 | A rule stored under either drug fires. The rule stored under the first drug takes precedence. |
| Interactions.LookupSymmetric | medkit/interactions.py:61 | Whether a pair interacts does not depend on its order. |
| Interactions.Row | medkit/interactions.py:56-63 | The hits of one row are exactly the firing pairs `(i, k)` with `k` from `j` on, in increasing `k`. |
| Interactions.Pairs | medkit/interactions.py:55-64 | The hits are exactly the firing pairs `i < j`, in lexicographic order. There are at most `n(n-1)/2` of them. |
| Interactions.CheckWith | medkit/interactions.py:50-65 | One warning per firing pair `i < j`, in `(i, j)` order. Each keeps the caller's spellings and order. There are never more than `n(n-1)/2`. |
| Interactions.FewerThanTwoDrugs | medkit/interactions.py:55-65 | Fewer than two drugs give no warnings. |
| Interactions.PairsIgnoreCase | medkit/interactions.py:53-61 | Drug lists that agree once lower-cased fire the same pairs with the same warnings. |
| Interactions.TwoDrugs | medkit/interactions.py:55-64 | Two drugs that a rule pairs give exactly one warning, spelled as given. |
| Interactions.AspirinWarfarinIsHigh | medkit/interactions.py:27-31 | "Aspirin" with "Warfarin" gives one "High" warning, keeping the capitals. |
| Interactions.WarfarinAspirinIsHigh | medkit/interactions.py:27-61 | "warfarin" with "aspirin" fires the same rule, stored the other way round. |
| Interactions.AspirinIbuprofenIsModerate | medkit/interactions.py:22-26 | Aspirin with ibuprofen gives one "Moderate" warning. |
| Interactions.NoSelfInteraction | medkit/interactions.py:20-61 | A drug paired with itself gives no warning. |
| Graph.AddNode | medkit/graph.py:24-26 | A node is appended only when no node has its id. Otherwise nothing changes, not even the label or type. Edges are untouched, and unique ids stay unique. |
| Graph.AddEdge | medkit/graph.py:28-32 | An edge is appended only when no edge joins the same endpoints, whatever the relationship. Nodes are untouched, and endpoints need not be nodes. |
| Graph.NodesAfterAddNode | medkit/graph.py:24-26 | After `add_node` the ids are the old ones plus the new id. Old nodes keep their positions. |
| Graph.EdgesAfterAddEdge | medkit/graph.py:28-32 | After `add_edge` the edges are the old ones plus the new pair. |
| Graph.AddNodeIdempotent | medkit/graph.py:24-26 | Adding a node twice is adding it once, even with another label. |
| Graph.AddEdgeIdempotent | medkit/graph.py:28-32 | Adding an edge twice is adding it once, even with another relationship. |
| Graph.AddNodesKeepsIdsUnique | medkit/graph.py:24-26 | Node ids stay unique under any sequence of `add_node` calls. Existing nodes stay in front, and every requested id is present. |
| Graph.AddNodesConcat | medkit/graph.py:24-26 | Adding two batches in turn is adding their concatenation. |
| Graph.AddNodesFirstWins | medkit/graph.py:24-26 | From an empty graph, the node ids are exactly the requested ones, and each node is its earliest request. |
| Cache.NewCache | medkit/cache.py:15-17 | A new cache is empty and keeps its default ttl. |
| Cache.Get | medkit/cache.py:19-28 | An absent key gives `None`. A live entry, until and including its expiry time, gives its value and changes nothing. An expired entry gives `None` and is deleted, and nothing else is. |
| Cache.EffectiveTtl | medkit/cache.py:31 | A missing or zero ttl means the default ttl. |
| Cache.Set | medkit/cache.py:30-32 | The key is stored with expiry `now + ttl`. Every other key is untouched. |
| Cache.GetAfterSet | medkit/cache.py:19-32 | A lookup right after a store at the same time finds the value exactly when the effective ttl is not negative. |
| Cache.SetLeavesOtherKeys | medkit/cache.py:19-32 | Storing one key leaves the lookups of every other key as they were. |
| Cache.ExpiryBoundary | medkit/cache.py:24-32 | A value stored for `t > 0` ticks is found at `now + t` and gone at `now + t + 1`. |
| Cache.GetNeverAdds | medkit/cache.py:19-28 | A lookup never adds or changes an entry. |
| Cache.GetStable | medkit/cache.py:19-28 | A second lookup at the same time gives the same answer and state. |
| PubMed.FirstToken | medkit/providers/pubmed.py:79 | The token is the prefix of the date before its first space. |
| PubMed.YearOf | medkit/providers/pubmed.py:75-81 | An empty or missing date gives no year. A date whose first token is all digits gives that number. |
| PubMed.YearRoundTrip | medkit/providers/pubmed.py:75-81 | A date that starts with a rendered year, alone or followed by a space, gives that year back. |
| PubMed.YearOfFullDate | medkit/providers/pubmed.py:78-81 | "2023 May 1" gives 2023. |
| PubMed.NoYearWithoutLeadingDigits | medkit/providers/pubmed.py:79-81 | A date led by a space, or by a month name such as "May", gives no year. |
| PubMed.AuthorNames | medkit/providers/pubmed.py:68-72 | Author entries are read only when all are objects. The names kept are non-empty and no more than the entries. |
| PubMed.AuthorNamesKeepNonEmpty | medkit/providers/pubmed.py:68-72 | Authors with string names give exactly the non-empty names, in order. |
| PubMed.MakePaper | medkit/providers/pubmed.py:83-96 | As written, construction never succeeds. Corrected, it succeeds exactly when the title and journal are strings, and the paper has no abstract. |
| PubMed.ParseEntry | medkit/providers/pubmed.py:62-96 | A missing, empty or error entry is skipped. A kept paper has the requested pmid, and a missing title defaults to "Untitled Publication". |
| PubMed.ParseEach | medkit/providers/pubmed.py:62-97 | The papers follow the order of the requested pmids, and there are no more of them than pmids. |
| PubMed.ParseSummaries | medkit/providers/pubmed.py:55-97 | A payload that is not an object raises `AttributeError`. Otherwise the papers' pmids are a subsequence of the requested pmids. |
| PubMed.MissingEntrySkipped | medkit/providers/pubmed.py:63-65 | A missing entry or one reporting an error is skipped without disturbing the others. |
| PubMed.AsWrittenFindsNothing | medkit/providers/pubmed.py:83-96 | The parser as written never returns a paper. |
| PubMed.WellFormedEntry | medkit/providers/pubmed.py:67-96 | A well-formed entry is dropped as written. Corrected, it is kept with the default title, the year from its date, and no abstract. |
| ClinicalTrials.Facilities | medkit/providers/clinicaltrials.py:114-120 | Locations are read only when all are objects. Every facility kept is truthy. |
| ClinicalTrials.FacilitiesKeepNonEmpty | medkit/providers/clinicaltrials.py:116-120 | Locations with string facilities give exactly the non-empty facilities, in order. |
| ClinicalTrials.MakeTrial | medkit/providers/clinicaltrials.py:127-136 | A trial is built exactly when id, title, status and eligibility are strings and the phases a list of strings. |
| ClinicalTrials.Admit | medkit/providers/clinicaltrials.py:104-109 | With no filter every study passes. With a filter a study passes exactly when its upper-cased status equals "RECRUITING" as wanted. |
| ClinicalTrials.ParseStudy | medkit/providers/clinicaltrials.py:95-136 | A study is skipped only under a filter. A kept study's recruiting state is the wanted one. |
| ClinicalTrials.ParseStudies | medkit/providers/clinicaltrials.py:95-137 | The parse succeeds exactly when every study parses, since nothing catches an error. There is at most one trial per study. With no filter, trial `k` is the parse of study `k`. Under a filter, every trial has the wanted recruiting state; which trials remain is stated by `ClinicalTrials.FilterPartitions`. |
| ClinicalTrials.ParseResponse | medkit/providers/clinicaltrials.py:89-137 | A payload that is not an object raises `AttributeError`. A payload without "studies" gives no trials. When "studies" holds a list, the result is the parse of that list's studies. |
| ClinicalTrials.FilterPartitions | medkit/providers/clinicaltrials.py:104-109 | A filtered parse keeps exactly the unfiltered trials with the wanted recruiting state, in order. |
| ClinicalTrials.StudyFilter | medkit/providers/clinicaltrials.py:104-109 | A study that parses is kept by exactly one of the two filters. |
| ClinicalTrials.PartitionSizes | medkit/providers/clinicaltrials.py:104-109 | Every trial appears in exactly one of the recruiting and non-recruiting outputs. |
| ClinicalTrials.EmptyStudyDefaults | medkit/providers/clinicaltrials.py:96-125 | An empty study gets every default: "Unknown", "Unknown Trial", "Unknown", no phases, no locations, "Not specified". |
| ClinicalTrials.StatusCaseIgnored | medkit/providers/clinicaltrials.py:105 | "recruiting" and "Recruiting" count as recruiting. "Unknown" does not. |
| OpenFda.SearchTerm | medkit/providers/openfda.py:29 | The term embeds the query in a brand-name clause and in a generic-name clause. |
| OpenFda.SearchTermRoundTrip | medkit/providers/openfda.py:29 | The query can be read back from its term. |
| OpenFda.SearchTermInjective | medkit/providers/openfda.py:29 | Different queries give different terms. |
| OpenFda.RequestError | medkit/providers/openfda.py:35-40 | HTTP 404 gives `NotFoundError`. Any other status gives `APIError`, as does a transport error. |
| OpenFda.SearchSync | medkit/providers/openfda.py:28-43 | A failed request raises its classified error. A response is parsed for the query. |
| OpenFda.FirstOf | medkit/providers/openfda.py:69-71 | The first element of the list under the key, or the default when the key is missing. |
| OpenFda.MakeDrug | medkit/providers/openfda.py:75-80 | A drug is built exactly when the names are strings, the warnings a list of strings, and the manufacturer a string or `None`. |
| OpenFda.ParseResponse | medkit/providers/openfda.py:62-80 | A payload without truthy "results" raises `NotFoundError` with the source's message. |
| OpenFda.NoResultsNotFound | medkit/providers/openfda.py:63-64 | Missing results and an empty result list are both "not found". |
| OpenFda.FirstLabelFirstNames | medkit/providers/openfda.py:66-79 | Only the first label counts. From it come the first brand name, the first generic name and the first manufacturer, with its warnings whole. |
| OpenFda.MissingNamesDefault | medkit/providers/openfda.py:67-79 | A label without an `openfda` section is "Unknown" under both names and has no manufacturer or warnings. |
| Exporter.DrugNames | medkit/exporter.py:32-35 | A drug is written as brand name and generic name. |
| Exporter.PaperNames | medkit/exporter.py:36-37 | A paper is written as title and pmid. |
| Exporter.TrialNames | medkit/exporter.py:38-39 | A trial is written as nct id and status. |
| Exporter.Flatten | medkit/exporter.py:30-45 | Results give one record per drug, paper and trial. A `ConditionSummary` raises exactly when it names a drug, and otherwise gives one record per paper and trial. A list gives one record per item. Anything else gives none. |
| Exporter.WriteRows | medkit/exporter.py:52-54 | Writing succeeds exactly when no record has a key outside the header. Then there is one row per record, with empty cells for missing keys. |
| Exporter.ToCsv | medkit/exporter.py:26-54 | Nothing is written exactly when there are no records. Otherwise the header is the first record's keys, followed by one row per record. |
| Exporter.ResultColumns | medkit/exporter.py:31-39 | Read back by kind, the rows give exactly the drugs', papers' and trials' names and details, each group in input order. |
| Exporter.ResultsRoundTrip | medkit/exporter.py:31-54 | Non-empty results are written under the header type, name, detail. The drug rows come first, then the paper rows, then the trial rows, and each group reads back to its inputs. |
| Exporter.EmptyResultsWriteNothing | medkit/exporter.py:47-48 | Empty results, an empty list and any other value write nothing. |
| Exporter.PlainItems | medkit/exporter.py:40-54 | A list of plain values is written under the single header "data", one row per value. |
| Exporter.UnfitItemRaises | medkit/exporter.py:50-54 | A later item with a key the first item lacks makes the writer raise. |
| Exporter.MixedListRaises | medkit/exporter.py:40-54 | A list that starts with a model and also holds a plain value raises. |
| Exporter.MissingFieldsEmpty | medkit/exporter.py:50-54 | A later item with fewer fields than the first gets empty cells for the missing ones. |
| Exporter.SummaryFlattensAsResults | medkit/exporter.py:31-39 | A `ConditionSummary` without drugs flattens exactly like search results holding its papers and trials. |
| Exporter.SummaryRoundTrip | medkit/exporter.py:31-54 | A `ConditionSummary` without drugs but with some paper or trial is written under the header type, name, detail. Its paper and trial rows read back to its papers and trials, in order, and there are no drug rows. |
| Exporter.SummaryWithDrugsRaises | medkit/exporter.py:31-35 | A `ConditionSummary` naming any drug raises `AttributeError`, because its drugs are plain strings. |
| Models.PaperUrl | medkit/models.py:31-33 | A paper's URL is the PubMed base, the pmid and a closing "/". |
| Models.PaperUrlRoundTrip | medkit/models.py:31-33 | The pmid can be read back from the URL, so different papers get different URLs. |
| Models.TrialUrl | medkit/models.py:46-48 | A trial's URL is the ClinicalTrials.gov study base followed by the nct id. |
| Models.TrialUrlRoundTrip | medkit/models.py:46-48 | The nct id can be read back from the URL. |

## Left out

- HTTP requests, health checks, JSON decoding and `asyncio.gather` in `AsyncMedKit.search` are left out. They are network I/O and concurrency. Provider outcomes are given values, and the sequential `MedKit.search` is modelled.
- Real clocks and sleeping are left out. Time is a parameter, and a sleep is a returned duration.
- `RateLimit.SyncStep` models one evaluation of `wait`. The recursive re-check after sleeping is a further call with a later time; `RateLimit.OneSleepSuffices` shows one suffices.
- `DiskCache` and the `cache_response` decorator are left out. They use the filesystem, md5 hashing, `lru_cache` and introspection.
- `medkit/cli.py`, `Exporter.to_json` and the opening and writing of the CSV file are left out. The model stops at the header and rows.
  - CSV quoting is not modelled.
  - A file left partly written when the writer raises is not modelled.
  - The writer's `ValueError` is a single error value, `DictWriterError`.
- `MedKit.drug`, `papers`, `trials` and `interactions` are not modelled. They only delegate to a provider. `interactions` calls `InteractionEngine` with a signature that `medkit/interactions.py` does not define. `check` is modelled directly.
- `Text` models ASCII only. Python's Unicode `lower`, `upper`, `isdigit`, `isspace` and `\b` are left out.
- `Json.PyStr` renders scalars as Python does, but lists and objects as fixed placeholders.
- The stop patterns of `_extract_search_terms` are regular expressions whose alternatives are all literals. They are modelled as a leftmost, first-alternative-wins removal of literal strings, which is what `re.sub` does with them.
- Client.Search: `query_time` is the elapsed time passed in. The model returns the offline list as an extra output, because the source's `SearchMetadata` has no field for it.
- `MedicalGraph` is built only by `AsyncMedKit.graph`. The model builds it from a `SearchResults` value and leaves the search out.
- Exporter.Flatten: a `ConditionSummary` takes the `SearchResults` branch. With no drugs it gives its paper and trial records. With drugs it raises `AttributeError`, because its drugs are strings, which have no `brand_name`. This is modelled, not left out; the file write after it is.
- RateLimit.NewLimiter: like `RateLimiter.__init__`, it accepts any `calls`; Findings records the consequence.
- Evidence.Score: exact hundredths replace the source's double-precision sum. Where the source's rounding error lands just above 0.7 or 0.4, it picks the higher summary template and the model does not. For example, ten "PHASE 2" trials followed by ten trials without a phase, with two papers and one drug, give 0.7000000000000001 in doubles and exactly 0.70 here. The rounded `confidence_score` agrees, because the exact value is a whole number of hundredths.
- Synthesis.Correlate: the result is a `map`, so the order of the source dict's keys is not modelled. That order is the order in which each lower-cased brand was first inserted; a later drug with the same key replaces the value but does not move the key. The key set and each key's value are modelled.
- Evidence.ScoreMatchesRealFormula: the equality is with the source's formula over exact reals, not with IEEE doubles; see `Evidence.Score`.
- Synthesis.Synthesize: the summary template is chosen from the exact score, so it inherits the difference described under `Evidence.Score`.
- Ask.RemoveStopPatterns: its own contract states shape only (lower case, stripped ends). What is removed is stated by `Text.RemoveAlternativesRemovesFirst`, `Ask.RemoveStopPatternsAbsent` and `Ask.LeadingPhraseThenNothing`. A query in which several stop phrases occur, or in which one pass creates a new match for a later pattern, is not characterised beyond these.
- Ask.ExtractSearchTerms: its own contract states shape only. What it returns is stated for queries with no stop phrase (`Ask.PlainQueryIsTrimmed`) and for queries opening with the first stop phrase (`Ask.LeadingStopPhraseRemoved`). Queries that reach the separator split are characterised only through `Ask.SplitOnSeparator`.
- Client.HealthyDrugsPassThrough: stated for "openfda"; `Client.HealthyPapersPassThrough`, `Client.HealthyTrialsPassThrough` and `Client.SearchKeepsRecords` state it for the other two sources.

## Findings

| source | as written | input that shows it | evidently intended | confidence | as-written member | corrected member |
|---|---|---|---|---|---|---|
| medkit/providers/pubmed.py:85-91 | `ResearchPaper(..., abstract=None)`, but `medkit/models.py:29` declares `abstract: str` as required, so validation fails and the `except` skips every entry | any esummary payload, e.g. one entry with `fulljournalname` "J" and `pubdate` "2023" | papers without an abstract are kept, with `abstract` optional | not executed | PubMed.AsWrittenFindsNothing | PubMed.WellFormedEntry |
| medkit/utils.py:71-74, 85-86 | `calls` is not checked; with `calls <= 0` and an empty window, `self.timestamps[0]` raises `IndexError` | `RateLimiter(0, 1.0).wait()` | a limiter that can never admit is refused at construction | not executed | RateLimit.ZeroCallsCrashes | RateLimit.CheckedLimiterNeverCrashes |
