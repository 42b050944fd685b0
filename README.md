# JourneyLens insight engine in Dafny

JourneyLens is a customer-intelligence console. Its core is `InsightEngine`
(backend/app/services/analysis.py), a rule-based analyser with no external AI. Its
`analyze` step:

- lowercases an interaction's text;
- classifies the intent by counting keyword hits per label;
- classifies the sentiment by comparing positive and negative hits;
- scores the churn risk with an additive, clamped rule table;
- summarises the text to 240 characters;
- extracts the repeated keywords.

Its `rag_answer` step ranks stored insight summaries by term-set overlap with a query
and writes a fixed-format answer from the best three.

Beside the engine, the model covers:

- the aggregation logic of the API routes (backend/app/api/routes.py): the CSM
  dashboard rows, the account-detail and RAG lookups with their 404, the
  recent-insights limit clamp and the zero-guarded feedback rates;
- the older single-file backend (journeylens_backend.py): its cruder keyword
  heuristic, canned RAG reply, at-risk dashboard filter and metrics.

The database is replaced by the lists its queries return, and records are plain
datatypes.

Conventions:

- Risk and confidence are integers in hundredths (0.85 is `85`). Percentages are in
  tenths (85.0% is `850`).
- Timestamps are integers that order like the source's datetimes.
- Text is `seq<char>` with ASCII case and whitespace rules.

Modules, one per file:

| file | module | what it holds |
|---|---|---|
| wrappers.dfy | `Wrappers` | `Option` and the `Result` of a request handler, which carries the status and detail of its `HTTPException` |
| text.dfy | `Text` | ASCII character classes, `str.lower`, `pat in text`, `sep.join`, Python's string order and `sorted` of distinct strings |
| tokens.dfy | `Tokens` | `re.findall(r"[a-zA-Z]{m,}", s)` as maximal letter runs |
| sorting.dfy | `Sorting` | stable `sorted(..., reverse=True)`, `max`'s first maximum, filters and `[:n]`, and the top-n lemmas |
| decimal.dfy | `Decimal` | `round(x)` with ties to even, and `f"{x:.2f}"` of a value in hundredths |
| analysis_tables.dfy | `AnalysisTables` | the four keyword and action tables |
| heuristics.dfy | `Heuristics` | intent, sentiment and risk; `_infer_intent` and `_estimate_risk` as methods proved against functions |
| summarizer.dfy | `Summarizer` | `_summarize`: strip, collapse whitespace, `textwrap.shorten` |
| keywords.dfy | `KeywordExtractor` | `_extract_keywords` and `_format_keywords`, and reading the keyword string back |
| records.dfy | `Records` | insight, interaction, account and feedback records |
| retrieval.dfy | `Retrieval` | `_similarity` and `rag_answer` |
| engine.dfy | `InsightEngine` | `ExpectedInsight`, the engine's read-only lookup and `analyze` |
| routes.dfy | `Routes` | the route logic of backend/app/api/routes.py; the dashboard loop is a method |
| legacy.dfy | `LegacyBackend` | the logic of journeylens_backend.py; its dashboard loop is a method |

Two details of the keyword step, where the model follows the code:

- Order of the steps. `_extract_keywords` takes `most_common(5)` first and only then drops words that occur once. Doing these in the other order is the natural way to describe the step. `KeywordExtractor.FilterBeforeTop` proves that both orders give the same keywords.
- Ties. `Counter.most_common` sorts stably over first-seen order, so equally frequent words keep the order they first appear in. `KeywordExtractor.CounterItems` is built in that order.

## Model

| member | source | states |
|---|---|---|
| Text.LowerChar | backend/app/services/analysis.py:78 | a lowered character is never a capital; an ASCII capital becomes its own lower-case letter (32 code points on), any other character is unchanged, and letters and whitespace stay letters and whitespace |
| Text.Lower | backend/app/services/analysis.py:78 | ASCII lowercasing keeps the length and lowers each character on its own, by the ASCII rule |
| Text.LowerIdempotent | backend/app/services/analysis.py:78 | lowering twice is lowering once, and lowered text has no capitals |
| Text.ContainsIff | backend/app/services/analysis.py:159 | `keyword in text` holds exactly when the keyword appears at some offset of the text |
| Text.SortStrings | backend/app/services/analysis.py:152 | `sorted` of distinct strings is a permutation that is strictly increasing in code-point lexicographic order |
| Tokens.LetterRuns | backend/app/services/analysis.py:145 | every regex match is a run of ASCII letters of at least the minimum length |
| Tokens.LetterRunsOfWord | backend/app/services/analysis.py:145 | a word of letters matches as a whole when long enough, and not at all otherwise |
| Tokens.LetterRunsSplit | backend/app/services/analysis.py:145 | a non-letter separates matches: the matches of `a + c + b` are those of `a` followed by those of `b` |
| Sorting.SortDesc | backend/app/services/analysis.py:109-113 | `sorted(..., reverse=True)` returns a permutation of its input in non-increasing key order |
| Sorting.SortDescStable | backend/app/services/analysis.py:109-113 | the sort is stable: for every key value, the elements with that key keep their input order |
| Sorting.Filter | backend/app/services/analysis.py:115 | a list comprehension filter never yields more elements than it was given |
| Sorting.FilterMembers | backend/app/services/analysis.py:115 | the filter keeps exactly the elements that pass |
| Sorting.Take | backend/app/services/analysis.py:115 | `s[:n]` is the first `min(n, len(s))` elements |
| Sorting.KeepAbove | backend/app/services/analysis.py:147 | the `count > 1` filter never yields more elements than it was given |
| Sorting.KeepAboveMembers | backend/app/services/analysis.py:147 | the `count > 1` filter keeps exactly the elements whose key is above the threshold |
| Sorting.TopOfFiltered | backend/app/services/analysis.py:115 | after sort, filter and `[:n]`, an element that passes the filter but is missing means `n` were kept, each with a key at least as large |
| Sorting.TopFilteredFacts | backend/app/services/analysis.py:109-115 | sort, filter and `[:n]` keep at most `n` elements of the input, none more often than the input holds it, each passing the filter, in non-increasing key order |
| Sorting.TopFilteredEmptyIff | backend/app/services/analysis.py:115-117 | for `n > 0`, sort, filter and `[:n]` give nothing exactly when no input element passes the filter |
| Sorting.TopAboveThreshold | backend/app/services/analysis.py:147 | after sort, `[:n]` and a threshold, an element above the threshold that is missing means `n` were kept, each with a key at least as large |
| Sorting.KeepAboveTake | backend/app/services/analysis.py:147 | on a sorted list, cutting at a threshold and taking the first `n` commute |
| Sorting.FilterWithKey | backend/app/services/analysis.py:115 | filtering keeps the relative order of elements that share a key |
| Sorting.FirstArgMax | backend/app/services/analysis.py:163 | `max` with a key returns a position with the largest value, and every earlier position has a strictly smaller value |
| Sorting.FirstArgMaxUnique | backend/app/services/analysis.py:163 | those two properties single out `max`'s answer |
| Decimal.RoundHalfEven | backend/app/api/routes.py:88 | `round(num / den)` is within half a unit of the exact quotient, and an exact half rounds to the even neighbour |
| Decimal.RoundHalfEvenUnique | backend/app/api/routes.py:88 | exactly one integer meets the rounding contract |
| Decimal.NatToDecimal | backend/app/services/analysis.py:121 | `str(n)` is a non-empty string of digits with no leading zero that denotes `n` |
| Decimal.FormatHundredths | backend/app/services/analysis.py:121 | `f"{risk:.2f}"` gives a minus sign exactly for a negative value, a non-empty whole part with no leading zero unless it is "0", a point and two decimals, and it denotes the value |
| AnalysisTables.NextAction | backend/app/services/analysis.py:51-59 | `NEXT_ACTIONS.get(intent, "Follow up with the customer")` returns the table's action for a listed intent and the fallback for any other |
| AnalysisTables.TablesAgree | backend/app/services/analysis.py:41-59 | the seven intent labels are distinct and in insertion order, each has its own next action, and the default label is the first one |
| Heuristics.CountHits | backend/app/services/analysis.py:168-169 | a hit count is the number of positions whose keyword occurs in the text; so it is at most the number of keywords, 0 exactly when no keyword occurs, and full exactly when all occur |
| Heuristics.IntentOf | backend/app/services/analysis.py:154-164 | the inferred intent is always one of the seven labels |
| Heuristics.IntentOfIff | backend/app/services/analysis.py:156-164 | the intent is label `i` exactly when `i` has the most hits and every earlier label has fewer; the zero-hit fallback is included |
| Heuristics.IntentWithoutHits | backend/app/services/analysis.py:162-164 | text that matches no keyword is a "support_request" |
| Heuristics.ScoreLabels | backend/app/services/analysis.py:156-160 | the two loops give every label the number of its keywords that occur in the text |
| Heuristics.InferIntent | backend/app/services/analysis.py:154-164 | the nested loops that fill the score table return the intent `IntentOf` defines |
| Heuristics.SentimentFromCounts | backend/app/services/analysis.py:170-172 | "neutral" exactly when the counts are equal, "positive" exactly when positive hits are more, "negative" exactly when fewer |
| Heuristics.InferSentiment | backend/app/services/analysis.py:166-172 | the sentiment is one of three values: neutral exactly when the positive and negative hit counts are equal, positive exactly when the positive count is larger |
| Heuristics.SentimentSymmetric | backend/app/services/analysis.py:170-172 | swapping the two counts swaps positive and negative, and neutral stays neutral |
| Heuristics.SentimentWithoutHits | backend/app/services/analysis.py:168-172 | text without sentiment keywords is neutral |
| Heuristics.Clamp | backend/app/services/analysis.py:195 | the clamp lands in [0.05, 0.95] and changes only values outside it |
| Heuristics.RiskOf | backend/app/services/analysis.py:174-195 | the risk score is always within [0.05, 0.95] |
| Heuristics.EstimateRisk | backend/app/services/analysis.py:174-195 | the step-by-step updates of `base` compute `RiskOf` and stay within [0.05, 0.95] |
| Heuristics.ChurnNegativeIsMaximal | backend/app/services/analysis.py:178-186 | a negative churn-risk interaction always scores 0.95, whatever urgency or relief words it has |
| Heuristics.UpgradePositiveIsMinimal | backend/app/services/analysis.py:182-195 | a positive upgrade inquiry scores 0.05, or 0.10 when urgent without relief |
| Heuristics.RiskMonotoneInSentiment | backend/app/services/analysis.py:185-188 | for a fixed intent and text, positive sentiment gives the lowest risk and negative the highest |
| Summarizer.StripLeft | backend/app/services/analysis.py:138 | `lstrip` removes a whitespace prefix and leaves a suffix that is empty or starts with a non-space |
| Summarizer.StripRight | backend/app/services/analysis.py:138 | `rstrip` removes a whitespace suffix and leaves a prefix that is empty or ends with a non-space |
| Summarizer.Strip | backend/app/services/analysis.py:138 | `strip` leaves a slice of the text with only whitespace on either side of it, so the same non-whitespace characters; nothing exactly when the text is all whitespace, and otherwise a text with non-space ends |
| Summarizer.CollapseSpaces | backend/app/services/analysis.py:138 | `re.sub(r"\s+", " ", s)` leaves only single plain spaces, never lengthens, and keeps whether each end is whitespace |
| Summarizer.CollapseKeepsNonSpace | backend/app/services/analysis.py:138 | collapsing keeps the non-whitespace characters of the text, in order |
| Summarizer.CollapseIsSqueeze | backend/app/services/analysis.py:138 | collapsing equals the character-by-character rule: a non-whitespace character stays, and a whitespace character becomes one space at the end of its run and vanishes elsewhere |
| Summarizer.Clean | backend/app/services/analysis.py:138 | the cleaned text has the content's non-whitespace characters in order, no whitespace runs and no space at either end; it is empty exactly when the content is blank |
| Summarizer.CollapseSingleSpaced | backend/app/services/analysis.py:138 | collapsing does not change text that is already single-spaced |
| Summarizer.CleanWellSpaced | backend/app/services/analysis.py:138 | cleaning does not change text without whitespace runs, so cleaning is idempotent |
| Summarizer.LastBreak | backend/app/services/analysis.py:141 | the chosen break is the last space within the budget, or none |
| Summarizer.Shorten | backend/app/services/analysis.py:141 | `shorten` never exceeds the width; text that fits is unchanged; otherwise it is the longest whole-word prefix that leaves room for "…", followed by "…"; the result keeps single spacing |
| Summarizer.Summarize | backend/app/services/analysis.py:136-141 | the summary is non-empty, at most 240 characters and free of whitespace runs; it is exactly "No summary available." for blank content; cleaned text of at most 240 characters is returned unchanged, and longer text ends with "…" |
| KeywordExtractor.FirstSeen | backend/app/services/analysis.py:146 | the `Counter`'s keys are the distinct words, in first-seen order: of two keys, the earlier one occurs in the text before any occurrence of the later one |
| KeywordExtractor.FirstSeenDistinct | backend/app/services/analysis.py:152 | a list without repetitions is its own set, in the same order |
| KeywordExtractor.TopItemFacts | backend/app/services/analysis.py:147 | every item `most_common(5)` keeps after the `count > 1` filter is a word of the text with its true count, at least 2 |
| KeywordExtractor.ExtractKeywords | backend/app/services/analysis.py:143-147 | at most 5 keywords, each an all-letter token of length at least 4 that occurs at least twice |
| KeywordExtractor.KeywordsAreMostFrequent | backend/app/services/analysis.py:147 | a repeated word that is left out means 5 keywords were kept, each occurring at least as often |
| KeywordExtractor.FilterBeforeTop | backend/app/services/analysis.py:147 | dropping single occurrences before or after taking the top 5 gives the same keywords |
| KeywordExtractor.KeywordList | backend/app/services/analysis.py:152 | `sorted(set(keywords))` is strictly increasing, has the same words and at most 5 of them |
| KeywordExtractor.ParseJoin | backend/app/services/analysis.py:152 | joining words of letters with ", " and splitting again gives the words back |
| KeywordExtractor.FormatKeywordsRoundTrip | backend/app/services/analysis.py:149-152 | the keywords string reads back as a sorted, duplicate-free list of at most 5 all-letter words of length at least 4, each occurring at least twice |
| Retrieval.Similarity | backend/app/services/analysis.py:197-206 | similarity lies in [0, 1] and is 0 when the text is empty, when either term set is empty, or when the two term sets share no term |
| Retrieval.OverlapBound | backend/app/services/analysis.py:205-206 | the overlap is at most either set's size, so the ratio never exceeds 1 |
| Retrieval.SimilarityOneIff | backend/app/services/analysis.py:197-206 | similarity is 1 exactly when the text is non-empty and both term sets are the same non-empty set |
| Retrieval.Bullets | backend/app/services/analysis.py:120-123 | one bullet per supporting insight, in order |
| Retrieval.RagAnswer | backend/app/services/analysis.py:105-134 | the supporting insights are the top three summarised ones by similarity; with none, the answer is "No relevant insights found for this account yet."; otherwise it joins the header, the bullets and the next-action line for the first insight's intent |
| Retrieval.RagAnswerEmptyIff | backend/app/services/analysis.py:115-118 | there are no supporting insights exactly when no insight has a summary, and then the fixed apology is the answer |
| Retrieval.RagAnswerSupporting | backend/app/services/analysis.py:109-115 | at most 3 supporting insights, each from the input and with a summary, none repeated beyond the input's copies, in non-increasing similarity |
| Retrieval.RagAnswerStable | backend/app/services/analysis.py:109-115 | summarised insights with equal similarity keep their input order |
| Retrieval.RagAnswerTopThree | backend/app/services/analysis.py:115 | a summarised insight that is left out means three were kept, each at least as similar to the query |
| Retrieval.RagAnswerFormat | backend/app/services/analysis.py:120-132 | the answer is "Here's what we know:", then "\n" and a bullet per insight, then a blank line, "Suggested next action: " and the next action for the first insight's intent |
| InsightEngine.Engine.Analyze | backend/app/services/analysis.py:77-103 | a non-zero listed id takes intent, sentiment and risk from the lookup with confidence 0.9; otherwise the heuristics decide, with confidence 0.65; summary and keywords are computed the same way in both cases |
| InsightEngine.NewEngine | backend/app/services/analysis.py:74-75 | a missing lookup table is an empty one, so only a non-zero id listed in a given table overrides |
| InsightEngine.HeuristicAnalysisBounds | backend/app/services/analysis.py:92-103 | without an override, the intent is one of the seven labels, the sentiment one of three, the risk within [0.05, 0.95] and the confidence 0.65 |
| InsightEngine.OverrideKeepsText | backend/app/services/analysis.py:77-103 | summary and keywords do not depend on the id |
| InsightEngine.ZeroIdIsHeuristic | backend/app/services/analysis.py:81 | the id 0 is falsy and behaves exactly like a missing id |
| InsightEngine.AnalyzeIgnoresCase | backend/app/services/analysis.py:78-103 | everything but the summary is the same for the content and its lowercased form |
| Routes.FindAccount | backend/app/api/routes.py:47-52 | the lookup returns an account with the requested id, or nothing exactly when none has it |
| Routes.AccountInsights | backend/app/api/routes.py:73 | the account's insights are those of its interactions: empty exactly when no interaction has one |
| Routes.AccountDetails | backend/app/api/routes.py:39-59 | a 404 "Account not found" exactly when no account has the id; otherwise the account with the same interactions in newest-first order, interactions with equal timestamps keeping their loaded order |
| Routes.RagQuery | backend/app/api/routes.py:139-167 | a 404 exactly when no account has the id; otherwise the engine's answer over that account's insights |
| Routes.MeanRisk | backend/app/api/routes.py:77-78 | the row's risk is the mean of the account's insight risks, to the nearest hundredth, a tie going to the even hundredth |
| Routes.MeanRiskWithin | backend/app/api/routes.py:77-78 | the rounded mean stays within any bounds all the risks share, so heuristic risks give rows within [0.05, 0.95] |
| Routes.LastTimestamp | backend/app/api/routes.py:79 | `last_interaction` is the latest interaction timestamp of the account, and missing exactly when it has no interactions |
| Routes.FirstWith | backend/app/api/routes.py:80-83 | the first position holding an intent, with no earlier one holding it |
| Routes.DominantIntent | backend/app/api/routes.py:80-83 | the dominant intent occurs among the insights and has the most of them; any intent met earlier in insight order has strictly fewer |
| Routes.RowFor | backend/app/api/routes.py:73-93 | an account with no insight has no row; otherwise the row holds its id, name, rounded mean risk, count of all interactions, latest timestamp and the next action of its dominant intent |
| Routes.CsmDashboard | backend/app/api/routes.py:62-96 | the loop appends one row per account that has an insight, then the rows are sorted by risk, highest first, as a permutation |
| Routes.UnsortedRowsMembers | backend/app/api/routes.py:72-93 | the appended rows are exactly the rows of the accounts that have one |
| Routes.DashboardRowsAreAccountRows | backend/app/api/routes.py:72-96 | after sorting, a row is on the dashboard exactly when it is the row of some account |
| Routes.DashboardStable | backend/app/api/routes.py:95 | rows with equal risk keep account order |
| Routes.EffectiveLimit | backend/app/api/routes.py:228 | the effective limit is clamped to [1, 50], and a limit inside that range is kept |
| Routes.RecentInsights | backend/app/api/routes.py:228-235 | as many insights as the clamped limit allows, newest first, drawn from the input without repeating any; an insight left out means the limit was reached with insights no older than it |
| Sorting.TopOfSorted | backend/app/api/routes.py:228-235 | after a descending sort and `[:n]`, an element held more often by the input than by the result means `n` were kept, each with a key at least as large |
| Routes.Rate | backend/app/api/routes.py:207-213 | a rate is 0 when its denominator is 0; otherwise it is within half a tenth of the exact percentage, a tie going to the even tenth, and within [0, 100] when the part does not exceed the whole |
| Routes.EvaluationMetrics | backend/app/api/routes.py:196-217 | feedback_rate is 0 without insights, useful_rate is 0 without feedback and lies within [0, 100]; coverage, confidence and trend are the fixed values |
| LegacyBackend.LegacySummary | journeylens_backend.py:152 | content of at most 80 characters is the summary; longer content gives its first 80 characters plus "...", so never more than 83 |
| LegacyBackend.AnalyzeInteraction | journeylens_backend.py:146-162 | intent is "support_request" exactly when the lowercased content contains "help", else "general_inquiry"; sentiment is "negative" exactly when it contains "angry", "frustrated" or "bad", else "positive"; risk is 0.8 exactly for negative, else 0.2; confidence 0.5; embedding empty |
| LegacyBackend.AnalyzeInteractionNeverNeutral | journeylens_backend.py:150-151 | the legacy sentiment is never "neutral" and the risk is one of two values |
| LegacyBackend.LegacyRagQuery | journeylens_backend.py:164-171 | no insights gives the "No recent insights" reply; otherwise the canned reply quoting the query |
| LegacyBackend.AverageRisk | journeylens_backend.py:253 | the average times the number of insights is the sum of their risks |
| LegacyBackend.AtRiskRowFor | journeylens_backend.py:251-262 | an account is listed exactly when it has insights averaging above 0.7; its next action is "Schedule check-in call" exactly above 0.8, else "Monitor closely" |
| LegacyBackend.LegacyCsmDashboard | journeylens_backend.py:234-264 | the loop builds the at-risk rows in account order; every row is above 0.7, and there is at most one per account |
| LegacyBackend.AtRiskRowsBounds | journeylens_backend.py:254 | every listed row is above 0.7, and there are no more rows than accounts |
| LegacyBackend.AtRiskRowsMembers | journeylens_backend.py:244-262 | a row is listed exactly when it is the at-risk row of some account |
| LegacyBackend.PositiveCount | journeylens_backend.py:315 | the count is the number of thumbs-up ratings, so it never exceeds the number of ratings |
| LegacyBackend.LegacyEvaluationMetrics | journeylens_backend.py:305-327 | the feedback and useful rates are 0 when their denominators are 0, and useful_rate lies within [0, 100] |

## Left out

- Persistence, HTTP and auth are not modelled: the SQLAlchemy session, the FastAPI wiring and the bearer-token check. Query results are inputs:
  - accounts come with their loaded interactions;
  - insights and feedback come as lists;
  - the legacy dashboard takes each account's latest insights already ordered newest first.
- The other routes are not modelled, and neither are the timestamps their responses carry:
  - `health_check` and `list_accounts` only fetch records;
  - `submit_feedback` rejects an unknown `insight_id` with a 400, then stores the rating (backend/app/api/routes.py:178-180);
  - `create_interaction` rejects an unknown account with a 400, then stores the interaction with the insight `InsightEngine.analyze` gives for it (backend/app/api/routes.py:107-121). The analysis is modelled as `InsightEngine.Engine.Analyze`; the check and the storing are not.
- Seeding from CSV, configuration, the generator scripts, the charts and the frontend are not part of this model.
- Floating point is not modelled. Risk is kept in exact hundredths, and the averages and rates are exact rationals rounded half to even. Python rounds the nearest binary float instead, so a value that a float cannot hold exactly may round the other way at a tie.
- InsightEngine.Engine.Analyze: an expected risk with more than two decimals cannot be represented, because risk is held in hundredths.
- Retrieval.Similarity: returns the square of the source's `overlap / sqrt(|q| * |t|)`. The two have the same order, so the ranking is the same up to float rounding, but the value itself is not the source's.
- Summarizer.Shorten: `textwrap.shorten` also breaks after hyphens inside words (`break_on_hyphens`). The model breaks only at spaces, so a summary cut inside a hyphenated word can differ.
- Non-ASCII text is not modelled:
  - `str.lower` and whitespace follow ASCII rules only;
  - Unicode case folding and non-ASCII whitespace, which the source's `lower`, `strip` and `\s` also handle, are out.
- Routes.RecentInsights: the database's `ORDER BY created_at DESC` gives no order for equal timestamps. The model picks the stable order.
- Routes.AccountDetails: the source sorts the loaded account's interaction list in place. The model returns the account with a sorted copy, so aliasing of that list is not captured.
- LegacyBackend.LegacyRagQuery takes the number of insights the account query found, because the reply depends on nothing else.
- LegacyBackend.LegacyCsmDashboard: `datetime.utcnow()` is the parameter `now`.
- LegacyBackend.AtRiskRowFor: compares the exact average with 0.7 and 0.8, where the source compares a float sum divided by a count. The two can fall on different sides of a threshold. Three latest insights of risk 0.8 average to 0.8000000000000002 in floats, so the source answers "Schedule check-in call"; the exact average 0.8 gives the model's "Monitor closely". The same can happen at 0.7 for whether the account is listed.
- Concrete end-to-end runs are not stated as lemmas; for example, the cancellation sentence of backend/tests/test_api.py:42-48 is not one. The general lemmas give each step of such a run:
  - its intent follows from `Heuristics.IntentOfIff`;
  - its sentiment follows from `Heuristics.InferSentiment`;
  - its risk follows from `Heuristics.ChurnNegativeIsMaximal` and `Heuristics.UpgradePositiveIsMinimal`.
