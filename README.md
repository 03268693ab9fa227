# Location-query resolution of hyper-local-oracle, in Dafny

This project models the part of the weather app that turns a free-text
location query into places, and proves properties of that model:

- **Autocomplete resolver** (`src/data/locationCodes.ts`). The model has:
  - the 39-entry code table and the 13-entry typo table, as sequences in declaration order;
  - the matrix Levenshtein distance;
  - `getLocationSuggestions`, with its three candidate tiers and the stable sort, first-five and projection pipeline.
- **Server-side query pre-correction** (`supabase/functions/weather-search/index.ts:25-55`). A known code becomes its city. Otherwise the first contained typo key is replaced case-insensitively throughout the query.
- **Reference-table construction** (`src/data/locationDatabase.ts`):
  - the naive comma-split airport and railway-station parsers;
  - their concatenation;
  - the code-keyed index, where the last record with a code wins.
- **Weather-code classification** (`src/pages/Index.tsx:16-46`). A WMO weather interpretation code (WMO code table 4677) maps to one of four display conditions and to a description.
- **Hour labels of the forecast chart** (`src/components/WeatherChart.tsx:16-27`). A 24-hour to 12-hour clock conversion plus truncation to 24 entries.

Files:

- `wrappers.dfy`: `Option`.
- `text.dfy`: the JavaScript string primitives the code relies on:
  - ASCII `toLowerCase`/`toUpperCase`;
  - `trim`, with the exact ECMAScript whitespace set;
  - `startsWith`, `includes`, one-character `split`;
  - `replace(/"/g, '')`;
  - decimal formatting.
- `edit_distance.dfy`: `levenshteinDistance` as a method that fills an `array2` row by row. It is proved equal to the recursive Levenshtein definition, and that definition's properties are proved as lemmas.
- `location_codes.dfy`: the two tables and the three tiers. Each tier is a function defined from the back, and a method with the source's `for` loop is proved equal to it. Also here: the pipeline and `GetLocationSuggestions`.
- `weather_search.dfy`: the pre-correction as a method over the handler's two tables, proved equal to a decision function. Lemmas cover each branch, case-insensitivity and the leftmost-match behaviour of the global replacement.
- `location_database.dfy`: both parsers and the `reduce`, as loop methods proved equal to specification functions, with lemmas about filters, order and the index.
- `weather_codes.dfy`, `weather_chart.dfy`: the two pure classifiers and converters.

How the code was read:

- **No deduplication.** The code does not deduplicate suggestions by value: Delhi can come back three times, from its code, from a typo key and from its name (`LocationCodes.DelQuery`). Exact and prefix code hits both score 0. There is no subsequence scorer and no coordinate fallback. An empty result stays empty. The model follows the code.
- **Stable sort.** `Array.prototype.sort` is stable. With the comparator `a.score - b.score` it is modelled as an insertion sort that puts an element in front of the first element scored at least as high. `SortByScoreSorted`, `SortByScorePermutes` and `SortByScoreStable` together pin that function down as the unique stable sort.
- **Object key order.** `Object.entries` and `Object.values` of the tables enumerate keys in declaration order. No table key looks like an array index, and no table repeats a key. The object-literal lookup `locationCodes[k]` of the handler is modelled as the last entry with key `k`.
- **Typo regexes.** Every typo key is a run of lower-case ASCII letters (`WeatherSearch.TypoTableKeys`). So `new RegExp(typo, 'gi')` matches the key literally, ignoring case, and a global replace is a left-to-right scan of non-overlapping matches.
- **Code lookup.** The handler's `locationCodes[upperQuery]` is looked up on an upper-cased query. The names that `Object.prototype` provides all contain lower-case letters, so such a lookup can only hit a table key.

## Model

| member | source | states |
|---|---|---|
| Text.ToLower | src/data/locationCodes.ts:103 | lower-casing keeps the length and maps every character by ASCII case folding |
| Text.ToUpper | src/data/locationCodes.ts:107 | upper-casing keeps the length and maps every character by ASCII case folding |
| Text.SameLowerSameUpper | supabase/functions/weather-search/index.ts:41-48 | two queries with the same lower-case form have the same upper-case form |
| Text.TrimStart | src/data/locationCodes.ts:103 | the result is a suffix of the input that, unless empty, starts with a non-whitespace character, and everything removed is ECMAScript whitespace |
| Text.TrimEnd | src/data/locationCodes.ts:103 | the result is a prefix of the input that, unless empty, ends with a non-whitespace character, and everything removed is ECMAScript whitespace |
| Text.TrimEnds | src/data/locationCodes.ts:103 | the trimmed string is no longer than the input and, unless empty, has no whitespace at either end; `WeatherSearch.TrimIsStretch` shows it is a contiguous stretch of the input |
| Text.TrimKeepsEnds | src/data/locationCodes.ts:103 | a non-empty string with no whitespace at either end is its own trim |
| Text.IsPrefix | src/data/locationCodes.ts:109 | `startsWith`: the string begins with the prefix; used by `LocationCodes.CodeTierMembers` and `LocationCodes.TypoTierMembers` |
| Text.Contains | src/data/locationCodes.ts:134 | `includes`: the string occurs at some position; `Text.ContainsAt` and `Text.ContainsLength` carry its properties |
| Text.Split | src/data/locationDatabase.ts:14 | a split always yields at least one piece, so line 0 always exists |
| Text.JoinSplit | src/data/locationDatabase.ts:14-17 | splitting loses nothing: joining the pieces with the separator gives the input back |
| Text.SplitPiecesClean | src/data/locationDatabase.ts:17 | no piece contains the separator |
| Text.Without | src/data/locationDatabase.ts:21 | the result has no `"`, holds exactly the characters of the input other than `"`, and is no longer than it |
| Text.WithoutCounts | src/data/locationDatabase.ts:21 | every character other than `"` is kept as often as the input has it (the multiset of the input with `"` removed), and an input without `"` is unchanged |
| Text.WithoutConcat | src/data/locationDatabase.ts:21 | removal works piece by piece, so the kept characters stay in their order |
| Text.WithoutIdempotent | src/data/locationDatabase.ts:21 | removing the quotes a second time changes nothing |
| Text.NatToString | src/components/WeatherChart.tsx:23 | a formatted number is a non-empty string of decimal digits |
| Text.DecimalRoundTrip | src/components/WeatherChart.tsx:23 | reading the formatted digits back gives the number |
| Text.ContainsLength | src/data/locationCodes.ts:134-135 | a contained string is no longer than its container, so the name prefix taken for scoring exists |
| EditDistance.Min3 | src/data/locationCodes.ts:87-91 | the result is one of the three arguments and no larger than any |
| EditDistance.Distance | src/data/locationCodes.ts:71-97 | the recursive Levenshtein distance the matrix method is proved equal to (`EditDistance.LevenshteinDistance`); its properties are the `Distance*` lemmas below |
| EditDistance.LevenshteinDistance | src/data/locationCodes.ts:71-97 | the matrix computation returns exactly the recursive unit-cost insert/delete/substitute distance |
| EditDistance.FillRow | src/data/locationCodes.ts:83-93 | after the inner loop, cell (i, j) holds the distance between the first j characters of `a` and the first i of `b`, for every j, and no other row changes |
| EditDistance.CellRecurrence | src/data/locationCodes.ts:84-91 | the distance of two non-empty prefixes obeys the loop's recurrence: the diagonal when the last characters agree, otherwise one plus the cheapest neighbour |
| EditDistance.DistanceToSelf | src/data/locationCodes.ts:82-96 | every string is at distance 0 from itself |
| EditDistance.DistanceToEmpty | src/data/locationCodes.ts:74-80 | against the empty string the distance is the other string's length, on either side |
| EditDistance.DistanceSymmetric | src/data/locationCodes.ts:71-97 | the distance does not depend on the order of the arguments |
| EditDistance.DistanceAtMostLonger | src/data/locationCodes.ts:71-97 | the distance is at most the longer length |
| EditDistance.DistanceAtLeastLengthGap | src/data/locationCodes.ts:71-97 | the distance is at least the difference of the lengths |
| EditDistance.DistanceZeroIffEqual | src/data/locationCodes.ts:71-97 | the distance is 0 if and only if the strings are equal |
| LocationCodes.CodeTier | src/data/locationCodes.ts:107-117 | the code tier has at most one candidate per table entry, all scored 0, whether the code is an exact or a prefix hit |
| LocationCodes.TypoTier | src/data/locationCodes.ts:119-129 | every typo candidate has score 1, type city, and label equal to value |
| LocationCodes.LocationCodeTable | src/data/locationCodes.ts:2-51 | the 39 entries of `locationCodes`, in declaration order; `LocationCodes.DelQuery` shows how one query meets them |
| LocationCodes.TypoMap | src/data/locationCodes.ts:54-68 | the 13 entries of `typoMap`, in declaration order |
| LocationCodes.Normalize | src/data/locationCodes.ts:103 | `toLowerCase().trim()`; `Text.ToLower` and `Text.Trim` carry its properties |
| LocationCodes.Candidates | src/data/locationCodes.ts:104-143 | the three tiers in push order; `LocationCodes.RankedTiers`, `LocationCodes.EveryCandidateRanked` and `LocationCodes.CandidatesIgnoreCase` state what the list gives |
| LocationCodes.Insert | src/data/locationCodes.ts:147 | one step of the stable sort; `LocationCodes.InsertSorted`, `InsertPermutes` and `InsertWithScore` state it |
| LocationCodes.SortByScore | src/data/locationCodes.ts:147 | the stable sort by score; `LocationCodes.SortByScoreSorted`, `SortByScorePermutes` and `SortByScoreStable` pin it down |
| LocationCodes.Finalize | src/data/locationCodes.ts:146-149 | sort, first five, drop the score; `LocationCodes.RankedTiers` states the result |
| LocationCodes.NameScore | src/data/locationCodes.ts:134-140 | a name hit's score lies in [2, 2 + \|query\|], and is exactly 2 if and only if the lower-cased name starts with the query |
| LocationCodes.NameTier | src/data/locationCodes.ts:131-143 | every name candidate is scored in [2, 2 + \|query\|] |
| LocationCodes.CodeTierMembers | src/data/locationCodes.ts:108-117 | a code candidate exists if and only if some entry's code starts with the untrimmed upper-cased query, and it is labelled "Name, Country (CODE)" and valued by the name |
| LocationCodes.TypoTierMembers | src/data/locationCodes.ts:120-129 | a typo candidate exists if and only if some typo key starts with the trimmed lower-cased query, and it carries the corrected name |
| LocationCodes.NameTierMembers | src/data/locationCodes.ts:132-143 | a name candidate exists if and only if some entry's lower-cased name contains the trimmed lower-cased query |
| LocationCodes.CodeTierFirst | src/data/locationCodes.ts:108-117 | a code hit on the first entry is the first code candidate (table order is kept) |
| LocationCodes.NameTierFirst | src/data/locationCodes.ts:132-143 | a name hit on the first entry is the first name candidate |
| LocationCodes.Take | src/data/locationCodes.ts:148 | `slice(0, 5)` keeps min(5, n) entries and they are a prefix of the sorted list |
| LocationCodes.Project | src/data/locationCodes.ts:149 | the projection keeps the length and, per index, label, value and type, dropping only the score |
| LocationCodes.SortByScoreSorted | src/data/locationCodes.ts:147 | the sorted candidates have non-decreasing scores |
| LocationCodes.SortByScorePermutes | src/data/locationCodes.ts:147 | the sort is a permutation: the multiset of candidates is unchanged |
| LocationCodes.SortByScoreStable | src/data/locationCodes.ts:147 | the sort is stable: the candidates of each score keep their relative order |
| LocationCodes.InsertSorted | src/data/locationCodes.ts:147 | inserting into a sorted list keeps it sorted |
| LocationCodes.InsertPermutes | src/data/locationCodes.ts:147 | inserting adds exactly the inserted candidate |
| LocationCodes.InsertWithScore | src/data/locationCodes.ts:147 | inserting keeps the order among candidates of each score, the new one before equal scores |
| LocationCodes.SortAtLeast | src/data/locationCodes.ts:147 | sorting keeps a lower bound on all scores |
| LocationCodes.SortKeepsLowerRun | src/data/locationCodes.ts:146-147 | a sorted run whose scores are at most those of the rest stays in front unchanged |
| LocationCodes.RankedTiers | src/data/locationCodes.ts:104-149 | the ranked list is the code hits, then the typo hits, then the name hits stably sorted by score; the result is its first five projected entries, in non-decreasing score order |
| LocationCodes.EveryCandidateRanked | src/data/locationCodes.ts:104-147 | every candidate any tier pushes is in the ranked list: nothing is deduplicated |
| LocationCodes.SharedNameQuery | src/data/locationCodes.ts:104-149 | a query matching the first entry's code, name and a typo of that name yields that code hit first, and keeps the code, typo and name candidates with the same value |
| LocationCodes.CandidatesIgnoreCase | src/data/locationCodes.ts:103-107 | queries that differ only in letter case have the same length and the same candidates, so `getLocationSuggestions` gives them the same result |
| LocationCodes.CodeTierNone | src/data/locationCodes.ts:108-117 | with no code starting with the query the code tier is empty |
| LocationCodes.CodeTierSole | src/data/locationCodes.ts:108-117 | with one entry the only hit, the code tier is exactly that entry's candidate |
| LocationCodes.TypoTierNone | src/data/locationCodes.ts:120-129 | with no typo key starting with the query the typo tier is empty |
| LocationCodes.TypoTierSole | src/data/locationCodes.ts:120-129 | with one key the only hit, the typo tier is exactly its correction |
| LocationCodes.SortKeepsLowestFirst | src/data/locationCodes.ts:147 | a first candidate scored no higher than the rest stays first after the sort |
| LocationCodes.SoleHitsQuery | src/data/locationCodes.ts:104-149 | a query hitting only the first entry's code and only one typo key for that name, and starting the name, returns the code hit, the typo correction and the name hit as its first three suggestions, all with the same value |
| LocationCodes.SoleTiers | src/data/locationCodes.ts:104-147 | under those hypotheses the ranked list is the code hit, then the typo correction, then the sorted name hits |
| LocationCodes.NameHitFirst | src/data/locationCodes.ts:132-147 | a first entry whose lower-cased name starts with the query is the first sorted name hit, scored 2 |
| LocationCodes.DelCodeMisses | src/data/locationCodes.ts:4-50 | no code but DEL starts with "DEL" |
| LocationCodes.DelTypoMisses | src/data/locationCodes.ts:55-67 | no typo key but "delhhi" starts with "del" |
| LocationCodes.DelQuery | src/data/locationCodes.ts:4-149 | "del" returns "Delhi, India (DEL)" first, then "Delhi" from the typo "delhhi" (type city), then "Delhi, India" from the name: three suggestions with the value Delhi |
| LocationCodes.CollectCodeHits | src/data/locationCodes.ts:106-117 | the first loop pushes exactly the code tier |
| LocationCodes.CollectTypoHits | src/data/locationCodes.ts:119-129 | the second loop pushes exactly the typo tier |
| LocationCodes.CollectNameHits | src/data/locationCodes.ts:131-143 | the third loop, scoring with the matrix distance, pushes exactly the name tier |
| LocationCodes.GetLocationSuggestions | src/data/locationCodes.ts:100-150 | a query shorter than 2 characters, counted before trimming, gives []; otherwise the result is the first five projected entries of the stably sorted tiers; never more than 5 |
| WeatherSearch.TypoTableKeys | supabase/functions/weather-search/index.ts:33-38 | every typo key is a non-empty run of lower-case letters, so its regex is the literal key |
| WeatherSearch.CodeTable | supabase/functions/weather-search/index.ts:25-30 | the handler's 14 code pairs, in declaration order |
| WeatherSearch.TypoTable | supabase/functions/weather-search/index.ts:33-38 | the handler's 9 typo pairs, in declaration order; `WeatherSearch.TypoTableKeys` states their shape |
| WeatherSearch.Lookup | supabase/functions/weather-search/index.ts:44-45 | a key is found if and only if the table has an entry with it, and the value found belongs to such an entry |
| WeatherSearch.ReplaceAllCI | supabase/functions/weather-search/index.ts:51 | `replace(new RegExp(key, 'gi'), correct)` for a letter key; `WeatherSearch.ReplaceWithoutMatch` and `WeatherSearch.ReplaceAtLeftmost` state what it does |
| WeatherSearch.LeftmostMatch | supabase/functions/weather-search/index.ts:51 | the position found is a case-insensitive match with no match before it; no position means no match at all |
| WeatherSearch.ReplaceWithoutMatch | supabase/functions/weather-search/index.ts:51 | with no case-insensitive match, the replacement leaves the text unchanged |
| WeatherSearch.ReplaceAtLeftmost | supabase/functions/weather-search/index.ts:51 | the text before the leftmost match is kept, the match becomes the replacement, and the scan resumes after it |
| WeatherSearch.FirstTypo | supabase/functions/weather-search/index.ts:49-53 | the index found is a contained key with no contained key before it; none found means no key is contained |
| WeatherSearch.FirstTypoIs | supabase/functions/weather-search/index.ts:49-53 | the first contained key in table order is the one the loop stops at |
| WeatherSearch.Decide | supabase/functions/weather-search/index.ts:40-54 | which branch the handler takes; a typo decision names a table index; `WeatherSearch.CodeHitWins`, `FirstTypoApplies`, `NoMatchUnchanged` and `DecideIgnoresCase` state each case |
| WeatherSearch.Processed | supabase/functions/weather-search/index.ts:40-55 | the processed query of each decision; `WeatherSearch.ProcessedByTypo` and the branch lemmas state it |
| WeatherSearch.PreCorrect | supabase/functions/weather-search/index.ts:25-55 | with the handler's two tables, the processed query is the one the decision prescribes |
| WeatherSearch.PreCorrectWith | supabase/functions/weather-search/index.ts:40-55 | for any tables, the code check comes first and the typo loop runs only on a miss; the result is the processed query |
| WeatherSearch.ApplyFirstTypo | supabase/functions/weather-search/index.ts:48-54 | the loop replaces the first contained key and breaks; with no contained key the query is unchanged |
| WeatherSearch.CodeHitWins | supabase/functions/weather-search/index.ts:41-45 | if the trimmed upper-cased query is a code with a name, the result is exactly that name, whatever typos the query contains |
| WeatherSearch.FirstTypoApplies | supabase/functions/weather-search/index.ts:46-54 | on a code miss, the first key in table order contained in the lower-cased trimmed query is the one applied, throughout the untrimmed query |
| WeatherSearch.NoMatchUnchanged | supabase/functions/weather-search/index.ts:40-55 | with neither a code nor a typo match the query is passed on unchanged |
| WeatherSearch.DecideIgnoresCase | supabase/functions/weather-search/index.ts:41-50 | queries that differ only in letter case take the same branch |
| WeatherSearch.ProcessedByTypo | supabase/functions/weather-search/index.ts:48-51 | on the typo branch the result is the key replaced throughout the original query, and the key is in the lower-cased trimmed query |
| WeatherSearch.LetterKeyReplaced | supabase/functions/weather-search/index.ts:48-51 | a letter key found in the trimmed lower-cased query matches the original query, ignoring case, and its leftmost match is replaced |
| WeatherSearch.KeyInQuery | supabase/functions/weather-search/index.ts:48-51 | a key found after trimming and lower-casing has a case-insensitive match in the untrimmed query |
| WeatherSearch.TrimIsStretch | supabase/functions/weather-search/index.ts:48 | the trimmed query is a contiguous stretch of the query |
| WeatherSearch.DilliRewrite | supabase/functions/weather-search/index.ts:34-51 | "DILLI weather" and "dilli weather" both miss the code table and take the `dilli` rewrite |
| WeatherSearch.DilliWeather | supabase/functions/weather-search/index.ts:34-51 | both become "Delhi weather" |
| LocationDatabase.Keep | src/data/locationDatabase.ts:15-28 | a parser yields no more records than input lines |
| LocationDatabase.AirportRow | src/data/locationDatabase.ts:17-26 | the record an airport line yields; `LocationDatabase.AirportRecordFiltered` and `AirportLinesKept` state it |
| LocationDatabase.RailwayRow | src/data/locationDatabase.ts:36-45 | the record a railway line yields; `LocationDatabase.RailwayRecordFiltered` states it |
| LocationDatabase.AirportRecords | src/data/locationDatabase.ts:13-29 | the airport parser's result; `LocationDatabase.ParseAirportData` computes it |
| LocationDatabase.RailwayRecords | src/data/locationDatabase.ts:31-48 | the railway parser's result; `LocationDatabase.ParseRailwayData` computes it |
| LocationDatabase.AllLocationData | src/data/locationDatabase.ts:50-53 | the airports, then the stations; `LocationDatabase.AirportsFirst` states it |
| LocationDatabase.Origins | src/data/locationDatabase.ts:16-27 | each record comes from a line that yields it, at strictly increasing line indices, and every line that yields a record is used |
| LocationDatabase.KeepInOrder | src/data/locationDatabase.ts:16-27 | a record is kept if and only if some line yields it |
| LocationDatabase.ParseAirportData | src/data/locationDatabase.ts:13-29 | the loop pushes exactly the records of the lines that pass the airport filter, in line order |
| LocationDatabase.ParseRailwayData | src/data/locationDatabase.ts:31-48 | the loop from line 1 pushes exactly the records of the non-header lines that pass the station filter |
| LocationDatabase.AirportRecordFiltered | src/data/locationDatabase.ts:17-25 | every airport record comes from a line with more than 9 fields, field 8 `IN` and a non-empty field 13; its code is field 13, its name field 3 without `"`, and it has no `"` |
| LocationDatabase.AirportLinesKept | src/data/locationDatabase.ts:18-26 | every line that passes the airport filter yields a record in the output |
| LocationDatabase.RailwayRecordFiltered | src/data/locationDatabase.ts:35-45 | every railway record comes from a line at index 1 or later with more than 6 fields; its code is field 0 and non-empty, its name is field 1 |
| LocationDatabase.AirportsFirst | src/data/locationDatabase.ts:50-53 | in `allLocationData` a record is an airport if and only if it lies in the first, airport part |
| LocationDatabase.CodeIndex | src/data/locationDatabase.ts:55-61 | a key is present if and only if some record has that code; the stored record has that code and is one of the records |
| LocationDatabase.LastRecordWins | src/data/locationDatabase.ts:55-61 | the last record with a code is the one stored under it |
| LocationDatabase.BuildCodeIndex | src/data/locationDatabase.ts:55-61 | the `reduce` loop builds exactly the code index |
| WeatherCodes.WeatherCondition | src/pages/Index.tsx:16-22 | clear if and only if the code is 0; stormy if and only if it is at least 95; rainy if and only if it is in 51..94; cloudy for every other code up to 50, negative codes included |
| WeatherCodes.Described | src/pages/Index.tsx:25-44 | the 18 codes of the description table and their texts; `WeatherCodes.DescribedExactlyWhenTabulated` states it |
| WeatherCodes.WeatherDescription | src/pages/Index.tsx:24-46 | `descriptions[code] \|\| "Unknown"` is never empty; `WeatherCodes.DescribedExactlyWhenTabulated`, `ThunderstormsAreStormy` and `PrecipitationIsRainy` relate it to the table and to the condition |
| WeatherCodes.DescribedExactlyWhenTabulated | src/pages/Index.tsx:24-45 | the description is not "Unknown" if and only if the code is one of the 18 tabulated codes, and then it is the tabulated text |
| WeatherCodes.ThunderstormsAreStormy | src/pages/Index.tsx:16-44 | among tabulated codes, a description starts with "Thunderstorm" if and only if the code is stormy |
| WeatherCodes.PrecipitationIsRainy | src/pages/Index.tsx:16-44 | among tabulated codes, drizzle, rain and snow descriptions are exactly the rainy codes |
| WeatherCodes.RainyIsPrecipitation | src/pages/Index.tsx:20-42 | every tabulated rainy code is described as drizzle, rain or snow |
| WeatherCodes.OtherIsNotPrecipitation | src/pages/Index.tsx:17-44 | no tabulated code outside 51..94 is described as drizzle, rain or snow |
| WeatherCodes.FogIsCloudy | src/pages/Index.tsx:21-31 | the fog codes 45 and 48 are cloudy |
| WeatherChart.DisplayHour | src/components/WeatherChart.tsx:20 | the display hour lies in 1..12 |
| WeatherChart.Period | src/components/WeatherChart.tsx:19 | AM or PM by the hour; `WeatherChart.ClockConversion` states it |
| WeatherChart.HourLabel | src/components/WeatherChart.tsx:23 | the display hour followed by the period; `WeatherChart.LabelRoundTrip`, `LabelsDistinct` and `MidnightAndNoon` state it |
| WeatherChart.ClockConversion | src/components/WeatherChart.tsx:19-20 | PM if and only if the hour is at least 12; 0 shows as 12, 1..12 unchanged, 13..23 as hour - 12 |
| WeatherChart.To24Inverts | src/components/WeatherChart.tsx:19-20 | display hour and period give the 24-hour hour back |
| WeatherChart.LabelRoundTrip | src/components/WeatherChart.tsx:23 | reading a label back gives its hour |
| WeatherChart.LabelsDistinct | src/components/WeatherChart.tsx:19-23 | no two hours share a label |
| WeatherChart.MidnightAndNoon | src/components/WeatherChart.tsx:19-23 | hour 0 is "12AM", hour 12 is "12PM", hour 13 is "1PM" |
| WeatherChart.ChartData | src/components/WeatherChart.tsx:16-27 | the chart has min(24, \|time\|) entries; entry i has `time[i]` as full time, the temperature at index i (absent past the end of the temperature list), and the label of time i's hour |
| WeatherChart.ChartLabelsWellFormed | src/components/WeatherChart.tsx:19-23 | every chart label is a display hour from 1 to 12 followed by AM or PM |

## Left out

- Unicode case mapping: `toLowerCase` and `toUpperCase` are modelled on ASCII letters only, and other characters pass through unchanged.
- UTF-16 code units: JavaScript strings are sequences of UTF-16 code units, while the model's strings are sequences of characters. This affects `query.length` (src/data/locationCodes.ts:101), `charAt` in the distance (:84), `startsWith` (:109, :121), `includes` and `substring` (:134-135). Outside the Basic Multilingual Plane a character is two code units, so lengths, prefixes and edit distances differ. Inside it the two agree.
- Untyped request: the handler takes `query` from `req.json()` without checking its type (supabase/functions/weather-search/index.ts:15). A query that is not a string makes `toUpperCase()` throw at line 41, and the catch at lines 152-162 answers with status 500. The model takes the query as a string.
- Regex replacement patterns: `$` sequences in a replacement string are not modelled. No corrected name in the typo table contains `$`.
- Object edge cases: a record whose code is `__proto__` would not be stored by the `reduce` as a plain key. Objects are modelled as plain maps.
- Floating point:
  - `parseFloat` of coordinates is not modelled; `lat` and `lon` stay as the CSV field text.
  - `Math.round` of chart temperatures is not modelled; the temperature list is generic.
  - Weather codes are modelled as integers.
- The clock: `new Date(time).getHours()` depends on the time zone, so it is an input function (`hourOf`) returning an hour 0..23. An invalid date string, which would give NaN, is not modelled.
- `Math.round(undefined)`: reading past the end of `temperature_2m` gives NaN. It is modelled as an absent temperature.
- The CSV files the app imports at build time are not part of this model. The parsers take the text as a parameter, and `AllLocationData` takes both texts.
- The network and the language model are not part of this model: the Gemini call, the geocoding and forecast fetches, CORS handling, and extracting JSON from the model's reply. The same goes for the UI (React state, JSX, toasts, animation), `scripts/processData.js` (file streams and a CSV library), the fetch wrapper and the react-query hook.
- LocationCodes.CodeTier, TypoTier, NameTier: the tiers' exact sizes for the shipped 39-entry table are not stated for every query. Each tier is characterised generically by its membership lemmas, and by `DelQuery` for one concrete query.
