# Sports moment retrieval engine: a verified model of the core

The engine stores "moments" (single points or match-deciding points in tennis
matches) as rows of a table. Each row has an identifier, a tournament, a year,
a round, players, commentary, a summary and tags. The engine answers free-text
queries with a hybrid ranking. This Dafny project models the parts that carry
the logic:

- **Search** (`ranking.dfy`, module `Ranking`).
  - The year/stage post-filter `_apply_filters`.
  - The local branch of `hybrid_search`. It maps identifiers to rows, then
    scatters BM25 scores and nearest-neighbour inner products into vectors
    aligned with the rows. Each vector is divided by its maximum, or by 1 when
    the maximum is 0, and the two are fused as `a*bm25 + b*embed`. The result
    is filtered, sorted by descending score, and the first k rows are kept.
  - The remote branch. It asks the backend for `2k` hits, filters them and
    keeps the first k.
  - The exceptions the code lets escape are modelled as error results:
    - `KeyError` for an index identifier that is not in the corpus, or a
      filter column missing from an empty remote hit list;
    - `IndexError` for a score list or neighbour position that runs past its end;
    - `EmptyReduction` for the maximum of an empty corpus.
- **Query filters** (`query_filters.dfy`, module `QueryFilters`).
  - `extract_filters` finds the whole-word years matched by `\b(19|20)\d{2}\b`
    in the lower-cased query. This is modelled as a position-by-position match
    predicate, with an executable scan proved equal to it.
  - It also maps synonym substrings to the sorted, duplicate-free stage
    vocabulary {final, quarter, semi}.
- **Ranking metrics** (`metrics.dfy`, module `Metrics`): `precision_at_k` and
  `mrr` of the evaluation script.
- **Ingest converters.** These are the four scripts that turn source tables
  into moment rows.
  - Shared pieces (`frames.dfy`, module `Frames`):
    - table cells, written `None`, missing (`NaN`) or text;
    - column picking with a case-insensitive fallback;
    - `clean`, which keeps ASCII letters and digits and cuts to a width;
    - the short round-code table;
    - the output moment record and the `_`-joined identifiers.
  - Match-level ATP tables (`sackmann.dfy`, module `Sackmann`): year parsing,
    the tie-break heuristic, human round labels, commentary and summary,
    tags and identifiers. It also models `normalize_input_dataframe` as a
    `Frame` class whose column map its methods update in place.
  - Grand-slam point-by-point tables (`slam_pbp.dfy`, module `SlamPbp`):
    - `coalesce`;
    - the clause-building `build_commentary`, with its in-place
      `bits[-1] +=` step;
    - `build_summary`, the tie-break point label, the outcome tags and the
      identifiers.
  - Match-charting tables (`match_charting.dfy`, module `MatchCharting`):
    - the first-row metadata, which raises `IndexError` on an empty table;
    - the winner/error outcome phrase, the commentary bits, the summary,
      the shot tags and the point cell.
  - Kaggle match tables (`kaggle.dfy`, module `Kaggle`): round mapping, the
    prefix year, the final and non-final wording, tags and identifiers.

`common.dfy` holds `Option`, `Result`, Python's slice prefix and the
`Flagged` list: the items whose flag is set, in order. `Flagged` is the
reference definition for every tag list that the converters build by
conditional appends. `strings.dfy` models the ASCII behaviour of
`lower`/`upper`/`strip`/`isdigit`/`title`, substring search, `join`, and
integer rendering.

`hybrid_search` divides each score vector by its maximum, or by 1 when the
maximum is 0 (`src/smre/search.py:70`). It returns whatever survives the
filter, even when nothing does (`src/smre/search.py:75-76`).

## Model

Source paths are relative to the repository root.

| member | source | states |
|---|---|---|
| Metrics.CountRelevant | scripts/evaluate.py:6 | the count of relevant items is at most the list length, and 0 exactly when no item is relevant |
| Metrics.PrecisionAtK | scripts/evaluate.py:5-6 | k = 0 is a ZeroDivisionError and nothing else is; for k > 0 the value is in [0,1], and it is 1 exactly when all of the first k items are relevant |
| Metrics.PrecisionIgnoresTail | scripts/evaluate.py:6 | items ranked after position k never change precision@k |
| Metrics.PrecisionShortList | scripts/evaluate.py:6 | the denominator stays k for a list shorter than k, so a fully relevant short list scores \|ranked\|/k < 1 |
| Metrics.AllRelevantCount | scripts/evaluate.py:6 | when every item is relevant the count is the list length |
| Metrics.ReciprocalRank | scripts/evaluate.py:9-12 | 0 when no item is relevant; 1/(i+1) for the first relevant 0-based position i; in (0,1] whenever some item is relevant |
| QueryFilters.ScanAgreesWithReference | src/smre/preprocess.py:3-16 | the left-to-right scan that skips past each match yields exactly the matches of the whole-word year pattern, in order |
| QueryFilters.YearAtRange | src/smre/preprocess.py:3 | a matched year lies in [1900, 2099] |
| QueryFilters.YearsFromSound | src/smre/preprocess.py:3-16 | every extracted year comes from a whole-word match at some position |
| QueryFilters.YearsFromComplete | src/smre/preprocess.py:3-16 | every whole-word match position contributes its year |
| QueryFilters.YearsMembership | src/smre/preprocess.py:16 | y is extracted iff the pattern matches y at some position of the query |
| QueryFilters.YearsInRange | src/smre/preprocess.py:3-16 | every extracted year is in [1900, 2099] |
| QueryFilters.NoMatchNoYears | src/smre/preprocess.py:12-24 | with no match the year list is empty |
| QueryFilters.GluedYearIgnored | src/smre/preprocess.py:3 | a year glued to letters ("wimbledon2012") is not extracted |
| QueryFilters.FiveDigitsIgnored | src/smre/preprocess.py:3 | four digits inside a longer number ("12012") are not extracted |
| QueryFilters.RepeatedYearsKept | src/smre/preprocess.py:16 | years keep their order of occurrence and their duplicates |
| QueryFilters.SortedStages | src/smre/preprocess.py:24 | the sorted list holds exactly the set's members, in strictly ascending order |
| QueryFilters.StageSet | src/smre/preprocess.py:19-22 | a stage is in the set iff one of its variants occurs in the lower-cased query; the set is within the vocabulary |
| QueryFilters.Stages | src/smre/preprocess.py:6-24 | stage membership iff a variant occurs; strictly ascending, hence duplicate-free; within {final, quarter, semi} |
| QueryFilters.SemifinalAlsoFinal | src/smre/preprocess.py:7-9 | "semifinal" yields both "final" and "semi", because "final" is itself a variant |
| QueryFilters.SemifinalHits | src/smre/preprocess.py:7-22 | "semifinal" hits the final row (through the variant "final") and the semi-final row, and no quarter-final variant occurs in it |
| QueryFilters.LongStageNamesAlsoFinal | src/smre/preprocess.py:7-22 | every query containing "semifinal", "semi-final", "quarterfinal" or "quarter-final" also hits the final row, besides its own semi-final or quarter-final row |
| Strings.ContainsTransitive | src/smre/preprocess.py:19-22 | a substring of a substring of the query is a substring of it, so a long variant carries the shorter variants inside it |
| QueryFilters.ExtractFilters | src/smre/preprocess.py:12-24 | the loop over the synonym table gives the reference years and stages of the lower-cased query |
| Ranking.Where | src/smre/search.py:11-14 | a boolean-mask selection never grows the table |
| Ranking.WhereTwice | src/smre/search.py:13-14 | applying two masks one after another keeps the rows that pass both |
| Ranking.ApplyFilters | src/smre/search.py:8-15 | the filter loop returns exactly the rows that meet the year condition and every stage condition, in order |
| Ranking.NoFiltersKeepAll | src/smre/search.py:8-15 | with no years and no stages the table comes back unchanged |
| Ranking.WhereIsSubsequence | src/smre/search.py:11-14 | a selection only removes rows and keeps the survivors' relative order |
| Ranking.WhereMembership | src/smre/search.py:11-14 | a row survives a mask iff it was in the table and passes the mask |
| Ranking.FilterProperties | src/smre/search.py:8-15 | the filtered table is an order-preserving subsequence; a row is in it iff it was in the input and satisfies the year condition and every stage condition |
| Ranking.BuildIdToRow | src/smre/search.py:49 | the dict has exactly the corpus identifiers as keys, each mapped to its last row position |
| Ranking.IdMapRows | src/smre/search.py:49 | every row position in the dict is inside the corpus |
| Ranking.LastIndex | src/smre/search.py:49 | the position returned holds the identifier and no later position does |
| Ranking.IdMapOf | src/smre/search.py:49 | the value-level dict satisfies the id-map property |
| Ranking.IdMapUnique | src/smre/search.py:49 | the id-map property fixes the dict: any dict with it equals the reference |
| Ranking.Applied | src/smre/search.py:50 | the scattered vector has one slot per corpus row |
| Ranking.SlotValueLast | src/smre/search.py:52 | a slot holds the value of the last write to it |
| Ranking.SlotValueUntouched | src/smre/search.py:50 | a slot that no write names keeps the zero of `np.zeros` |
| Ranking.AlignedSlot | src/smre/search.py:49-65 | the row holding an identifier's last occurrence gets the value of the last iteration that names that identifier; every other row stays 0 |
| Ranking.ScatterBm25 | src/smre/search.py:50-52 | succeeds iff every BM25 identifier is in the corpus and has a score; then the vector is the ordered scatter of the scores; otherwise the first failing iteration's error (IndexError or KeyError) |
| Ranking.ScatterEmbed | src/smre/search.py:61-65 | negative neighbour positions are skipped; succeeds iff every other position names a stored identifier that is in the corpus and has a distance; then the vector is the ordered scatter of the distances; otherwise the first failing rank's error |
| Ranking.MaxOf | src/smre/search.py:70 | the maximum is an element and bounds every element |
| Ranking.Scale | src/smre/search.py:70 | scaling keeps the vector's length |
| Ranking.Fuse | src/smre/search.py:68-70 | the fused vector has one score per row |
| Ranking.ScaleBounds | src/smre/search.py:70 | for non-negative scores every scaled entry is in [0,1]; with a positive maximum the maximal entries become 1; with maximum 0 everything stays 0 |
| Ranking.ScaleNegativeMax | src/smre/search.py:70 | a negative maximum is used as the divisor as-is, and every scaled entry is then at least 1 |
| Ranking.FuseBounds | src/smre/search.py:68-70 | for non-negative weights and scores each fused score is in [0, a+b] |
| Ranking.InsertProperties | src/smre/search.py:76 | inserting into a descending list keeps it descending and adds exactly that row |
| Ranking.SortDescProperties | src/smre/search.py:76 | the sort yields a descending permutation of its input |
| Ranking.TopKProperties | src/smre/search.py:76 | the head is descending and drawn from the candidates; it has min(k, n) rows for k >= 0; no candidate left out scores above a kept one |
| Ranking.PrefixDominates | src/smre/search.py:76 | in a descending list every row after the cut scores no higher than any row before it |
| Ranking.FusedScores | src/smre/search.py:49-70 | the fused score vector of the local branch has one score per corpus row |
| Ranking.HybridLocal | src/smre/search.py:28-77 | succeeds iff both scatters succeed on a non-empty corpus; then the result is the top k of the filtered rows by fused score; EmptyReduction exactly when only the max reduction fails |
| Ranking.LocalResultProperties | src/smre/search.py:72-77 | the local result has at most k rows, is sorted descending and satisfies the filters, and is empty when the filters remove every row |
| Ranking.HybridRemote | src/smre/search.py:32-37 | the backend is asked for 2k hits; an empty hit list with any filter is a KeyError; otherwise the first k filtered hits in backend order |
| Ranking.RemoteResultProperties | src/smre/search.py:32-37 | the remote result has at most k rows, each a backend hit that satisfies the filters, in backend order |
| Frames.FieldText | scripts/convert_slam_pbp_to_moments.py:104-119 | a field read with `str(...).strip()` has no surrounding whitespace |
| Frames.FirstCaseless | scripts/convert_slam_pbp_to_moments.py:25-26 | the case-insensitive scan returns a column equal to the name up to case, and None iff there is none |
| Frames.FirstCaselessIsFirst | scripts/convert_slam_pbp_to_moments.py:25-26 | the column returned is the first one in column order that matches up to case |
| Frames.PickProperties | scripts/convert_slam_pbp_to_moments.py:21-27 | None iff no candidate matches; otherwise the result belongs to the first matching candidate: the exact column when present, else the first column equal up to case |
| Frames.PickIsColumn | scripts/convert_slam_pbp_to_moments.py:21-27 | a picked name is always a column of the table |
| Frames.Clean | scripts/convert_slam_pbp_to_moments.py:141 | the cleaned text is ASCII alphanumeric and no longer than the width |
| Frames.KeepAlnumMembers | scripts/convert_slam_pbp_to_moments.py:141 | a character survives the substitution iff it is in the text and alphanumeric |
| Frames.KeepAlnumOfAlnum | scripts/convert_slam_pbp_to_moments.py:141 | an already alphanumeric text is unchanged |
| Frames.CleanProperties | scripts/convert_slam_pbp_to_moments.py:141 | cleaned characters come from the input and are alphanumeric; no "_"; cleaning is idempotent and keeps short alphanumeric text |
| Frames.ShortRoundLabelsAreNotCodes | scripts/convert_slam_pbp_to_moments.py:64-65 | no label of the round table is itself a code, and only the code "F" maps to a label reading "final" |
| Frames.NormalizeRoundProperties | scripts/convert_slam_pbp_to_moments.py:61-66 | the normalised round is stripped and idempotent, and reads "final" iff the stripped input is "F" or already reads "final" |
| Frames.JoinIdHead | scripts/convert_slam_pbp_to_moments.py:142 | an identifier opens with its prefix and "_" |
| Frames.JoinIdDistinct | scripts/convert_slam_pbp_to_moments.py:142 | identifiers built for different row numbers differ, whatever the cleaned parts are |
| Sackmann.ExpectedDistinct | scripts/convert_sackmann_to_moments.py:56-58 | the expected input columns are pairwise distinct |
| Sackmann.HasExpectedMeansAll | scripts/convert_sackmann_to_moments.py:56-58 | a row has the expected columns iff each of the seven is present |
| Sackmann.ParseYear | scripts/convert_sackmann_to_moments.py:60-68 | a parsed year has at most four digits, and a missing value gives None |
| Sackmann.ParseYearRoundTrip | scripts/convert_sackmann_to_moments.py:60-68 | leading whitespace, then any four digits (leading zeros included), then any tail, parse back to the number those four digits spell |
| Sackmann.ParseYearNeedsFourDigits | scripts/convert_sackmann_to_moments.py:64-68 | text whose stripped start is not four digits gives None |
| Sackmann.HasTiebreakProperties | scripts/convert_sackmann_to_moments.py:70-74 | the check ignores case, fires on "7-6", and is false for missing or non-text values |
| Sackmann.RoundHuman | scripts/convert_sackmann_to_moments.py:76-100 | the human round label is never empty |
| Sackmann.RoundHumanFinal | scripts/convert_sackmann_to_moments.py:76-100 | the label reads "final" iff the stripped, upper-cased code is "F" or "FINAL" |
| Sackmann.RoundHumanCodes | scripts/convert_sackmann_to_moments.py:88-100 | the codes SF and qf give Semi-final and Quarter-final, whatever their case |
| Sackmann.RoundHumanQualifying | scripts/convert_sackmann_to_moments.py:88-100 | Q2 gives Qualifying 2 and a missing value gives Unknown |
| Sackmann.ChampionshipTag | scripts/convert_sackmann_to_moments.py:102-103 | the tag is "championship point" iff the label lowercases to "final", else "" |
| Sackmann.SafeStr | scripts/convert_sackmann_to_moments.py:105-106 | a missing value gives "", text is kept |
| Sackmann.CommentaryFields | scripts/convert_sackmann_to_moments.py:108-113 | the winner is the name as read, or "Unknown Winner" when the field is empty or missing; winner, loser and tournament are never empty |
| Sackmann.TitleTail | scripts/convert_sackmann_to_moments.py:115 | the final wording opens with " strikes the final winning point" and ends with "." |
| Sackmann.MatchTail | scripts/convert_sackmann_to_moments.py:117 | the other wording opens with " converts match point against " and ends with "." |
| Sackmann.CommentaryTextProperties | scripts/convert_sackmann_to_moments.py:114-117 | the title wording is used iff the round reads "final", the match-point wording iff it does not; the sentence opens with the winner and ends with "." |
| Sackmann.SummaryFields | scripts/convert_sackmann_to_moments.py:119-123 | the winner is the name as read, or "Winner" when the field is empty or missing; winner, loser and tournament are never empty |
| Sackmann.FinalSummaryTail | scripts/convert_sackmann_to_moments.py:125 | the final summary opens with " wins " and ends with "." |
| Sackmann.OtherSummaryTail | scripts/convert_sackmann_to_moments.py:127 | the other summary opens with " defeats " and ends with "." |
| Sackmann.SummaryTextProperties | scripts/convert_sackmann_to_moments.py:124-127 | the sentence opens with the winner and a space; "wins … Final" iff the round reads "final", "defeats" otherwise; it ends with "." |
| Sackmann.MissingColsMembers | scripts/convert_sackmann_to_moments.py:134-136 | a column is added iff it is expected and absent |
| Sackmann.ConvertColumn | scripts/convert_sackmann_to_moments.py:139-140 | the string conversion keeps the column's length |
| Sackmann.FillColumn | scripts/convert_sackmann_to_moments.py:142 | filling keeps the column's length |
| Sackmann.NaNColumn | scripts/convert_sackmann_to_moments.py:136 | an added column has one cell per row |
| Sackmann.BlankColumn | scripts/convert_sackmann_to_moments.py:134-142 | an added, converted and filled column has one cell per row |
| Sackmann.NormalizedColumnProperties | scripts/convert_sackmann_to_moments.py:134-142 | after normalisation every cell of an expected column is text; text cells are kept and missing cells become "" |
| Sackmann.AddStep | scripts/convert_sackmann_to_moments.py:134-136 | one iteration of the add-missing loop keeps the table rectangular and extends the added list by the column iff it was absent |
| Sackmann.FillExpectedShape | scripts/convert_sackmann_to_moments.py:142 | `fillna` on the expected columns keeps the table's columns and height |
| Sackmann.NormalizeOne | scripts/convert_sackmann_to_moments.py:134-142 | add, convert and fill give the normalised column, for present and absent columns alike |
| Sackmann.NormalizeOutcome | scripts/convert_sackmann_to_moments.py:129-143 | the three passes together give the missing columns appended, each expected column normalised, and every other column unchanged |
| Sackmann.Frame.NormalizeInput | scripts/convert_sackmann_to_moments.py:129-143 | in place: the height is kept, the missing expected columns are appended in order, each expected column becomes its normalised form, and every other column is untouched; every row then carries every expected label |
| Sackmann.Frame.RowsHaveExpected | scripts/convert_sackmann_to_moments.py:129-143 | a table holding every expected column gives rows that carry every expected label, which the conversion loop asks of its rows |
| Sackmann.Frame.AddMissingColumns | scripts/convert_sackmann_to_moments.py:134-136 | in place: the absent expected columns are appended, filled with missing values; the existing columns are unchanged |
| Sackmann.Frame.ConvertToString | scripts/convert_sackmann_to_moments.py:139-140 | in place: each expected column is converted to strings and the other columns are unchanged |
| Sackmann.SackmannTagsProperties | scripts/convert_sackmann_to_moments.py:192-199 | the tags always end with "match point"; each conditional tag is present iff its condition holds; the fixed order is kept |
| Sackmann.SackmannMomentProperties | scripts/convert_sackmann_to_moments.py:177-222 | the output year is "" iff `parse_year` gives None; the point is "Match Point"; the id opens with "m_" |
| Sackmann.ConvertSackmann | scripts/convert_sackmann_to_moments.py:174-222 | one moment per row of the concatenated table, each the row's conversion, with pairwise distinct ids |
| SlamPbp.Coalesce | scripts/convert_slam_pbp_to_moments.py:29-33 | the coalesced text has no surrounding whitespace |
| SlamPbp.CoalesceProperties | scripts/convert_slam_pbp_to_moments.py:29-33 | "" iff no key is present, non-missing and non-blank; otherwise the stripped text of the first such key |
| SlamPbp.CollectLead | scripts/convert_slam_pbp_to_moments.py:36-46 | appending the serve clause and then extending the last clause in place with `bits[-1] +=` gives the lead clause: serve clause plus "; outcome", the outcome alone, or nothing |
| SlamPbp.BuildCommentary | scripts/convert_slam_pbp_to_moments.py:35-54 | the list building followed by the join, context, full stop, notes and strip gives the reference sentence |
| SlamPbp.CommentaryEnding | scripts/convert_slam_pbp_to_moments.py:51-54 | the sentence ends with "." followed by the notes trail, if any |
| SlamPbp.CommentaryOpening | scripts/convert_slam_pbp_to_moments.py:37-46 | with a server, the sentence opens with the serve clause and "; outcome"; with no server, it opens with the outcome alone |
| SlamPbp.ClausesProperties | scripts/convert_slam_pbp_to_moments.py:36-53 | there is one clause each for a server or outcome, a rally and a score, and a returner alone gives none; no clause is empty, so the join's `if b` filter keeps them all |
| SlamPbp.SlamSummaryProperties | scripts/convert_slam_pbp_to_moments.py:56-59 | the summary ends " in the Final." iff the round lowercases to "final"; it opens with the player, or "Player" |
| SlamPbp.PointLabelProperties | scripts/convert_slam_pbp_to_moments.py:126-128 | the label is "Tie-break Point <score>" iff the score contains "tb" in any case or "tie"; otherwise "Point" |
| SlamPbp.CollectSlamTags | scripts/convert_slam_pbp_to_moments.py:130-138 | the conditional appends give the flagged tags in vocabulary order |
| SlamPbp.SlamTagsProperties | scripts/convert_slam_pbp_to_moments.py:130-138 | each tag is present iff its substring test on the lower-cased outcome holds; order ace, double fault, winner, break point |
| SlamPbp.SlamMomentYearAndId | scripts/convert_slam_pbp_to_moments.py:140-148 | the year is at most four characters and a prefix of the year field; the id opens with "pbp_" |
| SlamPbp.SlamMomentFinal | scripts/convert_slam_pbp_to_moments.py:104-123 | the summary names the Final iff the stripped round field is "F" or reads "final" |
| SlamPbp.ConvertSlamRow | scripts/convert_slam_pbp_to_moments.py:104-161 | the loop body, reading the fields and building commentary and tags with the list-appending helpers, gives that row's moment |
| SlamPbp.ConvertSlamRows | scripts/convert_slam_pbp_to_moments.py:103-161 | one moment per row, each that row's moment at its position, with pairwise distinct ids |
| SlamPbp.ConvertSlamTable | scripts/convert_slam_pbp_to_moments.py:103-161 | one moment per row of a table, each that row's conversion, with pairwise distinct ids |
| MatchCharting.McpOutcomeProperties | scripts/convert_matchcharting_to_moments.py:109-113 | the clean-winner phrase iff the winner field is one of 1/true/yes/winner; otherwise "point ends on <err>" for a non-empty error; empty iff neither |
| MatchCharting.BuildMcpCommentary | scripts/convert_matchcharting_to_moments.py:100-116 | the appends and join give the reference commentary |
| MatchCharting.SideShotNonEmpty | scripts/convert_matchcharting_to_moments.py:103-104 | the side/shot clause is never blank when either field is non-empty |
| MatchCharting.McpCommentaryProperties | scripts/convert_matchcharting_to_moments.py:100-116 | there are no bits iff every field is empty, and then the text is "Rally recorded."; otherwise the bits joined by ", " plus "." |
| MatchCharting.McpSummaryProperties | scripts/convert_matchcharting_to_moments.py:117 | "Point won by server." iff the server equals the first-row player1 name |
| MatchCharting.CollectMcpTags | scripts/convert_matchcharting_to_moments.py:120-126 | the conditional appends give the flagged tags in vocabulary order |
| MatchCharting.McpTagsProperties | scripts/convert_matchcharting_to_moments.py:120-126 | each of the six tags is present iff its substring test holds; order is kept; a clean winner always tags "winner" |
| MatchCharting.FirstRowMeta | scripts/convert_matchcharting_to_moments.py:77-83 | reading the first row fails (IndexError) iff the table is empty and some metadata column was picked |
| MatchCharting.PointCellProperties | scripts/convert_matchcharting_to_moments.py:138 | an empty point cell becomes "Point", any other value is kept (a missing value stays missing) |
| MatchCharting.McpMomentShares | scripts/convert_matchcharting_to_moments.py:128-142 | every row's moment takes tournament, year (its first four characters), round, surface and both players from the first row |
| MatchCharting.ConvertMcpRow | scripts/convert_matchcharting_to_moments.py:86-146 | the loop body, with commentary and tags built by the list-appending helpers, gives that row's moment |
| MatchCharting.ConvertMcpRows | scripts/convert_matchcharting_to_moments.py:85-146 | one moment per row, each that row's moment at its position, with pairwise distinct ids |
| MatchCharting.ConvertMcpTable | scripts/convert_matchcharting_to_moments.py:77-146 | fails iff the first-row read fails; otherwise one moment per row, all with the first row's tournament, year, round, surface and players, with pairwise distinct ids |
| Kaggle.KaggleRoundProperties | scripts/convert_kaggle_atp_wta_to_moments.py:36-39 | on text it equals the point-level round mapping; None gives "" and a missing value "nan"; it reads "final" iff the stripped text is "F" or "final" |
| Kaggle.KaggleYear | scripts/convert_kaggle_atp_wta_to_moments.py:41-47 | "" or the four leading digits of the value's text |
| Kaggle.KaggleYearRoundTrip | scripts/convert_kaggle_atp_wta_to_moments.py:41-47 | a value opening with any four digits (leading zeros included), such as YYYY or YYYYMMDD, gives those four digits back |
| Kaggle.KaggleYearAgreesWithSackmann | scripts/convert_kaggle_atp_wta_to_moments.py:41-47 | wherever this converter finds a year, the ATP converter's `parse_year` reads the same number |
| Kaggle.FinalCommentaryTail | scripts/convert_kaggle_atp_wta_to_moments.py:94 | the final's commentary continues " secures the final point" after the winner and ends with "." |
| Kaggle.OtherCommentaryTail | scripts/convert_kaggle_atp_wta_to_moments.py:98 | any other round's commentary continues " converts match point against " and ends with "." |
| Kaggle.KaggleSentenceProperties | scripts/convert_kaggle_atp_wta_to_moments.py:93-99 | both sentences open with the winner, or "Winner" when the name is empty, followed by a space, and end with "."; the commentary says "secures the final point" exactly in a final and "converts match point against" exactly otherwise; the summary says "wins" exactly in a final and "defeats" exactly otherwise |
| Kaggle.KaggleTagsProperties | scripts/convert_kaggle_atp_wta_to_moments.py:93-100 | the tags end with "match point" and start with "championship point" iff the round is non-empty and reads "final" |
| Kaggle.KaggleMomentProperties | scripts/convert_kaggle_atp_wta_to_moments.py:80-119 | player columns keep the raw names, even when empty; the year is "" or four digits; the id opens with "kgl_" |
| Kaggle.ConvertKaggleTable | scripts/convert_kaggle_atp_wta_to_moments.py:80-119 | one moment per row of a table, each that row's conversion, with pairwise distinct ids |

## Left out

- Text is modelled as ASCII. Unicode case mapping and whitespace classes beyond ASCII are not modelled, for `lower`, `upper`, `strip`, `title`, `isdigit`, `\b` and `\w`.
- Scores are real numbers. Float64/float32 rounding, NaN propagation and `float()` conversion of the distances are not modelled.
- Ranking.HybridLocal: the result is stated as the head of a stable insertion sort (Ranking.SortDesc). `sort_values` (`src/smre/search.py:76`) uses an unstable quicksort, so the model fixes one of the orders pandas may give tied rows, and with it which tied rows survive the cut at k. Ranking.TopKProperties and Ranking.LocalResultProperties state only what holds for every order: descending, drawn from the candidates, nothing better left out.
- Corpus `round` and `point` cells are modelled as text, with a blank cell as "". After `read_csv` (`src/smre/search.py:40`) a blank cell is NaN instead. `str.contains` then gives NaN, and a NaN on the left of `|` drops the row even when the other column matches. A column that is blank throughout is read as floats, and `.str` raises an error. Neither behaviour is modelled.
- The index libraries are not part of this model, and their outputs are inputs: BM25 scores, query tokenisation, the sentence embedding, the nearest-neighbour search and the id lists stored with each index.
- The Elasticsearch client call is a parameter: a function from query and size to hits.
- `normalize_query` is imported by the search module but defined nowhere. The normalised query is taken as an input.
- Configuration loading and reading the moments CSV are left out: the weights, k, the backend choice and the corpus are parameters.
- `df_f` in the local branch is computed and never used, so it is not modelled.
- The converters' plumbing is left out: argparse, globbing, CSV reading and writing, skipping unreadable files, `sys.exit` and printing.
- A table is a list of rows keyed by column name, and the row number `i` is taken to be the position. This matches the default index of `read_csv` and `concat(ignore_index=True)`.
- SlamPbp.ConvertSlamTable, MatchCharting.ConvertMcpTable and Kaggle.ConvertKaggleTable model one input file each. The scripts restart `i` for each file, so ids are proved distinct only within one file. Sackmann.ConvertSackmann numbers the concatenated table, so its ids are distinct across the whole output.
- Pandas dtypes are modelled as three kinds of cell: None, missing, and text standing for `str(value)`.
  - Numeric cells are covered only through their text form.
  - The nullable string dtype's `<NA>` is modelled as a missing value.
- The stage filter treats a stage token as a plain substring. `str.contains` reads it as a regular expression, which is the same for the three vocabulary words.
- `pick`, `clean` and `normalize_round` are copied into several scripts. Each is modelled once, in `Frames`, and the slam copy is cited.
- The slam `build_commentary` takes set, game and round arguments that it never reads; the model omits them.
- The Kaggle converter's own `normalize_round` is modelled separately (Kaggle.KaggleRound), because it differs from the copies in the other scripts: only None gives "".
- The following modules are not part of this model:
  - `scripts/prepare_data.py`;
  - `scripts/bulk_index_es.py`;
  - `src/smre/cli.py`, `src/smre/app.py`, `src/smre/moment_card.py` and `src/smre/config.py`;
  - `src/smre/embed.py`, `src/smre/index_bm25.py` and `src/smre/index_elastic.py`;
  - `build_local_indices`.
- The evaluation script's function bodies are not indented, so that file does not parse as written. Metrics models the bodies evidently intended.
