# Spotify recommender: profile, seeds, expansion and comparison

This project models the list and set logic of a small Spotify recommender,
in four parts.

- **Profile builder.** It takes the saved, top and recently played tracks.
  It weighs each row by its source, merges the artist table into the rows,
  and keeps one row per track: the heaviest. It then sums the weights into
  an artist counter and a genre counter. The profile holds the top 15
  artists, the top 20 genres, the first five of each as seeds, and three
  counts.
- **Seed selection.**
  - The history seeds are the ranked artist ids of the profile. When there
    are none, they fall back to the profile's seed ids.
  - The preference seeds are the artists that occur most often among the
    saved tracks.
  - When there are no preference seeds, the first history seeds are used.
- **Expander.**
  - For every seed it collects the artist's top tracks. It then collects the
    top tracks of those of its first `RELATED_PER_SEED` related artists that
    are not yet in `used_artists`, one set shared by all seeds.
  - It stops after the first seed that brings the rows to twice the target.
  - It then drops duplicate track ids and tracks the user owns, sorts seed
    tracks first and then by falling popularity, and cuts the list to the
    target.
- **Comparison engine.** It compares the history list with the preference
  list.
  - It flags every row with catalogue membership and its artist's joined
    genres.
  - It computes each list's diversity metrics: counts and top-5 rankings.
  - It measures the overlap of the two lists, the new-to-user counts and the
    ratios.

Each source file is one Dafny module, plus three modules of shared helpers:

| file | module | contents |
|---|---|---|
| `collections.dfy` | `Collections` | `Option`, `Take` (`s[:n]`), `Distinct` (dict key order), `Occurrences`, subsequences |
| `text.dfy` | `Text` | Python's `strip`, `split(',')`, `", ".join`, the `nan` test, string ordering, and the genre-list parser with its round trip |
| `ranking.dfy` | `Ranking` | a stable insertion sort, `collections.Counter` as insertion-ordered keys plus a map, and `most_common` |
| `build_catalog.dfy` | `BuildCatalog` | the profile builder |
| `make_recs.dfy` | `MakeRecs` | seed selection and the expander |
| `compare_recs.dfy` | `CompareRecs` | the comparison engine |

Modelling choices:

- **Weights** are exact integers in tenths: 1.0 is 10, 2.2 is 22.
- **Ordering.**
  - A pandas sort on `track_id` is modelled as Python's ordering of strings
    by code point (`StrLess`).
  - When two rows of one track have the same weight, the catalogue keeps
    the first in saved, then top, then recent order.
- **Imperative code is written as methods with loops, proved against
  functions.** These are `AccumulateScores`, `PickFromProfile`,
  `DedupRows`, `GenForSeeds` (the nested seed and related loops with the
  shared used set and the early `break`), `GenresMap` and
  `DiversityMetrics`. Each one ensures that its result equals a
  specification function. Lemmas then state the properties of that
  function.
- **Missing data.**
  - A missing CSV cell or JSON key is `None`.
  - The two catalogue calls (top tracks and related artists) are function
    parameters of a `Provider`. A failed call is an empty answer.

Behaviour of the code worth noting:

- The artist counter is keyed by the pair of artist id and artist name
  (`src/build_catalog.py:122-124`).
- The related ids are cut to `RELATED_PER_SEED` before the already-used
  ones are skipped, so a seed may expand fewer than that many new artists
  (`src/make_recs.py:180-186`).
- Without any listening rows the builder returns without a catalogue or a
  profile (`src/build_catalog.py:65-68`).
- The comparison's genre parser drops `nan` tokens; the builder's
  `split_genres` does not (`src/build_catalog.py:110-113`).

## Model

| member | source | states |
|---|---|---|
| `Collections.Take` | src/make_recs.py:89 | `s[:n]` has length `min(n, len(s))` and is a prefix of `s` |
| `Collections.Distinct` | src/build_catalog.py:141 | the distinct values of a column, without repetitions |
| `Collections.DistinctWithin` | src/build_catalog.py:141 | every distinct value comes from the column |
| `Collections.DistinctCovers` | src/build_catalog.py:141 | every value of the column is among the distinct values |
| `Collections.DistinctNoLonger` | src/compare_recs.py:72 | a list has no more distinct values than elements |
| `Collections.OccurrencesAppend` | src/make_recs.py:97 | counting occurrences distributes over concatenation |
| `Collections.OccurrencesIndex` | src/make_recs.py:97 | an element that is counted occurs at some position |
| `Collections.OccurrencesPositive` | src/make_recs.py:97 | an element at some position is counted at least once |
| `Collections.SubseqMembers` | src/make_recs.py:142-150 | every element of a subsequence occurs in the sequence |
| `Collections.SubseqFrom` | src/make_recs.py:142-150 | gives the position in the sequence of each element of a subsequence |
| `Collections.PermutationKeepsDistinctImages` | src/make_recs.py:203 | reordering a list whose track ids are distinct keeps them distinct |
| `Text.IsSpace` | src/make_recs.py:84 | the characters Python's `str.isspace()` accepts, which `strip()` removes; `StripEnds` and `StripBlank` are stated with it |
| `Text.TrimLeft` | src/make_recs.py:84 | `lstrip()`: a suffix of the input, everything cut is white space, and it does not start with white space |
| `Text.TrimRight` | src/make_recs.py:84 | `rstrip()`: a prefix of the input, everything cut is white space, and it does not end with white space |
| `Text.Strip` | src/make_recs.py:84 | Python's `str.strip()`; `StripEnds`, `StripAvoids` and `StripBlank` state what it leaves |
| `Text.StripEnds` | src/make_recs.py:84 | `strip()` leaves no white space at either end |
| `Text.StripAvoids` | src/compare_recs.py:50 | stripping adds no character, so a stripped piece of a comma split holds no comma |
| `Text.StripBlank` | src/make_recs.py:85 | the stripped string is empty exactly when the input is all white space |
| `Text.StripAll` | src/compare_recs.py:50 | strips every piece, one result per piece, in order |
| `Text.Split` | src/compare_recs.py:50 | `split(',')` gives at least one piece, and no piece holds the separator |
| `Text.JoinSplit` | src/compare_recs.py:66 | joining the pieces of a split with the separator gives back the string |
| `Text.Join` | src/compare_recs.py:66 | `", ".join(...)`; `JoinSplit`, `CleanTokensOfJoin` and `JoinNonEmpty` state what reading it back gives |
| `Text.IsNan` | src/compare_recs.py:51 | `t.lower() == "nan"`: exactly three letters spelling `nan` in any case |
| `Text.CleanTokens` | src/compare_recs.py:50-51 | every kept piece is stripped and non-blank, and is not `nan` in any letter case when that filter is on; `CleanTokensSnoc`, `CleanTokensSubseq` and `CleanTokensCovers` state which pieces are kept |
| `Text.CleanTokensSnoc` | src/compare_recs.py:50-51 | one more piece appends its stripped form exactly when that is non-blank, and not `nan` when filtered; with the empty list giving none, this fixes the whole result |
| `Text.CleanTokensSubseq` | src/compare_recs.py:50-51 | the kept tokens are stripped pieces, in the order of the pieces |
| `Text.CleanTokensCovers` | src/compare_recs.py:50-51 | no piece is lost whose stripped form is non-blank, and not `nan` when filtered |
| `Text.ParseList` | src/compare_recs.py:47-51 | a blank cell gives no genres; every parsed genre is a stripped, non-blank token without a comma, not `nan` when filtered; `ParseListPieces` states which pieces are kept |
| `Text.SplitBlank` | src/build_catalog.py:111-113 | every comma piece of an all-white-space cell is all white space |
| `Text.ParseListPieces` | src/compare_recs.py:47-51 | the parsed list is the cell's stripped comma pieces in order, with every piece kept that strips to a non-blank token, and not to `nan` when filtered |
| `Text.CleanTokensOfJoin` | src/compare_recs.py:66-78 | re-splitting a `", "`-join of clean genres gives back exactly those genres |
| `Text.StrLess` | src/build_catalog.py:102 | Python's `<` on strings, by code point; `StrLessIrreflexive`, `StrLessTransitive` and `StrLessTotal` make it a strict total order |
| `Text.StrLessIrreflexive` | src/build_catalog.py:102 | the string order used by the sort is irreflexive |
| `Text.StrLessTransitive` | src/build_catalog.py:102 | the string order is transitive |
| `Text.StrLessTotal` | src/build_catalog.py:102 | the string order is total and asymmetric |
| `Ranking.Insert` | src/make_recs.py:203 | inserting into a list keeps its elements as a multiset |
| `Ranking.InsertSorted` | src/make_recs.py:203 | inserting into a sorted list keeps it sorted |
| `Ranking.InsertBound` | src/make_recs.py:203 | inserting an element no smaller than a bound keeps every element no smaller than it |
| `Ranking.SortBy` | src/make_recs.py:199-203 | `sorted(rows, key=...)` is a permutation of its input, ordered by key |
| `Ranking.SortByStable` | src/make_recs.py:203 | the sort is stable: rows with equal keys keep their input order |
| `Ranking.SortByMembers` | src/make_recs.py:203 | the sort keeps the length and the rows as a multiset |
| `Ranking.Add` | src/build_catalog.py:124 | `c[k] += w` on a `Counter`: a new key goes to the end of the key order; `TallySpec` states the result of a run |
| `Ranking.Tally` | src/build_catalog.py:116-126 | the counter a run of `+=` steps builds from an empty `Counter()`; `TallySpec` states it |
| `Ranking.TallySpec` | src/build_catalog.py:116-126 | `c[k] += w` over a run: keys in order of first appearance, each value the sum of its weights, absent keys summing to 0 |
| `Ranking.CountOf` | src/make_recs.py:97 | `Counter(xs)`; `CountOfSpec`, `CountOfAbsent` and `CountOfPositive` state it |
| `Ranking.CountOfSpec` | src/make_recs.py:97 | `Counter(xs)`: keys are the distinct elements in first-appearance order, values their occurrence counts |
| `Ranking.CountOfAbsent` | src/make_recs.py:97 | an element missing from the counter does not occur in the list |
| `Ranking.CountOfPositive` | src/make_recs.py:97 | every key of the counter occurs in the list |
| `Ranking.Items` | src/build_catalog.py:129 | the counter's items in key insertion order, each key with its own value |
| `Ranking.ByCount` | src/build_catalog.py:129 | the sort key of `most_common`: larger values first; `RankedSorted` and `RankedTies` state the order it gives |
| `Ranking.Ranked` | src/build_catalog.py:129 | all items by falling value, ties in insertion order; `RankedMembers`, `RankedValues`, `RankedPosition`, `RankedDistinct`, `RankedSorted` and `RankedTies` state it |
| `Ranking.RankedMembers` | src/build_catalog.py:129 | the sorted items are the counter's items, reordered |
| `Ranking.RankedValues` | src/build_catalog.py:129 | every sorted item is a key with its own value |
| `Ranking.RankedPosition` | src/build_catalog.py:129 | every key appears with its value somewhere in the sorted items |
| `Ranking.RankedDistinct` | src/build_catalog.py:129 | the sorted items have distinct keys |
| `Ranking.RankedSorted` | src/build_catalog.py:129 | the sorted items have non-increasing values |
| `Ranking.MostCommon` | src/build_catalog.py:128-130 | `most_common(n)`: `min(n, len)` distinct keys with their values, values non-increasing, no omitted key with a larger value |
| `Ranking.RankedTies` | src/make_recs.py:97-98 | equal counts stay in first-appearance order, and `most_common(n)` is a prefix of the full ranking |
| `Ranking.TopByScore` | src/compare_recs.py:79-82 | a counter whose values are a reference score ranks by that score: each entry carries it, and no key left out scores more |
| `Ranking.MostFrequent` | src/compare_recs.py:79-82 | `Counter(xs).most_common(n)`: at most `n` distinct elements with their occurrence counts, non-increasing, no omitted element more frequent |
| `BuildCatalog.SourceWeight` | src/build_catalog.py:50-63 | saved 1.0; top by time range 2.0, 1.6 or 1.3, else 1.5; recent 2.2; always between 1.0 and 2.2 |
| `BuildCatalog.EffectiveWeight` | src/build_catalog.py:120 | `weight or 1.0`: a zero weight counts as 1.0, any other weight as itself |
| `BuildCatalog.SourceWeightEffective` | src/build_catalog.py:120 | no source weight is zero, so `weight or 1.0` never replaces one |
| `BuildCatalog.Weigh` | src/build_catalog.py:49-63 | every row of a batch keeps its fields and gets its source and that source's weight |
| `BuildCatalog.FirstArtist` | src/build_catalog.py:79 | `drop_duplicates("artist_id")`: no row exactly when no artist row has the id, otherwise the first row that has it |
| `BuildCatalog.LeftJoin` | src/build_catalog.py:72-88 | the merge keeps every row in place; without an artist table each row gets empty genres, otherwise the row is joined with its first artist row |
| `BuildCatalog.JoinRow` | src/build_catalog.py:78-84 | one row of the left merge; `LeftJoin` and `LeftJoinKeepsRows` state its effect |
| `BuildCatalog.LeftJoinKeepsRows` | src/build_catalog.py:78-84 | a merged row differs only in genres and a missing artist name; a row without a matching artist has no genres |
| `BuildCatalog.Best` | src/build_catalog.py:101-103 | the row of one track that the sort and `drop_duplicates(keep="first")` keep; `BestSpec`, `BestAt`, `BestNone` and `BestPresent` state it |
| `BuildCatalog.BestSpec` | src/build_catalog.py:100-103 | the row kept for a track id exists exactly when the id occurs; it has maximal weight and is the first row of that weight |
| `BuildCatalog.BestAt` | src/build_catalog.py:101-103 | the kept row of a track sits at a position holding that id, weighs at least as much as every row of the id, and more than every earlier one |
| `BuildCatalog.BestNone` | src/build_catalog.py:101-103 | no row is kept for an id only when no row has it |
| `BuildCatalog.BestPresent` | src/build_catalog.py:101-103 | a row with the id guarantees a kept row for it |
| `BuildCatalog.InsertId` | src/build_catalog.py:102-103 | one id placed into the ascending list of distinct ids; `InsertIdSpec` states it |
| `BuildCatalog.InsertIdSpec` | src/build_catalog.py:102 | inserting an id into an ascending id list keeps it ascending and adds exactly that id |
| `BuildCatalog.SortedUnique` | src/build_catalog.py:102-103 | the distinct track ids in ascending order; `SortedUniqueSpec` states it |
| `BuildCatalog.SortedUniqueSpec` | src/build_catalog.py:102-103 | the catalogue's ids are ascending, so without repetitions, and are exactly the input ids |
| `BuildCatalog.Pick` | src/build_catalog.py:103 | the kept row of each listed id, in the list's order; `PickSpec` states it |
| `BuildCatalog.PickSpec` | src/build_catalog.py:103 | one kept row per listed id, each the heaviest row of its id |
| `BuildCatalog.Canonical` | src/build_catalog.py:101-103 | the sorted, deduplicated catalogue; `CanonicalSpec` and `CanonicalHeaviest` state it |
| `BuildCatalog.CanonicalSpec` | src/build_catalog.py:101-103 | the catalogue is ordered by strictly ascending track id, holds every input track id, and each row is the kept row of its id |
| `BuildCatalog.CanonicalHeaviest` | src/build_catalog.py:101-103 | each catalogue row is an input row no lighter than any row of its track, and strictly heavier than every earlier one |
| `BuildCatalog.SplitGenres` | src/build_catalog.py:110-113 | `split_genres`: a missing or blank cell gives no genres; every genre is a stripped, non-blank token; `SplitGenresPieces` states which pieces are kept |
| `BuildCatalog.SplitGenresPieces` | src/build_catalog.py:110-113 | a present cell gives its stripped comma pieces, in order, and loses no piece that strips to a non-blank token |
| `BuildCatalog.KeyOfRow` | src/build_catalog.py:121-124 | the artist counter's key `(a_id, a_nm)` of a row, a missing name kept as `None` (see "## Left out"); `ArtistCounterSpec` is stated with it |
| `BuildCatalog.ArtistPairs` | src/build_catalog.py:119-124 | the `artist_counter[(a_id, a_nm)] += w` steps of the row loop; `ArtistPairsSum` relates them to `ArtistScore` |
| `BuildCatalog.GenrePairs` | src/build_catalog.py:125-126 | the `genre_counter[g] += w` steps of the row loop; `GenrePairsSum` and `FirstsGenrePairs` state them |
| `BuildCatalog.TokenPairs` | src/build_catalog.py:125-126 | one `genre_counter[g] += w` step per token of a row, in token order, each with the row's weight |
| `BuildCatalog.ArtistScore` | src/build_catalog.py:119-124 | the reference artist score, a direct sum over the rows independent of the counter; `ArtistCounterSpec` proves the counter equal to it |
| `BuildCatalog.GenreScore` | src/build_catalog.py:119-126 | the reference genre score, each row's weight times the genre's occurrences in its tokens; `GenreCounterSpec` proves the counter equal to it |
| `BuildCatalog.ArtistPairsSum` | src/build_catalog.py:119-124 | the artist steps of a run sum to the reference artist score |
| `BuildCatalog.TokenPairsSum` | src/build_catalog.py:125-126 | a row adds its weight once per occurrence of a genre among its tokens |
| `BuildCatalog.GenrePairsSum` | src/build_catalog.py:119-126 | the genre steps of a run sum to the reference genre score |
| `BuildCatalog.AccumulateScores` | src/build_catalog.py:116-126 | the loop over the catalogue builds exactly the artist and genre counters of its rows |
| `BuildCatalog.AddGenres` | src/build_catalog.py:125-126 | the inner loop adds one step per genre token of a row |
| `BuildCatalog.ArtistCounterSpec` | src/build_catalog.py:119-124 | every artist key's value is the summed effective weight of its rows with a non-empty id; every other key scores 0 |
| `BuildCatalog.GenreCounterSpec` | src/build_catalog.py:119-126 | every genre's value is the summed weight of its occurrences; every other genre scores 0 |
| `BuildCatalog.SeedIds` | src/build_catalog.py:134 | the artist seeds are the ids of the first five ranked artists |
| `BuildCatalog.CatalogOf` | src/build_catalog.py:65-103 | the weighed batches concatenated, merged with the artists and reduced to one row per track; `CanonicalSpec` states the result |
| `BuildCatalog.ProfileOf` | src/build_catalog.py:115-144 | the profile of a catalogue; `ProfileArtists`, `ProfileGenres`, `ProfileGenreSeeds` and `ProfileCounts` state it |
| `BuildCatalog.BuildProfile` | src/build_catalog.py:65-144 | no result exactly when all three batches are empty; otherwise the catalogue of the merged, joined, reduced rows and its profile |
| `BuildCatalog.ProfileArtists` | src/build_catalog.py:128-134 | at most 15 artists, distinct, each with its summed weight, non-increasing, none omitted scoring more; seeds are the first five ids |
| `BuildCatalog.ProfileGenres` | src/build_catalog.py:130 | at most 20 genres, distinct, each with its summed weight, non-increasing, none omitted scoring more |
| `BuildCatalog.ProfileGenreSeeds` | src/build_catalog.py:135 | the genre seeds are the first five ranked genres |
| `BuildCatalog.ProfileCounts` | src/build_catalog.py:139-143 | tracks is the catalogue length, unique artists the number of distinct ids, unique genres the number of distinct genres |
| `BuildCatalog.FirstsGenrePairs` | src/build_catalog.py:125-126 | the genre keys of the steps are the catalogue's genres in order |
| `MakeRecs.IdText` | src/make_recs.py:84 | `item.get("artist_id") or ""` as text: a missing id is `""`; `StrippedIds` and `TidOf` use it |
| `MakeRecs.StrippedIds` | src/make_recs.py:84 | each ranked artist's id, or `""` when it has none, stripped |
| `MakeRecs.NonBlank` | src/make_recs.py:85-88 | `[x for x in xs if x]`; `NonBlankSubseq`, `NonBlankCovers`, `NonBlankEmpty` and `NonBlankFrom` state it |
| `MakeRecs.NonBlankSubseq` | src/make_recs.py:85-86 | the non-blank filter keeps entries in order, none of them blank |
| `MakeRecs.NonBlankCovers` | src/make_recs.py:85-86 | the non-blank filter drops no non-blank entry |
| `MakeRecs.NonBlankEmpty` | src/make_recs.py:87 | the filter is empty exactly when every entry is blank |
| `MakeRecs.NonBlankFrom` | src/make_recs.py:85-86 | every kept entry comes from some position of the input |
| `MakeRecs.ProfileIds` | src/make_recs.py:81-86 | the list the loop builds; `ProfileIdsTokens`, `ProfileIdsOrder`, `ProfileIdsEmpty` and `ProfileIdsSnoc` state it |
| `MakeRecs.ProfileIdsTokens` | src/make_recs.py:83-86 | every history id is a stripped, non-empty token |
| `MakeRecs.ProfileIdsOrder` | src/make_recs.py:83-86 | the history ids keep the profile's rank order and drop no usable id |
| `MakeRecs.ProfileIdsEmpty` | src/make_recs.py:87 | the ranked artists give no id exactly when every id is missing or blank |
| `MakeRecs.ProfileIdsSnoc` | src/make_recs.py:83-86 | one loop step appends the stripped id exactly when it is non-blank |
| `MakeRecs.CleanIds` | src/make_recs.py:88 | the fallback ids; `CleanIdsTokens` states them |
| `MakeRecs.CleanIdsTokens` | src/make_recs.py:88 | the fallback seed ids are stripped, non-empty tokens |
| `MakeRecs.HistoryCandidates` | src/make_recs.py:81-88 | the list before the cut to `n`; `PickFromProfile` and `HistorySeeds` state it |
| `MakeRecs.PickFromProfile` | src/make_recs.py:76-89 | the loop gives the first `n` of the usable ranked ids, or of the seed ids when there are none |
| `MakeRecs.HistorySeeds` | src/make_recs.py:76-89 | at most `n` history seeds, all tokens; they come from the ranked artists whenever any id there is usable |
| `MakeRecs.Present` | src/make_recs.py:97 | `dropna().astype(str)`: the present cells of the column, in order; `PickFromSavedRanked` and `PickFromSavedEmpty` are stated with it |
| `MakeRecs.PickFromSaved` | src/make_recs.py:91-98 | `pick_top_artists_from_saved`; `PickFromSavedRanked`, `PickFromSavedDominates`, `PickFromSavedEmpty` and `PickFromSavedTies` state it |
| `MakeRecs.PickFromSavedRanked` | src/make_recs.py:91-98 | at most `n` distinct saved artist ids, ordered by non-increasing occurrence count |
| `MakeRecs.PickFromSavedDominates` | src/make_recs.py:97-98 | no omitted artist occurs more often than a chosen one |
| `MakeRecs.PickFromSavedEmpty` | src/make_recs.py:95-98 | no preference seeds exactly when the column is absent, holds no id, or `n` is 0 |
| `MakeRecs.PickFromSavedTies` | src/make_recs.py:97-98 | equally frequent ids keep their first-appearance order, and the seeds are a prefix of the full ranking |
| `MakeRecs.PickSeeds` | src/make_recs.py:228-233 | when the saved tracks give no preference seeds, these are the first history seeds |
| `MakeRecs.TracksFromArtist` | src/make_recs.py:124-126 | at most `per_artist` tracks, a prefix of the artist's top tracks |
| `MakeRecs.AsRow` | src/make_recs.py:129-140 | the row copies the track's fields and its first artist, or has no artist when the track has none |
| `MakeRecs.Rows` | src/make_recs.py:174-175 | one row per track, in order |
| `MakeRecs.AppendRows` | src/make_recs.py:174-175 | the append loop extends the rows by exactly those rows |
| `MakeRecs.IdTexts` | src/make_recs.py:180 | each related artist's `a.get("id")` as text, a missing one as `""`, one per artist in order |
| `MakeRecs.PresentIds` | src/make_recs.py:180 | the related ids kept are non-empty; `PresentIdsOrder` and `PresentIdsEmpty` state which are kept |
| `MakeRecs.PresentIdsOrder` | src/make_recs.py:180 | the present ids keep the related artists' order, and no present, non-empty id is dropped |
| `MakeRecs.PresentIdsEmpty` | src/make_recs.py:180 | no present id exactly when every related artist lacks an id or has `""` |
| `MakeRecs.RelatedIds` | src/make_recs.py:180-181 | exactly `min(RELATED_PER_SEED, len)` ids, the first of the present related ids |
| `MakeRecs.TidOf` | src/make_recs.py:146 | `str(r.get("track_id") or "")`, the id both `dedup_rows` and `remove_owned` compare; `DedupShape` and `NotOwnedSpec` are stated with it |
| `MakeRecs.Dedup` | src/make_recs.py:142-150 | `dedup_rows`; `DedupRows`, `DedupShape`, `DedupCovers`, `DedupFirstAt` and `DedupFirst` state it |
| `MakeRecs.DedupRows` | src/make_recs.py:142-150 | the loop with its `seen` set computes the first row of each non-empty track id |
| `MakeRecs.DedupShape` | src/make_recs.py:142-150 | the deduplicated rows are a subsequence of the input with distinct, non-empty ids |
| `MakeRecs.DedupCovers` | src/make_recs.py:142-150 | every non-empty input id is kept |
| `MakeRecs.DedupFirstAt` | src/make_recs.py:145-149 | each kept row is the first input row that carries its id |
| `MakeRecs.DedupFirst` | src/make_recs.py:145-149 | all kept rows are first occurrences of their ids |
| `MakeRecs.NotOwned` | src/make_recs.py:156 | the comprehension that drops owned rows; `NotOwnedSpec` and `NotOwnedCovers` state it |
| `MakeRecs.NotOwnedSpec` | src/make_recs.py:155-156 | the kept rows are a subsequence of the input, none of them owned |
| `MakeRecs.NotOwnedCovers` | src/make_recs.py:156 | no row outside the catalogue is dropped |
| `MakeRecs.RemoveOwned` | src/make_recs.py:152-156 | `remove_owned`; `RemoveOwnedSpec` and `RemoveOwnedCovers` state it |
| `MakeRecs.RemoveOwnedSpec` | src/make_recs.py:152-156 | without a catalogue nothing changes; otherwise the owned rows are removed and the rest keep their order |
| `MakeRecs.RemoveOwnedCovers` | src/make_recs.py:156 | every row outside the catalogue is kept |
| `MakeRecs.SubseqKeepsDistinct` | src/make_recs.py:195-196 | removing owned rows keeps track ids distinct |
| `MakeRecs.SortedFrom` | src/make_recs.py:195-203 | every sorted row is a deduplicated row that survived the owned filter |
| `MakeRecs.Pop` | src/make_recs.py:201 | `r.get("popularity") or 0`: a missing popularity counts as 0; `FinalizeOrder` is stated with it |
| `MakeRecs.RecKey` | src/make_recs.py:199-202 | `sort_key`: tier 0 for seed tracks and 1 otherwise, then the negated popularity; `FinalizeOrder` and `FinalizeStable` state the order it gives |
| `MakeRecs.Finalize` | src/make_recs.py:194-206 | dedup, owned filter, sort and cut; `FinalizeDistinct`, `FinalizeFrom`, `FinalizeOrder` and `FinalizeStable` state it |
| `MakeRecs.FinalizeDistinct` | src/make_recs.py:194-206 | the final list has at most `TARGET_TRACKS` rows with distinct track ids |
| `MakeRecs.FinalizeFrom` | src/make_recs.py:194-206 | every final row was collected, has a non-empty id, and is not owned |
| `MakeRecs.FinalizeOrder` | src/make_recs.py:198-203 | seed tracks come before related tracks, and within a tier popularity does not increase |
| `MakeRecs.FinalizeStable` | src/make_recs.py:203-206 | rows with equal sort keys keep their collection order; the list is a prefix of the sorted rows and loses nothing when they fit |
| `MakeRecs.GenForSeeds` | src/make_recs.py:159-216 | the nested loops with the shared used set and the early stop give the finalised rows of the seed walk, and the metadata |
| `MakeRecs.Recommend` | src/make_recs.py:227-241 | both seed lists with the default limits, and one recommendation list for each |
| `MakeRecs.SeedLists` | src/make_recs.py:227-233 | the two seed lists of `main`; `SeedListsSpec` and `PickSeeds` state them |
| `MakeRecs.SeedListsSpec` | src/make_recs.py:228-233 | at most 12 seeds per list; the preference seeds are the saved ranking, or the first history seeds when it is empty |
| `MakeRecs.Visit` | src/make_recs.py:183-188 | one related id: skipped when used, otherwise marked used and its top tracks collected; `VisitAllTracked` and `VisitAllCovers` state the loop of them |
| `MakeRecs.VisitAll` | src/make_recs.py:183-188 | the loop over the related ids; `VisitAllTracked` and `VisitAllCovers` state it |
| `MakeRecs.VisitAllTracked` | src/make_recs.py:183-188 | the used set remains exactly the set of expanded artists, each expanded once, and only listed ids are expanded |
| `MakeRecs.VisitAllCovers` | src/make_recs.py:183-186 | after the related loop every listed id is in `used_artists`, and no id has left it |
| `MakeRecs.SeedStep` | src/make_recs.py:173-188 | one seed of the loop; `SeedStepTracked` and `SeedStepCovers` state it |
| `MakeRecs.SeedStepTracked` | src/make_recs.py:173-188 | one seed keeps that invariant and expands only its own related ids, none when expansion is off |
| `MakeRecs.SeedStepCovers` | src/make_recs.py:178-186 | after one seed every one of its related ids is used when `RELATED_PER_SEED > 0`, and no id has left the set |
| `MakeRecs.Collect` | src/make_recs.py:170-192 | the seed loop with its early stop; `CollectExpansions`, `EarlyStop`, `NoEarlyStop` and `GenForSeeds` state it |
| `MakeRecs.CollectExpansions` | src/make_recs.py:170-192 | over the whole seed loop, each artist is expanded at most once, and only related ids of some seed |
| `MakeRecs.ExpansionsFromStart` | src/make_recs.py:166-192 | from an empty used set, every expanded artist is a related id of some seed, and nothing is expanded when `RELATED_PER_SEED` is 0 |
| `MakeRecs.EarlyStop` | src/make_recs.py:190-192 | the loop ends with the first seed that brings the rows to twice the target |
| `MakeRecs.NoEarlyStop` | src/make_recs.py:170-192 | without that seed, the loop visits every seed |
| `CompareRecs.CellText` | src/compare_recs.py:63-64 | `astype(str)` of a cell: a missing cell is `nan`; `AttachFlags` and `GenreMapKeys` are stated with it |
| `CompareRecs.ParseGenres` | src/compare_recs.py:46-51 | a missing or blank cell gives no genres; every genre is a stripped, non-blank token without a comma and not `nan`; `ParseGenresPieces` states which pieces are kept |
| `CompareRecs.ParseGenresPieces` | src/compare_recs.py:46-51 | a present cell gives its stripped comma pieces, in order, and loses no piece that strips to a non-blank token other than `nan` |
| `CompareRecs.MapBy` | src/compare_recs.py:44-52 | a dictionary filled row by row, a later row overwriting; `GenreMapKeys` and `GenreMapLastAt` state it |
| `CompareRecs.GenreMapOf` | src/compare_recs.py:37-53 | the map `genres_map_from_artists` returns; `GenreMapSpec`, `GenreMapClean` and `GenresMap` state it |
| `CompareRecs.GenresMap` | src/compare_recs.py:37-53 | the loop builds the genre map of the artist rows |
| `CompareRecs.GenreMapSpec` | src/compare_recs.py:44-52 | one entry per artist id of the table, holding the genres of that id's last row |
| `CompareRecs.GenreMapKeys` | src/compare_recs.py:44-52 | the keys of a dictionary filled row by row are exactly the rows' ids |
| `CompareRecs.GenreMapLastAt` | src/compare_recs.py:44-52 | the value held for an id comes from the last row that carries it |
| `CompareRecs.GenreMapClean` | src/compare_recs.py:47-52 | every genre in the map is clean |
| `CompareRecs.Owned` | src/compare_recs.py:101-103 | `seen_ids`, the catalogue's present track ids; `AttachFlags` states `in_catalog` in terms of it |
| `CompareRecs.Lookup` | src/compare_recs.py:66 | `gmap.get(a, [])`; `AttachFlags` and `FlagGenres` state it |
| `CompareRecs.Flag` | src/compare_recs.py:61-66 | one flagged row; `AttachFlags` states it |
| `CompareRecs.AttachFlags` | src/compare_recs.py:55-67 | every row in order, tagged with the list name and text ids; `in_catalog` exactly when the catalogue holds the id; genres joined from the map, `""` for an unknown artist |
| `CompareRecs.JoinedGenres` | src/compare_recs.py:74-78 | the genres read back from one `genres_join` cell, none for `""`; `FlagGenres` proves it gives back the artist's genre list |
| `CompareRecs.AllGenresOf` | src/compare_recs.py:73-78 | `genres_all`, the read-back genres of every row in row order; `AllGenresOfFlags` states it |
| `CompareRecs.FlagGenres` | src/compare_recs.py:66-78 | reading back a flagged row's joined genres gives exactly its artist's genre list |
| `CompareRecs.JoinNonEmpty` | src/compare_recs.py:75 | a non-empty genre list never joins to the skipped empty string |
| `CompareRecs.AllGenresOfFlags` | src/compare_recs.py:73-78 | the genres the metrics count are the genres of the rows' artists, in row order |
| `CompareRecs.ArtistIdsOf` | src/compare_recs.py:72 | the artist id column of a flagged list |
| `CompareRecs.NameText` | src/compare_recs.py:80 | `fillna("")` of an artist name; `ArtistNamesOf` is stated with it |
| `CompareRecs.ArtistNamesOf` | src/compare_recs.py:80 | the artist names, with a missing name counted as `""` |
| `CompareRecs.MetricsOf` | src/compare_recs.py:69-89 | the metrics of one list; `DiversityMetrics`, `MetricsCounts`, `MetricsTopArtists` and `MetricsTopGenres` state them |
| `CompareRecs.DiversityMetrics` | src/compare_recs.py:69-89 | an empty list gives zeros and empty rankings; otherwise the loop and counters give the list's metrics |
| `CompareRecs.MetricsCounts` | src/compare_recs.py:72-86 | tracks is the length; unique artists the number of distinct artist ids, at most the length; unique genres the number of distinct genres |
| `CompareRecs.MetricsTopArtists` | src/compare_recs.py:80-81 | at most five artist names, each with its count over the list's rows, non-increasing, distinct, no omitted name more frequent |
| `CompareRecs.MetricsTopGenres` | src/compare_recs.py:79-82 | at most five genres, each with its count over the rows' genres, non-increasing, distinct, no omitted genre more frequent |
| `CompareRecs.NewCount` | src/compare_recs.py:121-122 | `(~in_catalog).sum()`; `NewCountSpec` states it |
| `CompareRecs.NewCountSpec` | src/compare_recs.py:121-122 | the new-to-user count is the number of rows not in the catalogue, at most the list length |
| `CompareRecs.Ratio` | src/compare_recs.py:134 | `count / max(1, total) if total else 0.0`; `RatioBounds` states it |
| `CompareRecs.RatioBounds` | src/compare_recs.py:134 | a count no larger than its total gives a ratio in [0, 1], and 0 for an empty list |
| `CompareRecs.TrackIdSet` | src/compare_recs.py:111 | `set(f["track_id"])`; `TrackIdSetCard` and `OverlapSpec` state it |
| `CompareRecs.Overlap` | src/compare_recs.py:111 | the shared track ids; `OverlapSpec` states them |
| `CompareRecs.OverlapSpec` | src/compare_recs.py:111 | the overlap is symmetric, contained in both id sets, and no larger than either list |
| `CompareRecs.TrackIdSetCard` | src/compare_recs.py:111 | a list has no more distinct track ids than rows |
| `CompareRecs.Keep` | src/compare_recs.py:114-115 | the `isin` filter; `KeepSpec` and `KeepCovers` state it |
| `CompareRecs.KeepSpec` | src/compare_recs.py:114-115 | the `isin` filter keeps rows in order, all with an overlapping id |
| `CompareRecs.KeepCovers` | src/compare_recs.py:114-115 | the filter drops no row with an overlapping id |
| `CompareRecs.OverlapRows` | src/compare_recs.py:112-118 | the overlap table; `OverlapRowsSpec` and `OverlapRowsCover` state it |
| `CompareRecs.OverlapRowsSpec` | src/compare_recs.py:112-118 | the overlap table is the history rows of shared tracks in order, then the preference rows, each of a track both lists hold |
| `CompareRecs.OverlapRowsCover` | src/compare_recs.py:112-118 | every row of either list whose track the other list holds is in the overlap table |
| `CompareRecs.Summarise` | src/compare_recs.py:128-146 | one list's summary; `SummaryNumbers` states it |
| `CompareRecs.ReportOf` | src/compare_recs.py:101-151 | the comparison report of the two lists; `Compare` and `ReportNumbers` state it |
| `CompareRecs.Compare` | src/compare_recs.py:91-151 | no report exactly when both lists are empty; otherwise the flags, metrics, overlap and tables of the two lists |
| `CompareRecs.ReportNumbers` | src/compare_recs.py:121-151 | track counts are the list lengths; new-to-user counts are the rows whose track the catalogue lacks, at most the length; all ratios are in [0, 1] and 0 for an empty list; the overlap is no larger than either list |
| `CompareRecs.SummaryNumbers` | src/compare_recs.py:121-143 | one list's track count is its length, its new-to-user count the rows whose track the catalogue lacks, with a ratio in [0, 1] that is 0 for an empty list |

## Left out

- Reading and writing files: CSV, JSON and the preview table. The model works on sequences of rows. A missing file or an empty table is an empty sequence.
- The Spotify client and the OAuth and dotenv set-up. These are external. The two catalogue calls are the `topTracks` and `related` functions of a `Provider`, and a failed call is an empty list.
- Progress messages and `print`.
- Floating point: weights are exact tenths and ratios are exact reals, so float rounding is not modelled.
- pandas' inference of numeric columns. Ids and names are modelled as text. `astype(str)` of a missing cell becomes the text `nan`, except where a frame has no such column.
- `BuildCatalog.KeyOfRow`: a missing artist name stays `None` in the key, without the `or ""` of `src/build_catalog.py:122`. Two cases differ from Python:
  - No batch has an `artist_name` column and there is no artist table. The `keep_cols` loop (`src/build_catalog.py:96-98`) then fills the column with Python `None`, and `or ""` keys the counter by `(a_id, "")`. The model keys by `(a_id, None)`. Grouping, scores and ranking are the same; only the name shown in `top_artists` is `None` instead of `""`.
  - The name is still missing after the merge (NaN). Here `or ""` keeps the NaN, and different NaN cells may form different dictionary keys. The model uses one `None` value.
- Missing columns that raise `KeyError` in the source, such as `track_id` in a recommendation file. Every listening row is assumed to carry `track_id`, `name`, `artist_id` and `album`.
- `artist_popularity`, `followers`, `played_at` and `added_at`: they are copied through to the catalogue but never read.
- The `fillna(1.0)` at `src/build_catalog.py:100`: it cannot change any row. Every non-empty batch gets a weight at `src/build_catalog.py:50-63`, and every row of the model carries a weight field.
- An album as a nested object: a track's album is modelled as its name, so `(track.get("album") or {}).get("name")` is that name.
- `MakeRecs.GenForSeeds`: the rows are an immutable sequence rather than a mutable list, so aliasing is not modelled.
