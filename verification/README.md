# Peak matching and condition alignment, in Dafny

This project models the core of `PeakMatching.py`. The script takes a table of chromatography
peaks, one row per peak of a protein in one condition, replicate and PTM channel ("global" for
the unmodified channel). It splits the table into groups keyed by `match_id`. Then, for every
group, it does two things:

1. **PTM matching** (`ptm_eval`, `replace_ptm_col_values`, `ptm_matching`).
   - Every global peak is compared with every same-key, same-condition peak of a PTM channel.
     Two peaks match when their apexes are strictly closer than the cutoff and their
     [left, right] intervals meet.
   - The matches are folded back onto the global peak: a match count, the `;`-joined matched
     peak ids, and (when cluster is not a grouping column) the matched clusters appended to
     its own.
   - A known channel that a group lacks is padded with placeholder rows.
2. **Condition alignment** (`path_mean_dist`, `path_score`, `fill_values`, `peak_alignment`,
   `condition_matching`).
   - Each condition gets a list of row indices, ending in a missing entry.
   - Every combination of one entry per condition is a candidate path. Paths are enumerated in
     `np.meshgrid(...).T.reshape` order.
   - The search repeats one round: score every candidate, take the first best one, and stop if
     it holds no peak. Otherwise keep it and delete every candidate that shares a peak with it.
   - Each kept path becomes one output row. The group columns come from the group's first row;
     every other column is looked up per slot.

Modules, leaves first:

| file | module | what it holds |
|---|---|---|
| `wrappers.dfy` | `Wrappers` | `Option` |
| `seqs.dfy` | `Seqs` | filtering, distinct elements, cardinality facts |
| `text.dfy` | `Text` | `'_'.join` and its split, `';'.join(filter(None, …))`, lexicographic order, sorted distinct labels (pandas `groupby` key order) |
| `grouping.dfy` | `Grouping` | the peak row, the key-column rule and `match_id`, the partition into groups |
| `ptm_matcher.dfy` | `PtmMatcher` | `ptm_eval`, the left merge, the summary `groupby`, `ptm_matching` as a method with its loops |
| `scoring.dfy` | `Scoring` | `path_mean_dist` and `path_score` over `real`, with a missing apex as `None` |
| `search_space.dfy` | `SearchSpace` | the padded index lists and the meshgrid enumeration of the candidate paths |
| `alignment.dfy` | `Alignment` | `fill_values` on a 2-D array, the greedy search with both pools deleted by index (the corrected search, see Findings), and `peak_alignment` and `condition_matching` as methods over it |
| `alignment_as_written.dfy` | `AlignmentAsWritten` | the search with its two pools exactly as written (see Findings) |
| `group_matching.dfy` | `GroupMatching` | `matching_i` |

Globals of the script become parameters:
- `group_cols` is `GroupColumns(cfg)`.
- `ptms` and `conditions` are label lists.
- `threshold` is the integer cutoff.

Four behaviours of the code are easy to misread; the model keeps each of them:
- The channel loop of `ptm_matching` (lines 165-197) rebuilds `final_global_df` from
  `global_df` on every pass. Only the channel that sorts last reaches the result.
- `peak_alignment` pads a condition missing from a group with `skeleton_df` (lines 272-281):
  one placeholder row per distinct group-column combination.
- A missing slot counts the threshold as its deviation (line 215), so the all-missing path
  scores `1/(threshold² + 1)`.
- Line 305 deletes every candidate that agrees with the kept path in any present entry, not
  only the kept path itself. Line 306 deletes the apex pool by apex value, not by index.
  The `Alignment` module runs the search with both pools deleted by index. That is the
  corrected search of the Findings. `AlignmentAsWritten` models the two pools as written.

## Model

| member | source | states |
|---|---|---|
| `Grouping.DeriveKeyConfig` | PeakMatching.py:36-45 | replicate is a key column iff the table has other than exactly one replicate label; cluster is one iff no row has cluster "0" |
| `Grouping.KeyColumns` | PeakMatching.py:31-45 | the `match_id` columns start with protein id, contain replicate and cluster under the rule above, never match_id or genes |
| `Grouping.MatchIdRoundTrip` | PeakMatching.py:47 | splitting `match_id` on '_' gives back the key-column values when none of them contains '_' |
| `Grouping.MatchId` | PeakMatching.py:47 | `match_id` starts with the row's protein id |
| `Grouping.MatchIdSeparates` | PeakMatching.py:47 | when no key value contains '_', two rows get the same `match_id` iff they agree on every key column |
| `Grouping.KeyTable` | PeakMatching.py:36-47 | one row per input row, in order, with only `match_id` changed; when no key value contains '_', two rows share a `match_id` iff they agree on every key column the whole table selects |
| `Grouping.Groups` | PeakMatching.py:49-50 | one non-empty group per distinct key, in key order; each group holds only rows of its key, and every row lands in the group of its key |
| `PtmMatcher.PtmEval` | PeakMatching.py:88-111 | a pair matches iff the PTM side is present, the apex distance is strictly below the cutoff, and the closed intervals overlap |
| `PtmMatcher.MergedWithCount` | PeakMatching.py:171-179 | the flag sum over one peak's merged rows is the number of partners that pass `ptm_eval` |
| `PtmMatcher.MergedWithKept` | PeakMatching.py:113-127 | `replace_ptm_col_values` keeps exactly the matched partners' values, in order, dropping the rest |
| `PtmMatcher.Merge` | PeakMatching.py:171 | every row of the left merge belongs to a global peak of the group |
| `PtmMatcher.Enrich` | PeakMatching.py:176-197 | one enriched row per global peak, in order, tagged with the channel; only the cluster field may change, and only when cluster is not a key column |
| `PtmMatcher.SummaryIsOwnMerge` | PeakMatching.py:179-182 | with distinct apexes per join key, the summary `groupby` of a global peak sees exactly its own merged rows |
| `PtmMatcher.EnrichPerPeak` | PeakMatching.py:171-197 | with distinct apexes per join key, a global peak's count is the number of matching channel rows, its ids are their non-empty ids `;`-joined, and without cluster in the key its cluster gets theirs appended |
| `PtmMatcher.EnrichWithoutMatches` | PeakMatching.py:176-197 | a peak none of whose summary peers matches gets count 0, the empty id string, and keeps its cluster |
| `PtmMatcher.MissingChannelCountsZero` | PeakMatching.py:156-160 | a channel made only of placeholder rows gives every global peak count 0 and an empty id string, and leaves it unchanged |
| `PtmMatcher.PtmMatching` | PeakMatching.py:142-198 | the method (padding loop, channel loop) returns `PtmMatchingSpec`: nothing without global peaks, the unbound-variable failure without channels, else the last channel's enrichment |
| `PtmMatcher.PtmMatchingSpec` | PeakMatching.py:142-198 | `None` iff the group has no global row; a returned table has one row per global row, and at least one |
| `PtmMatcher.ChannelLabels` | PeakMatching.py:153-163 | after padding, the channel labels are exactly the non-global labels of the group plus the known channels |
| `PtmMatcher.ChannelOrder` | PeakMatching.py:163-168 | the loop visits exactly those channels, strictly sorted |
| `PtmMatcher.NoGlobalRows` | PeakMatching.py:147-151 | the global table is empty iff no row of the group is labelled global |
| `PtmMatcher.PtmMatchingCases` | PeakMatching.py:147-165 | the result is empty iff no row is global, and the call fails iff some row is global and no channel exists |
| `PtmMatcher.GreatestChannel` | PeakMatching.py:163-168 | the loop's last channel is a channel and is above every other channel |
| `PtmMatcher.LastChannelSurvives` | PeakMatching.py:165-198 | the returned table has one row per global peak, all summarising the greatest channel; every other channel's summary is lost |
| `PtmMatcher.PtmMatchingPerPeak` | PeakMatching.py:165-198 | per returned peak, with distinct apexes: count and ids are those of its own matches in the surviving channel |
| `Scoring.Deviations` | PeakMatching.py:214-216 | one squared deviation per slot; a missing slot's is the threshold squared |
| `Scoring.DeviationsNonNegative` | PeakMatching.py:202-217 | every slot's squared deviation (a missing slot counting the threshold) is non-negative |
| `Scoring.Score` | PeakMatching.py:219-231 | every path scores in (0, 1] |
| `Scoring.ScoreIsOne` | PeakMatching.py:202-231 | a path scores 1 iff all its present apexes coincide and no slot is missing unless the threshold is 0 |
| `Scoring.ScoreIsOneIffNoDeviation` | PeakMatching.py:219-231 | a path scores 1 iff no slot deviates |
| `Scoring.ScoreOfAllAbsent` | PeakMatching.py:214-231 | the all-missing path scores 1/(t² + 1) |
| `Scoring.SinglePeakBeatsAllAbsent` | PeakMatching.py:202-231 | with t ≠ 0 a single-peak path scores strictly above the all-missing path |
| `SearchSpace.IndexLists` | PeakMatching.py:283-286 | one list per slot condition, each non-empty and ending in the missing entry |
| `SearchSpace.Enumerate` | PeakMatching.py:289 | every enumerated row has one entry per list, taken from that slot's list |
| `SearchSpace.InitialPool` | PeakMatching.py:272-289 | every candidate has one entry per slot condition |
| `SearchSpace.MeshOrder` | PeakMatching.py:289 | the meshgrid varies every slot exactly once, each below the slot count |
| `SearchSpace.EnumerateMembers` | PeakMatching.py:289 | a row is a candidate iff it takes, in every slot, an entry of that slot's list |
| `SearchSpace.SlotConditions` | PeakMatching.py:276-284 | the slots are strictly sorted and are exactly the group's conditions plus the known ones |
| `SearchSpace.IndexListsMembers` | PeakMatching.py:272-286 | every list holds the missing entry, and slot j's list holds exactly the peaks of slot j's condition |
| `SearchSpace.InitialPoolWellFormed` | PeakMatching.py:272-289 | every candidate has one slot per condition and points in slot j only at peaks of slot j's condition |
| `SearchSpace.InitialPoolSingles` | PeakMatching.py:284-289 | the candidates include the all-missing path and, per peak, the path holding it alone in its slot |
| `SearchSpace.SingleAheadOfAbsent` | PeakMatching.py:284-289 | in meshgrid order, the path that holds one peak alone in its slot comes before every all-missing candidate |
| `Alignment.ApexRow` | PeakMatching.py:290 | the apex row has one entry per slot, missing exactly where the path is, and elsewhere the apex of the peak it points at |
| `Alignment.PathScore` | PeakMatching.py:219-231 | a path with at least one slot scores in (0, 1] |
| `Alignment.ScorerNeverPrefersAbsent` | PeakMatching.py:202-231 | for every threshold, a path holding one peak in one slot scores at least as much as the all-missing path |
| `Alignment.FillValues` | PeakMatching.py:233-254 | a new table of the same shape whose every cell is the looked-up row value (missing stays missing, an unknown index stays as it was) |
| `Alignment.FirstMax` | PeakMatching.py:296 | the position of a maximum, with every earlier score strictly lower |
| `Alignment.Remove` | PeakMatching.py:305 | the remaining candidates are exactly those sharing no present entry with the kept path; the kept path itself goes, and the rest keep their order |
| `Alignment.Align` | PeakMatching.py:294-306 | kept paths are candidates, each holds a peak, and no later kept path shares a peak with an earlier one |
| `Alignment.SingleStaysAhead` | PeakMatching.py:305 | deleting the candidates that conflict with a kept path that does not hold the peak leaves the single-peak path ahead of every all-missing one |
| `Alignment.NoneRowSurvives` | PeakMatching.py:305 | the all-missing path is never deleted, so the loop always reaches its `break` |
| `Alignment.PeakAlignment` | PeakMatching.py:256-308 | the method's bounded loop returns exactly `Align` of the candidates under `path_score`, the single-pool search |
| `Alignment.AlignCount` | PeakMatching.py:294-306 | the search keeps at most as many paths as the candidates use peaks |
| `Alignment.AlignWellFormed` | PeakMatching.py:294-306 | kept paths point in each slot only at peaks of that slot's condition when the candidates do |
| `Alignment.AlignedPaths` | PeakMatching.py:256-308 | kept paths are candidates, none is all-missing, and no two share a peak |
| `Alignment.AlignedPathsShape` | PeakMatching.py:256-308 | kept paths are well formed, hold a peak, share none, and number at most the group's peaks |
| `Alignment.AlignCovers` | PeakMatching.py:294-306 | if a single-peak candidate comes before every all-missing candidate and scores at least as much as the all-missing path, some kept path holds that peak |
| `Alignment.PeakIsCovered` | PeakMatching.py:256-308 | for every threshold, every peak of the group is in some kept path |
| `Alignment.EveryPeakAlignedOnce` | PeakMatching.py:256-308 | for every threshold, every peak is in exactly one kept path, once, in the slot of its own condition |
| `Alignment.ConditionMatchingCovers` | PeakMatching.py:310-334 | for every threshold, every peak of the group is a member of some output row of `condition_matching` |
| `Alignment.FillTracks` | PeakMatching.py:323-332 | one output row per path: the group columns of the first row, and each slot filled by `fill_values` |
| `Alignment.ConditionMatching` | PeakMatching.py:310-334 | the method returns the rows of the paths the corrected search keeps |
| `Alignment.TracksShape` | PeakMatching.py:323-332 | rows filled from well-formed paths that hold a peak carry the group columns of the first row and, per slot, a peak of that slot's condition or nothing |
| `Alignment.TracksResolve` | PeakMatching.py:310-334 | no more rows than peaks; each carries the group columns, holds a peak, and has per slot a peak of that condition or nothing |
| `AlignmentAsWritten.AlignAsWritten` | PeakMatching.py:294-306 | the two-pool search keeps only index rows that were candidates, or fails with the index error |
| `AlignmentAsWritten.AlignedPathsAsWritten` | PeakMatching.py:256-308 | with both pools as written, a search that ends without error keeps only candidates |
| `AlignmentAsWritten.AsWrittenAgreesOnDistinctApexes` | PeakMatching.py:290-306 | when no two peaks of one condition share an apex, the code as written returns the single-pool result |
| `AlignmentAsWritten.SharedApexDropsPeak` | PeakMatching.py:305-306 | two peaks of one condition with the same apex: as written the search keeps only the first, while the single-pool search keeps both |
| `GroupMatching.MatchGroup` | PeakMatching.py:338-355 | the method is PTM matching followed by condition matching (the corrected search) of its result |
| `GroupMatching.MatchGroupSpec` | PeakMatching.py:338-355 | a group is skipped iff it has no global row; an aligned group has at most as many output rows as global rows |
| `GroupMatching.MatchGroupCases` | PeakMatching.py:147-151 | a group is skipped iff it has no global peak, and fails iff it has one but no channel exists |
| `GroupMatching.MatchGroupKeys` | PeakMatching.py:328-329 | every output row carries the group columns of the group's first global peak; there are at most as many rows as global peaks |
| `GroupMatching.MatchGroupCovers` | PeakMatching.py:338-355 | for every threshold, every enriched global peak of an aligned group appears in some output row |

## Left out

- Database I/O, the click command line, the runtime echo and the column reordering and dropping in `main` (lines 357-399) are not modelled. Neither is the read of the peak table (`read_sql_query` in the manager's constructor, line 29), which runs when `main` builds the manager (line 370), before any group is matched, and again when it builds the second manager for saving (line 389); the model starts from the table as read. Nor is `save_to_SQL` (lines 55-80), which `main` calls after every group is matched (line 390) and which rewrites the stored table but not which peaks are matched: it rewrites every cell (lines 63-72), joining a list's elements with `'|'` and turning every other non-missing value into its `str`. Nor is `close_connection` (lines 82-84), which only closes the database connection and changes no table; `main` calls it at line 375, before matching, and at line 391, after saving.
- The `map` over groups and the final `concat` are not modelled. `MatchGroup` models one group.
- Floating point and NaN are not modelled.
  - Apexes and bounds are `real`. A missing cell is `None`, and a comparison with it is false.
  - The model therefore has no rounding: two apexes that differ by less than float precision are distinct here.
- The peak record stands for every non-group column at once: `condition_matching` fills each column with the same `fill_values`, so the model fills whole peaks.
- The `astype(str)` coercion is modelled as the identity: every key column is already a string in the model.
- `Alignment.PathScore` gives the path with no slot the score 0. The code never scores such a path. A group without global rows returns at lines 147-151 before any alignment. A group with one has its own condition as a slot, so every path has a slot.
- `Alignment.FillValues` keeps the `Unresolved` cell for an index not in the table. In `condition_matching` every index comes from the table, so that branch is never taken there.
- `PtmMatcher.PtmMatchingPerPeak` and `PtmMatcher.EnrichPerPeak` are proved only when no two global peaks of one join key share an apex. Otherwise the summary `groupby`, keyed on the apex, sums the flags of such peaks together. The summary itself is modelled as written, including that merge.
- `PtmMatcher.Merge` states only that every merged row comes from a global peak of the group. The order and multiplicity of the rows follow its definition and are used by `PtmMatcher.SummaryIsOwnMerge`.
- `Alignment.PeakAlignment` runs the corrected search, which deletes both pools by index. The code deletes the apex pool by apex value (line 306). The two agree when no two peaks of one condition share an apex (`ApexesDistinctPerCondition`, by `AlignmentAsWritten.AsWrittenAgreesOnDistinctApexes`). The code as written is `AlignmentAsWritten.AlignAsWritten`.
- `Alignment.ConditionMatching` fills the paths of the corrected search. It matches the code only under `ApexesDistinctPerCondition`, by `AlignmentAsWritten.AsWrittenAgreesOnDistinctApexes`.
- `Alignment.PeakIsCovered`, `Alignment.EveryPeakAlignedOnce` and `Alignment.ConditionMatchingCovers` are about the corrected search. For the code as written they hold only under `ApexesDistinctPerCondition`; `AlignmentAsWritten.SharedApexDropsPeak` shows a peak the code loses otherwise.
- `GroupMatching.MatchGroup` uses the corrected search inside `condition_matching`. It matches the code only under `ApexesDistinctPerCondition`, by `AlignmentAsWritten.AsWrittenAgreesOnDistinctApexes`.
- `GroupMatching.MatchGroupCovers` is proved for the corrected search. For the code as written it holds only under `ApexesDistinctPerCondition`, by `AlignmentAsWritten.AsWrittenAgreesOnDistinctApexes`.

## Findings

| source | as written | input that shows it | evidently intended | confidence | as-written member | corrected member |
|---|---|---|---|---|---|---|
| PeakMatching.py:305-306 | The index pool deletes rows holding the kept peak indices. The apex pool deletes rows holding the kept apex values. When two peaks of one condition share an apex, the pools fall out of step: later rounds score one pool and read the other, and can drop a peak or raise an index error | one condition "A" with two global peaks of equal apex, threshold ≠ 0: as written the result is `[[0]]` | one track per peak, `[[0], [1]]`, as when both pools are deleted by index | medium (not executed) | `AlignmentAsWritten.SharedApexDropsPeak` | `Alignment.EveryPeakAlignedOnce` |
