/** Condition alignment of one group (PeakMatching.py:233-334): candidate paths are scored,
    the best one is kept, every candidate sharing a peak with it is discarded, and the search
    repeats until the best remaining candidate holds no peak at all. */
module Alignment {
  import opened Wrappers
  import opened Seqs
  import opened Text
  import opened Grouping
  import opened PtmMatcher
  import opened Scoring
  import opened SearchSpace

  // ---------------------------------------------------------------------------------------
  // fill_values (lines 233-254)

  /** A cell of a filled path table: a missing index, an index that is not in the table's
      `index` column (kept as it was), or the looked-up value. */
  datatype Cell<V> = Missing | Unresolved(index: nat) | Value(value: V)

  /** One cell of `fill_values`. The `index` column of the table is its row position (the
      caller resets the index), so index x looks up row x. */
  function FillCell<V>(index: Option<nat>, values: seq<V>): Cell<V> {
    match index
    case None => Missing
    case Some(x) => if x < |values| then Value(values[x]) else Unresolved(x)
  }

  /** `fill_values`: a copy of the index table in which every present index is replaced by
      the value of its row; the index table itself is left unchanged. */
  method FillValues<V>(index: array2<Option<nat>>, values: seq<V>) returns (filled: array2<Cell<V>>)
    ensures fresh(filled)
    ensures filled.Length0 == index.Length0 && filled.Length1 == index.Length1
    ensures forall i, j | 0 <= i < filled.Length0 && 0 <= j < filled.Length1 ::
      filled[i, j] == FillCell(index[i, j], values)
  {
    filled := new Cell<V>[index.Length0, index.Length1]((i, j) => Missing);
    for i := 0 to index.Length0
      invariant forall r, c | 0 <= r < i && 0 <= c < index.Length1 :: filled[r, c] == FillCell(index[r, c], values)
    {
      for j := 0 to index.Length1
        invariant forall r, c | 0 <= r < i && 0 <= c < index.Length1 :: filled[r, c] == FillCell(index[r, c], values)
        invariant forall c | 0 <= c < j :: filled[i, c] == FillCell(index[i, c], values)
      {
        var cell := index[i, j];
        if cell.Some? {
          if cell.value < |values| {
            filled[i, j] := Value(values[cell.value]);
          } else {
            filled[i, j] := Unresolved(cell.value);
          }
        } else {
          filled[i, j] := Missing;
        }
      }
    }
  }

  function Apexes(peaks: seq<EnrichedPeak>): seq<real> {
    seq(|peaks|, i requires 0 <= i < |peaks| => peaks[i].peak.apex)
  }

  /** `.astype(float)` of a filled apex cell. */
  function AsApex(c: Cell<real>): Option<real> {
    match c
    case Missing => None
    case Unresolved(x) => Some(x as real)
    case Value(a) => Some(a)
  }

  /** The apex row of a path (`peak_combinations`, line 290). */
  function ApexRow(peaks: seq<EnrichedPeak>, path: seq<Option<nat>>): (apexes: seq<Option<real>>)
    ensures |apexes| == |path|
    ensures forall j | 0 <= j < |path| :: apexes[j].None? <==> path[j].None?
    ensures forall j | 0 <= j < |path| && path[j].Some? && path[j].value < |peaks| ::
      apexes[j] == Some(peaks[path[j].value].peak.apex)
  {
    seq(|path|, j requires 0 <= j < |path| => AsApex(FillCell(path[j], Apexes(peaks))))
  }

  /** `path_score` of a candidate's apex row. Every group has at least one condition, so a
      candidate always has a slot; the slot-less path is given 0, below every real score. */
  function PathScore(peaks: seq<EnrichedPeak>, t: real, path: seq<Option<nat>>): (s: real)
    ensures path != [] ==> 0.0 < s <= 1.0
  {
    if path == [] then 0.0 else Score(ApexRow(peaks, path), t)
  }

  /** The scoring the search of one group uses. */
  function Scorer(peaks: seq<EnrichedPeak>, t: real): seq<Option<nat>> -> real {
    path => PathScore(peaks, t, path)
  }

  /** Whatever the threshold, a path holding a single peak scores at least as much as the
      all-missing path (both score 1 when the threshold is 0). */
  lemma ScorerNeverPrefersAbsent(peaks: seq<EnrichedPeak>, t: real, k: nat, j: nat, x: nat)
    requires j < k
    ensures Scorer(peaks, t)(NoneRow(k)) <= Scorer(peaks, t)(Single(k, j, x))
  {
    if t != 0.0 {
      ScorerPrefersPeaks(peaks, t, k, j, x);
    } else {
      var single := ApexRow(peaks, Single(k, j, x));
      var none := ApexRow(peaks, NoneRow(k));
      assert forall i | 0 <= i < k && i != j :: single[i].None?;
      assert Agree(single, t);
      ScoreIsOne(single, t);
      assert forall i | 0 <= i < k :: none[i].None?;
      ScoreOfAllAbsent(none, t);
      SquareFacts(t);
    }
  }

  /** A path holding a single peak scores above the all-missing path when the threshold is not 0. */
  lemma ScorerPrefersPeaks(peaks: seq<EnrichedPeak>, t: real, k: nat, j: nat, x: nat)
    requires t != 0.0 && j < k
    ensures Scorer(peaks, t)(NoneRow(k)) < Scorer(peaks, t)(Single(k, j, x))
  {
    var single := ApexRow(peaks, Single(k, j, x));
    var none := ApexRow(peaks, NoneRow(k));
    assert single[j].Some?;
    assert forall i | 0 <= i < k && i != j :: single[i].None?;
    SinglePeakBeatsAllAbsent(single, t, j);
    assert forall i | 0 <= i < k :: none[i].None?;
    ScoreOfAllAbsent(none, t);
  }

  // ---------------------------------------------------------------------------------------
  // The greedy search (lines 294-306)

  /** `np.apply_along_axis(path_score, 1, ...)`: the score of every candidate. */
  function Scores(pool: seq<seq<Option<nat>>>, score: seq<Option<nat>> -> real): (scores: seq<real>)
    ensures |scores| == |pool|
  {
    seq(|pool|, i requires 0 <= i < |pool| => score(pool[i]))
  }

  /** `np.where(scores == scores.max())[0][0]`: the first position of the maximum. */
  function FirstMax(scores: seq<real>): (m: nat)
    requires |scores| > 0
    ensures m < |scores|
    ensures forall i | 0 <= i < |scores| :: scores[i] <= scores[m]
    ensures forall i | 0 <= i < m :: scores[i] < scores[m]
  {
    if |scores| == 1 then 0
    else
      var m := FirstMax(scores[..|scores| - 1]);
      if scores[|scores| - 1] > scores[m] then |scores| - 1 else m
  }

  /** `np.where(pool == acc)[0]` selects `r`: in some slot where `acc` is present, `r` holds
      the same entry (a missing entry, being NaN, never equals anything). */
  predicate Conflicts<T(==)>(r: seq<Option<T>>, acc: seq<Option<T>>) {
    exists j | 0 <= j < |acc| && j < |r| :: acc[j].Some? && r[j] == acc[j]
  }

  /** The all-missing rows are exactly the rows `NoneRow` builds. */
  lemma AllAbsentIsNoneRow(r: seq<Option<nat>>)
    ensures AllAbsent(r) <==> r == NoneRow(|r|)
  {
  }

  /** `np.delete(pool, np.where(pool == acc)[0], axis=0)`: the rows that conflict with `acc` go,
      the others stay in order. A row with a present entry conflicts with itself, so removing
      it shrinks the pool. */
  function Remove<T(==,!new)>(pool: seq<seq<Option<T>>>, acc: seq<Option<T>>): (rest: seq<seq<Option<T>>>)
    ensures forall r :: r in rest <==> r in pool && !Conflicts(r, acc)
    ensures |rest| <= |pool|
    ensures acc in pool && !AllAbsent(acc) ==> |rest| < |pool|
    ensures Subsequence(rest, pool)
  {
    if pool == [] then []
    else
      var tail := Remove(pool[1..], acc);
      if Conflicts(pool[0], acc) then tail
      else
        assert ([pool[0]] + tail)[1..] == tail;
        [pool[0]] + tail
  }

  /** The paths the search keeps, best first: it stops as soon as the best candidate (the first
      of the highest score) holds no peak, keeps it otherwise and discards every candidate
      that shares a peak with it. Every kept path is a candidate with at least one peak, and
      no two kept paths share a peak. */
  function Align(pool: seq<seq<Option<nat>>>, score: seq<Option<nat>> -> real): (paths: seq<seq<Option<nat>>>)
    ensures forall p | p in paths :: p in pool
    ensures forall p | p in paths :: !AllAbsent(p)
    ensures forall a, b | 0 <= a < b < |paths| :: !Conflicts(paths[b], paths[a])
    decreases |pool|
  {
    if pool == [] then []
    else
      var top := pool[FirstMax(Scores(pool, score))];
      if AllAbsent(top) then []
      else
        var rest := Remove(pool, top);
        var tail := Align(rest, score);
        assert forall p | p in tail :: !Conflicts(p, top) by {
          forall p | p in tail ensures !Conflicts(p, top) {
            assert p in rest;
          }
        }
        [top] + tail
  }

  /** One round of the search: the best candidate, and what the search does with it. */
  lemma AlignStep(pool: seq<seq<Option<nat>>>, score: seq<Option<nat>> -> real)
    requires pool != []
    ensures var top := pool[FirstMax(Scores(pool, score))];
            Align(pool, score) == if AllAbsent(top) then [] else [top] + Align(Remove(pool, top), score)
  {
  }

  /** `peak_alignment`: builds the candidate paths of the group and runs the search loop,
      bounded by the number of candidates as in `peak_alignment`. Every round removes the chosen
      path while the all-missing path is never removed, so the loop ends at its `break`. */
  method PeakAlignment(peaks: seq<EnrichedPeak>, known: seq<string>, cfg: KeyConfig, threshold: int)
    returns (paths: seq<seq<Option<nat>>>)
    ensures paths == AlignedPaths(peaks, known, cfg, threshold)
  {
    var score := Scorer(peaks, threshold as real);
    var initial := InitialPool(peaks, known, cfg);
    var k := |SlotConditions(peaks, known)|;
    InitialPoolSingles(peaks, known, cfg);
    var pool := initial;
    paths := [];
    for i := 0 to |initial|
      invariant NoneRow(k) in pool
      invariant |pool| + i <= |initial|
      invariant paths + Align(pool, score) == Align(initial, score)
    {
      var scores := Scores(pool, score);
      var top := pool[FirstMax(scores)];
      AlignStep(pool, score);
      if AllAbsent(top) {
        break;
      }
      var rest := Remove(pool, top);
      NoneRowSurvives(pool, top, k);
      AppendAssoc(paths, [top], Align(rest, score));
      paths := paths + [top];
      pool := rest;
    }
  }

  lemma AppendAssoc<T>(a: seq<T>, b: seq<T>, c: seq<T>)
    ensures (a + b) + c == a + (b + c)
  {
  }

  /** The all-missing path conflicts with nothing, so the search never removes it. */
  lemma NoneRowSurvives(pool: seq<seq<Option<nat>>>, top: seq<Option<nat>>, k: nat)
    requires NoneRow(k) in pool
    ensures NoneRow(k) in Remove(pool, top)
  {
    assert !Conflicts(NoneRow(k), top);
  }

  /** The aligned paths of a group, as index rows. */
  function AlignedPaths(peaks: seq<EnrichedPeak>, known: seq<string>, cfg: KeyConfig, threshold: int)
    : (paths: seq<seq<Option<nat>>>)
    ensures forall p | p in paths :: p in InitialPool(peaks, known, cfg) && !AllAbsent(p)
    ensures forall a, b | 0 <= a < b < |paths| :: !Conflicts(paths[b], paths[a])
  {
    Align(InitialPool(peaks, known, cfg), Scorer(peaks, threshold as real))
  }

  // ---------------------------------------------------------------------------------------
  // What the search guarantees

  /** The position of the first occurrence of `s`, with no all-missing row before it. */
  lemma {:induction false} AheadPosition(pool: seq<seq<Option<nat>>>, s: seq<Option<nat>>) returns (i: nat)
    requires AheadOfAbsent(pool, s)
    ensures i < |pool| && pool[i] == s
    ensures forall l | 0 <= l < i :: !AllAbsent(pool[l])
  {
    if pool[0] == s {
      i := 0;
    } else {
      var i' := AheadPosition(pool[1..], s);
      i := i' + 1;
      assert forall l | 1 <= l < i :: pool[l] == pool[1..][l - 1];
    }
  }

  /** While the single-peak path of x is listed ahead of every all-missing path and scores at
      least as much as the all-missing path, the best candidate holds some peak: the first of
      the best scores cannot be an all-missing path. */
  lemma BestHoldsPeak(pool: seq<seq<Option<nat>>>, score: seq<Option<nat>> -> real, k: nat, j: nat, x: nat)
    requires forall r | r in pool :: |r| == k
    requires j < k && AheadOfAbsent(pool, Single(k, j, x))
    requires score(NoneRow(k)) <= score(Single(k, j, x))
    ensures !AllAbsent(pool[FirstMax(Scores(pool, score))])
  {
    var scores := Scores(pool, score);
    var m := FirstMax(scores);
    var i := AheadPosition(pool, Single(k, j, x));
    if m == i {
      assert pool[m][j] == Some(x);
    } else if i < m {
      assert scores[i] < scores[m];
      assert pool[m] != NoneRow(k);
      assert pool[m] in pool;
      AllAbsentIsNoneRow(pool[m]);
    }
  }

  /** While such a candidate remains, the search keeps its best candidate and goes on. */
  lemma CoverStep(pool: seq<seq<Option<nat>>>, score: seq<Option<nat>> -> real, k: nat, j: nat, x: nat)
    requires forall r | r in pool :: |r| == k
    requires j < k && AheadOfAbsent(pool, Single(k, j, x))
    requires score(NoneRow(k)) <= score(Single(k, j, x))
    ensures var top := pool[FirstMax(Scores(pool, score))];
            Align(pool, score) == [top] + Align(Remove(pool, top), score)
  {
    BestHoldsPeak(pool, score, k, j, x);
    AlignStep(pool, score);
  }

  /** Removing the rows that conflict with a path not holding x in slot j keeps the single-peak
      path of x, and keeps it ahead of every all-missing path. */
  lemma {:induction false} SingleStaysAhead(pool: seq<seq<Option<nat>>>, top: seq<Option<nat>>, k: nat, j: nat, x: nat)
    requires j < k && AheadOfAbsent(pool, Single(k, j, x))
    requires j < |top| && top[j] != Some(x)
    ensures AheadOfAbsent(Remove(pool, top), Single(k, j, x))
  {
    var s := Single(k, j, x);
    assert !Conflicts(s, top);
    var rest := Remove(pool, top);
    var tail := Remove(pool[1..], top);
    if pool[0] == s {
      assert rest == [s] + tail;
    } else {
      assert !AllAbsent(pool[0]);
      SingleStaysAhead(pool[1..], top, k, j, x);
      if !Conflicts(pool[0], top) {
        assert rest == [pool[0]] + tail;
        assert rest[1..] == tail;
      } else {
        assert rest == tail;
      }
    }
  }

  /** The search never drops a peak whose single-peak path is listed ahead of every
      all-missing path and scores at least as much: it goes on until some kept path holds
      that peak in its slot. */
  lemma {:induction false} AlignCovers(pool: seq<seq<Option<nat>>>, score: seq<Option<nat>> -> real, k: nat, j: nat, x: nat)
    requires forall r | r in pool :: |r| == k
    requires j < k && AheadOfAbsent(pool, Single(k, j, x))
    requires score(NoneRow(k)) <= score(Single(k, j, x))
    ensures var paths := Align(pool, score);
            exists i :: 0 <= i < |paths| && j < |paths[i]| && paths[i][j] == Some(x)
    decreases |pool|
  {
    var top := pool[FirstMax(Scores(pool, score))];
    var rest := Remove(pool, top);
    var paths := Align(pool, score);
    CoverStep(pool, score, k, j, x);
    assert top in pool;
    if top[j] == Some(x) {
      assert 0 < |paths| && j < |paths[0]| && paths[0][j] == Some(x);
    } else {
      SingleStaysAhead(pool, top, k, j, x);
      AlignCovers(rest, score, k, j, x);
      var tail := Align(rest, score);
      var i :| 0 <= i < |tail| && j < |tail[i]| && tail[i][j] == Some(x);
      assert paths[i + 1] == tail[i];
      assert 0 <= i + 1 < |paths| && j < |paths[i + 1]| && paths[i + 1][j] == Some(x);
    }
  }

  /** The entries a pool's paths point at. */
  function Used(pool: seq<seq<Option<nat>>>): set<nat> {
    set r: seq<Option<nat>>, j | r in pool && 0 <= j < |r| && r[j].Some? :: r[j].value
  }

  /** Removing the rows that share a peak with `top` leaves none of `top`'s peaks. */
  lemma RemoveUsed(pool: seq<seq<Option<nat>>>, slots: seq<string>, peaks: seq<EnrichedPeak>, top: seq<Option<nat>>, j0: nat)
    requires WellFormed(pool, slots, peaks) && StrictlySorted(slots)
    requires top in pool && j0 < |top| && top[j0].Some?
    ensures Used(Remove(pool, top)) <= Used(pool) - {top[j0].value}
  {
    var x0 := top[j0].value;
    var rest := Remove(pool, top);
    forall y | y in Used(rest) ensures y in Used(pool) - {x0} {
      var r: seq<Option<nat>>, j :| r in rest && 0 <= j < |r| && r[j].Some? && r[j].value == y;
      assert r in pool;
      SortedPositionUnique(slots, j, j0);
      if j == j0 {
        assert r[j0] != top[j0];
      }
    }
  }

  /** Each kept path uses up at least one peak no later path can use, so the search keeps at
      most as many paths as there are peaks. */
  lemma {:induction false} AlignCount(pool: seq<seq<Option<nat>>>, slots: seq<string>, peaks: seq<EnrichedPeak>, score: seq<Option<nat>> -> real)
    requires WellFormed(pool, slots, peaks) && StrictlySorted(slots)
    ensures |Align(pool, score)| <= |Used(pool)|
    decreases |pool|
  {
    if pool != [] {
      var top := pool[FirstMax(Scores(pool, score))];
      AlignStep(pool, score);
      if !AllAbsent(top) {
        var j0 :| 0 <= j0 < |top| && top[j0].Some?;
        var x0 := top[j0].value;
        var rest := Remove(pool, top);
        assert WellFormed(rest, slots, peaks);
        RemoveUsed(pool, slots, peaks, top, j0);
        AlignCount(rest, slots, peaks, score);
        SubsetCard(Used(rest), Used(pool) - {x0});
        assert x0 in Used(pool);
      }
    }
  }

  /** The kept paths are well formed whenever the candidates are. */
  lemma AlignWellFormed(pool: seq<seq<Option<nat>>>, slots: seq<string>, peaks: seq<EnrichedPeak>, score: seq<Option<nat>> -> real)
    requires WellFormed(pool, slots, peaks)
    ensures WellFormed(Align(pool, score), slots, peaks)
  {
    var paths := Align(pool, score);
    forall r | r in paths ensures r in pool {
    }
  }

  /** Every kept path has one slot per condition, holds at least one peak, points in slot j
      only at peaks of slot j's condition, and shares no peak with another kept path; there
      are at most as many kept paths as peaks. */
  lemma AlignedPathsShape(peaks: seq<EnrichedPeak>, known: seq<string>, cfg: KeyConfig, threshold: int)
    ensures var paths := AlignedPaths(peaks, known, cfg, threshold);
            var slots := SlotConditions(peaks, known);
            && WellFormed(paths, slots, peaks)
            && (forall p | p in paths :: !AllAbsent(p))
            && (forall a, b | 0 <= a < b < |paths| :: !Conflicts(paths[b], paths[a]))
            && |paths| <= |peaks|
  {
    var pool := InitialPool(peaks, known, cfg);
    var slots := SlotConditions(peaks, known);
    var score := Scorer(peaks, threshold as real);
    InitialPoolWellFormed(peaks, known, cfg);
    AlignWellFormed(pool, slots, peaks, score);
    AlignCount(pool, slots, peaks, score);
    SubsetCard(Used(pool), NaturalsBelow(|peaks|));
  }

  /** Of two paths that share no peak, at most one holds a given peak in a given slot. */
  lemma PathsDisjoint(paths: seq<seq<Option<nat>>>)
    requires forall a, b | 0 <= a < b < |paths| :: !Conflicts(paths[b], paths[a])
    ensures forall a, b, j | 0 <= a < |paths| && 0 <= b < |paths| && a != b && 0 <= j < |paths[a]| && j < |paths[b]| && paths[a][j].Some? ::
              paths[b][j] != paths[a][j]
  {
    forall a, b, j | 0 <= a < |paths| && 0 <= b < |paths| && a != b && 0 <= j < |paths[a]| && j < |paths[b]| && paths[a][j].Some?
      ensures paths[b][j] != paths[a][j]
    {
      if a < b {
        assert !Conflicts(paths[b], paths[a]);
      } else {
        assert !Conflicts(paths[a], paths[b]);
      }
    }
  }

  /** Every peak of the group is kept in some path, whatever the threshold. */
  lemma PeakIsCovered(peaks: seq<EnrichedPeak>, known: seq<string>, cfg: KeyConfig, threshold: int, x: nat)
    requires x < |peaks|
    ensures var paths := AlignedPaths(peaks, known, cfg, threshold);
            exists i, j :: 0 <= i < |paths| && 0 <= j < |paths[i]| && paths[i][j] == Some(x)
  {
    var j := SlotOf(peaks, known, x);
    var k := |SlotConditions(peaks, known)|;
    var t := threshold as real;
    InitialPoolWellFormed(peaks, known, cfg);
    SingleAheadOfAbsent(peaks, known, cfg, j, x);
    ScorerNeverPrefersAbsent(peaks, t, k, j, x);
    AlignCovers(InitialPool(peaks, known, cfg), Scorer(peaks, t), k, j, x);
    var paths := AlignedPaths(peaks, known, cfg, threshold);
    var i :| 0 <= i < |paths| && j < |paths[i]| && paths[i][j] == Some(x);
  }

  /** Whatever the threshold, every peak of the group lands in exactly one kept path, in the
      slot of its own condition. */
  lemma EveryPeakAlignedOnce(peaks: seq<EnrichedPeak>, known: seq<string>, cfg: KeyConfig, threshold: int, x: nat)
    requires x < |peaks|
    ensures var paths := AlignedPaths(peaks, known, cfg, threshold);
            var slots := SlotConditions(peaks, known);
            && (exists i, j :: 0 <= i < |paths| && 0 <= j < |paths[i]| && paths[i][j] == Some(x))
            && (forall i, j | 0 <= i < |paths| && 0 <= j < |paths[i]| && paths[i][j] == Some(x) ::
                  j < |slots| && slots[j] == peaks[x].peak.condition)
            && (forall i1, j1, i2, j2 |
                  && 0 <= i1 < |paths| && 0 <= j1 < |paths[i1]| && paths[i1][j1] == Some(x)
                  && 0 <= i2 < |paths| && 0 <= j2 < |paths[i2]| && paths[i2][j2] == Some(x) ::
                  i1 == i2 && j1 == j2)
  {
    var slots := SlotConditions(peaks, known);
    var paths := AlignedPaths(peaks, known, cfg, threshold);
    AlignedPathsShape(peaks, known, cfg, threshold);
    PeakIsCovered(peaks, known, cfg, threshold, x);
    forall i1, j1, i2, j2 |
      && 0 <= i1 < |paths| && 0 <= j1 < |paths[i1]| && paths[i1][j1] == Some(x)
      && 0 <= i2 < |paths| && 0 <= j2 < |paths[i2]| && paths[i2][j2] == Some(x)
      ensures i1 == i2 && j1 == j2
    {
      assert paths[i1] in paths && paths[i2] in paths;
      SortedPositionUnique(slots, j1, j2);
      PathsDisjoint(paths);
    }
  }

  // ---------------------------------------------------------------------------------------
  // condition_matching (lines 310-334)

  /** One output row: the group columns copied from the group's first row, and for every
      condition slot the filled cell of every other column (all of them at once: the peak). */
  datatype Track = Track(groupValues: seq<string>, members: seq<Cell<EnrichedPeak>>)

  function TrackOf(peaks: seq<EnrichedPeak>, path: seq<Option<nat>>, cfg: KeyConfig): Track
    requires |peaks| > 0
  {
    Track(Values(peaks[0].peak, GroupColumns(cfg)), seq(|path|, j requires 0 <= j < |path| => FillCell(path[j], peaks)))
  }

  /** The output rows of a list of paths, one per path. */
  function Tracks(peaks: seq<EnrichedPeak>, paths: seq<seq<Option<nat>>>, cfg: KeyConfig): (tracks: seq<Track>)
    requires |peaks| > 0
    ensures |tracks| == |paths|
  {
    seq(|paths|, i requires 0 <= i < |paths| => TrackOf(peaks, paths[i], cfg))
  }

  function ConditionMatchingSpec(peaks: seq<EnrichedPeak>, known: seq<string>, cfg: KeyConfig, threshold: int): seq<Track>
    requires |peaks| > 0
  {
    Tracks(peaks, AlignedPaths(peaks, known, cfg, threshold), cfg)
  }

  /** The filling part of `condition_matching` (lines 323-332): every path goes through
      `fill_values` as one row of a table, and each output row takes the group columns from the
      group's first row. */
  method FillTracks(peaks: seq<EnrichedPeak>, paths: seq<seq<Option<nat>>>, cfg: KeyConfig, k: nat)
    returns (tracks: seq<Track>)
    requires |peaks| > 0
    requires forall i | 0 <= i < |paths| :: |paths[i]| == k
    ensures tracks == Tracks(peaks, paths, cfg)
  {
    var grid := new Option<nat>[|paths|, k]((i, j) => if 0 <= i < |paths| && 0 <= j < |paths[i]| then paths[i][j] else None);
    var cells := FillValues(grid, peaks);
    var groupValues := Values(peaks[0].peak, GroupColumns(cfg));
    tracks := [];
    for i := 0 to |paths|
      invariant |tracks| == i
      invariant forall r | 0 <= r < i :: tracks[r] == TrackOf(peaks, paths[r], cfg)
    {
      var members: seq<Cell<EnrichedPeak>> := [];
      for j := 0 to k
        invariant |members| == j
        invariant forall c | 0 <= c < j :: members[c] == FillCell(paths[i][c], peaks)
      {
        members := members + [cells[i, j]];
      }
      tracks := tracks + [Track(groupValues, members)];
    }
  }

  /** `condition_matching`: aligns the group, then fills one output row per kept path. */
  method ConditionMatching(peaks: seq<EnrichedPeak>, known: seq<string>, cfg: KeyConfig, threshold: int)
    returns (tracks: seq<Track>)
    requires |peaks| > 0
    ensures tracks == ConditionMatchingSpec(peaks, known, cfg, threshold)
  {
    var paths := PeakAlignment(peaks, known, cfg, threshold);
    AlignedPathsShape(peaks, known, cfg, threshold);
    var k := |SlotConditions(peaks, known)|;
    assert forall i | 0 <= i < |paths| :: |paths[i]| == k by {
      forall i | 0 <= i < |paths| ensures |paths[i]| == k {
        assert paths[i] in paths;
      }
    }
    tracks := FillTracks(peaks, paths, cfg, k);
  }

  /** Rows built from well-formed paths that each hold a peak carry the group's key columns and
      resolve every slot to a peak of that slot's condition or to a missing cell, with at least
      one peak per row. */
  lemma TracksShape(peaks: seq<EnrichedPeak>, paths: seq<seq<Option<nat>>>, slots: seq<string>, cfg: KeyConfig)
    requires |peaks| > 0
    requires WellFormed(paths, slots, peaks)
    requires forall p | p in paths :: !AllAbsent(p)
    ensures forall tr | tr in Tracks(peaks, paths, cfg) ::
              && tr.groupValues == Values(peaks[0].peak, GroupColumns(cfg))
              && |tr.members| == |slots|
              && (exists j :: 0 <= j < |tr.members| && tr.members[j].Value?)
              && forall j | 0 <= j < |tr.members| ::
                   tr.members[j].Missing? || (tr.members[j].Value? && tr.members[j].value.peak.condition == slots[j])
  {
    var tracks := Tracks(peaks, paths, cfg);
    forall tr | tr in tracks
      ensures |tr.members| == |slots|
      ensures exists j :: 0 <= j < |tr.members| && tr.members[j].Value?
      ensures forall j | 0 <= j < |tr.members| ::
                tr.members[j].Missing? || (tr.members[j].Value? && tr.members[j].value.peak.condition == slots[j])
    {
      var i :| 0 <= i < |tracks| && tracks[i] == tr;
      var p := paths[i];
      assert p in paths;
      var j :| 0 <= j < |p| && p[j].Some?;
      assert tr.members[j].Value?;
    }
  }

  /** Every peak of the group appears in some output row of `condition_matching`. */
  lemma ConditionMatchingCovers(peaks: seq<EnrichedPeak>, known: seq<string>, cfg: KeyConfig, threshold: int, x: nat)
    requires x < |peaks|
    ensures var tracks := ConditionMatchingSpec(peaks, known, cfg, threshold);
            exists i, j :: 0 <= i < |tracks| && 0 <= j < |tracks[i].members| && tracks[i].members[j] == Value(peaks[x])
  {
    var paths := AlignedPaths(peaks, known, cfg, threshold);
    var tracks := Tracks(peaks, paths, cfg);
    PeakIsCovered(peaks, known, cfg, threshold, x);
    TracksCover(peaks, paths, cfg, x);
    var i, j :| 0 <= i < |tracks| && 0 <= j < |tracks[i].members| && tracks[i].members[j] == Value(peaks[x]);
    assert ConditionMatchingSpec(peaks, known, cfg, threshold) == tracks;
  }

  /** A peak some path holds is a member of that path's output row. */
  lemma TracksCover(peaks: seq<EnrichedPeak>, paths: seq<seq<Option<nat>>>, cfg: KeyConfig, x: nat)
    requires x < |peaks|
    requires exists i, j :: 0 <= i < |paths| && 0 <= j < |paths[i]| && paths[i][j] == Some(x)
    ensures var tracks := Tracks(peaks, paths, cfg);
            exists i, j :: 0 <= i < |tracks| && 0 <= j < |tracks[i].members| && tracks[i].members[j] == Value(peaks[x])
  {
    var i, j :| 0 <= i < |paths| && 0 <= j < |paths[i]| && paths[i][j] == Some(x);
    var tr := Tracks(peaks, paths, cfg)[i];
    assert tr == TrackOf(peaks, paths[i], cfg);
    assert tr.members[j] == FillCell(paths[i][j], peaks);
  }

  /** The output rows of `condition_matching`: no more than there are peaks, each with the group's key
      columns, at least one peak, and in every slot a peak of that slot's condition or nothing. */
  lemma TracksResolve(peaks: seq<EnrichedPeak>, known: seq<string>, cfg: KeyConfig, threshold: int)
    requires |peaks| > 0
    ensures var tracks := ConditionMatchingSpec(peaks, known, cfg, threshold);
            var slots := SlotConditions(peaks, known);
            && |tracks| <= |peaks|
            && forall tr | tr in tracks ::
                 && tr.groupValues == Values(peaks[0].peak, GroupColumns(cfg))
                 && |tr.members| == |slots|
                 && (exists j :: 0 <= j < |tr.members| && tr.members[j].Value?)
                 && forall j | 0 <= j < |tr.members| ::
                      tr.members[j].Missing? || (tr.members[j].Value? && tr.members[j].value.peak.condition == slots[j])
  {
    AlignedPathsShape(peaks, known, cfg, threshold);
    TracksShape(peaks, AlignedPaths(peaks, known, cfg, threshold), SlotConditions(peaks, known), cfg);
  }
}
