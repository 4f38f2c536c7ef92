/** The greedy search of `peak_alignment` as written (PeakMatching.py:294-306). It keeps two
    pools side by side: the index rows and their apex rows. Scores and the chosen position come
    from the apex pool, the kept path from the index pool, and each pool deletes the rows that
    equal the chosen row in some column, by its own values. When two peaks of one condition
    share an apex, the apex pool loses more rows than the index pool and the two fall out of
    step. */
module AlignmentAsWritten {
  import opened Wrappers
  import opened Text
  import opened Grouping
  import opened PtmMatcher
  import opened Scoring
  import opened SearchSpace
  import opened Alignment

  /** `peak_combinations`: the apex row of every candidate path (line 290). */
  function ApexRows(peaks: seq<EnrichedPeak>, pool: seq<seq<Option<nat>>>): (rows: seq<seq<Option<real>>>)
    ensures |rows| == |pool|
  {
    seq(|pool|, i requires 0 <= i < |pool| => ApexRow(peaks, pool[i]))
  }

  /** `path_score` applied to an apex row; the slot-less row is given 0 as in `PathScore`. */
  function ApexScorer(t: real): seq<Option<real>> -> real {
    row => if row == [] then 0.0 else Score(row, t)
  }

  /** The search on the two pools. `None` is the `IndexError` of line 304, raised once the
      chosen position lies past the end of the shorter index pool. An empty apex pool ends
      the search: that happens only when there was no candidate, and the loop never runs. */
  function AlignAsWritten(ipool: seq<seq<Option<nat>>>, apool: seq<seq<Option<real>>>, ascore: seq<Option<real>> -> real)
    : (r: Option<seq<seq<Option<nat>>>>)
    ensures r.Some? ==> forall p | p in r.value :: p in ipool
    decreases |apool|
  {
    if apool == [] then Some([])
    else
      var m := FirstMax(seq(|apool|, i requires 0 <= i < |apool| => ascore(apool[i])));
      var atop := apool[m];
      if AllAbsent(atop) then Some([])
      else if m >= |ipool| then None
      else
        var itop := ipool[m];
        match AlignAsWritten(Remove(ipool, itop), Remove(apool, atop), ascore)
        case None => None
        case Some(tail) => Some([itop] + tail)
  }

  /** One round of the search as written that keeps a path and goes on without error. */
  lemma AsWrittenKeeps(ipool: seq<seq<Option<nat>>>, apool: seq<seq<Option<real>>>, ascore: seq<Option<real>> -> real,
                       m: nat, tail: seq<seq<Option<nat>>>)
    requires apool != [] && m == FirstMax(seq(|apool|, i requires 0 <= i < |apool| => ascore(apool[i])))
    requires m < |ipool| && !AllAbsent(apool[m])
    requires AlignAsWritten(Remove(ipool, ipool[m]), Remove(apool, apool[m]), ascore) == Some(tail)
    ensures AlignAsWritten(ipool, apool, ascore) == Some([ipool[m]] + tail)
  {
  }

  /** The paths `peak_alignment` returns as written. */
  function AlignedPathsAsWritten(peaks: seq<EnrichedPeak>, known: seq<string>, cfg: KeyConfig, threshold: int)
    : (r: Option<seq<seq<Option<nat>>>>)
    ensures r.Some? ==> forall p | p in r.value :: p in InitialPool(peaks, known, cfg)
  {
    var pool := InitialPool(peaks, known, cfg);
    AlignAsWritten(pool, ApexRows(peaks, pool), ApexScorer(threshold as real))
  }

  // ---------------------------------------------------------------------------------------
  // When the two pools stay in step

  /** No two peaks of one condition share an apex. */
  predicate ApexesDistinctPerCondition(peaks: seq<EnrichedPeak>) {
    forall a, b | 0 <= a < b < |peaks| && peaks[a].peak.condition == peaks[b].peak.condition ::
      peaks[a].peak.apex != peaks[b].peak.apex
  }

  /** A row of the index pool conflicts with the chosen row exactly when its apex row conflicts
      with the chosen apex row. */
  lemma ConflictsAgree(peaks: seq<EnrichedPeak>, slots: seq<string>, r: seq<Option<nat>>, top: seq<Option<nat>>)
    requires WellFormed([r, top], slots, peaks) && ApexesDistinctPerCondition(peaks)
    ensures Conflicts(r, top) <==> Conflicts(ApexRow(peaks, r), ApexRow(peaks, top))
  {
    assert r in [r, top] && top in [r, top];
    var ar := ApexRow(peaks, r);
    var at := ApexRow(peaks, top);
    forall j | 0 <= j < |top| && top[j].Some?
      ensures r[j] == top[j] <==> ar[j] == at[j]
    {
      var x := top[j].value;
      if r[j].Some? {
        var y := r[j].value;
        if x != y {
          if x < y {
            assert peaks[x].peak.apex != peaks[y].peak.apex;
          } else {
            assert peaks[y].peak.apex != peaks[x].peak.apex;
          }
        }
      }
    }
    if Conflicts(r, top) {
      var j :| 0 <= j < |top| && j < |r| && top[j].Some? && r[j] == top[j];
      assert at[j].Some? && ar[j] == at[j];
    }
    if Conflicts(ar, at) {
      var j :| 0 <= j < |at| && j < |ar| && at[j].Some? && ar[j] == at[j];
      assert top[j].Some? && r[j] == top[j];
    }
  }

  lemma ApexRowsAppend(peaks: seq<EnrichedPeak>, a: seq<seq<Option<nat>>>, b: seq<seq<Option<nat>>>)
    ensures ApexRows(peaks, a + b) == ApexRows(peaks, a) + ApexRows(peaks, b)
  {
  }

  /** Deleting by apex value removes the apex rows of exactly the index rows deleted by index. */
  lemma {:induction false} RemoveAgrees(peaks: seq<EnrichedPeak>, slots: seq<string>, pool: seq<seq<Option<nat>>>, top: seq<Option<nat>>)
    requires WellFormed(pool, slots, peaks) && WellFormed([top], slots, peaks)
    requires ApexesDistinctPerCondition(peaks)
    ensures Remove(ApexRows(peaks, pool), ApexRow(peaks, top)) == ApexRows(peaks, Remove(pool, top))
  {
    if pool != [] {
      WellFormedParts(peaks, slots, pool, top);
      ConflictsAgree(peaks, slots, pool[0], top);
      RemoveAgrees(peaks, slots, pool[1..], top);
      assert pool == [pool[0]] + pool[1..];
      RemoveAgreesStep(peaks, pool[0], pool[1..], top);
    }
  }

  lemma WellFormedParts(peaks: seq<EnrichedPeak>, slots: seq<string>, pool: seq<seq<Option<nat>>>, top: seq<Option<nat>>)
    requires pool != [] && WellFormed(pool, slots, peaks) && WellFormed([top], slots, peaks)
    ensures WellFormed([pool[0], top], slots, peaks) && WellFormed(pool[1..], slots, peaks)
  {
    assert pool[0] in pool && top in [top];
    forall q | q in pool[1..] ensures q in pool {
    }
  }

  /** One row of `RemoveAgrees`: a row whose conflict the two pools judge alike, in front of a
      tail on which they already agree. */
  lemma RemoveAgreesStep(peaks: seq<EnrichedPeak>, r: seq<Option<nat>>, tail: seq<seq<Option<nat>>>, top: seq<Option<nat>>)
    requires Conflicts(r, top) <==> Conflicts(ApexRow(peaks, r), ApexRow(peaks, top))
    requires Remove(ApexRows(peaks, tail), ApexRow(peaks, top)) == ApexRows(peaks, Remove(tail, top))
    ensures Remove(ApexRows(peaks, [r] + tail), ApexRow(peaks, top)) == ApexRows(peaks, Remove([r] + tail, top))
  {
    var at := ApexRow(peaks, top);
    var head := if Conflicts(r, top) then [] else [r];
    ApexRowsCons(peaks, r, tail);
    RemoveCons(ApexRow(peaks, r), ApexRows(peaks, tail), at);
    RemoveCons(r, tail, top);
    ApexRowsAppend(peaks, head, Remove(tail, top));
    assert ApexRows(peaks, head) == if Conflicts(r, top) then [] else [ApexRow(peaks, r)];
  }

  lemma ApexRowsCons(peaks: seq<EnrichedPeak>, r: seq<Option<nat>>, tail: seq<seq<Option<nat>>>)
    ensures ApexRows(peaks, [r] + tail) == [ApexRow(peaks, r)] + ApexRows(peaks, tail)
  {
  }

  lemma RemoveCons<T(!new)>(r: seq<Option<T>>, tail: seq<seq<Option<T>>>, acc: seq<Option<T>>)
    ensures Remove([r] + tail, acc) == (if Conflicts(r, acc) then [] else [r]) + Remove(tail, acc)
  {
    assert ([r] + tail)[1..] == tail;
  }

  /** Both pools rank their rows alike. */
  lemma ScoresAgree(peaks: seq<EnrichedPeak>, pool: seq<seq<Option<nat>>>, t: real)
    ensures var apool := ApexRows(peaks, pool);
            seq(|apool|, i requires 0 <= i < |apool| => ApexScorer(t)(apool[i])) == Scores(pool, Scorer(peaks, t))
  {
    var apool := ApexRows(peaks, pool);
    forall i | 0 <= i < |pool| ensures ApexScorer(t)(apool[i]) == Scorer(peaks, t)(pool[i]) {
      assert |apool[i]| == |pool[i]|;
    }
  }

  /** A path holds no peak exactly when its apex row holds no apex. */
  lemma AllAbsentAgrees(peaks: seq<EnrichedPeak>, path: seq<Option<nat>>)
    ensures AllAbsent(ApexRow(peaks, path)) <==> AllAbsent(path)
  {
    var row := ApexRow(peaks, path);
    if !AllAbsent(path) {
      var j :| 0 <= j < |path| && path[j].Some?;
      assert row[j].Some?;
    }
  }

  /** While no two peaks of one condition share an apex, the search as written returns what the
      single-pool search returns. */
  lemma {:induction false} AlignAgrees(peaks: seq<EnrichedPeak>, slots: seq<string>, pool: seq<seq<Option<nat>>>, t: real)
    requires WellFormed(pool, slots, peaks) && ApexesDistinctPerCondition(peaks)
    ensures AlignAsWritten(pool, ApexRows(peaks, pool), ApexScorer(t)) == Some(Align(pool, Scorer(peaks, t)))
    decreases |pool|
  {
    if pool != [] {
      var apool := ApexRows(peaks, pool);
      var score := Scorer(peaks, t);
      ScoresAgree(peaks, pool, t);
      var m := FirstMax(Scores(pool, score));
      var top := pool[m];
      AllAbsentAgrees(peaks, top);
      AlignStep(pool, score);
      if !AllAbsent(top) {
        assert top in pool;
        RemoveAgrees(peaks, slots, pool, top);
        var rest := Remove(pool, top);
        assert WellFormed(rest, slots, peaks);
        AlignAgrees(peaks, slots, rest, t);
      }
    }
  }

  /** For a group in which no two peaks of one condition share an apex, `peak_alignment` as
      written keeps exactly the paths of the single-pool search. */
  lemma AsWrittenAgreesOnDistinctApexes(peaks: seq<EnrichedPeak>, known: seq<string>, cfg: KeyConfig, threshold: int)
    requires ApexesDistinctPerCondition(peaks)
    ensures AlignedPathsAsWritten(peaks, known, cfg, threshold) == Some(AlignedPaths(peaks, known, cfg, threshold))
  {
    InitialPoolWellFormed(peaks, known, cfg);
    AlignAgrees(peaks, SlotConditions(peaks, known), InitialPool(peaks, known, cfg), threshold as real);
  }

  // ---------------------------------------------------------------------------------------
  // Two peaks of one condition with the same apex

  /** A peak of condition "A" with apex `a`. */
  function PeakAt(id: string, a: real): EnrichedPeak {
    EnrichedPeak(Peak("P_1", "P", "G", "1", "1", "A", "global", id, a, a - 1.0, a + 1.0), "ph", 0, "")
  }

  /** Two peaks of condition "A" with the same apex. */
  function SharedApex(a: real): seq<EnrichedPeak> {
    [PeakAt("p0", a), PeakAt("p1", a)]
  }

  /** The candidates of that group: peak 0 alone, peak 1 alone, and the all-missing path. */
  lemma SharedApexCandidates(a: real, cfg: KeyConfig)
    ensures InitialPool(SharedApex(a), ["A"], cfg) == [[Some(0)], [Some(1)], [None]]
  {
    SharedApexSlots(a);
    var list := IndexList(SharedApex(a), "A", SkeletonSize(SharedApex(a), cfg));
    SharedApexList(a, cfg);
    assert IndexLists(SharedApex(a), ["A"], cfg) == [list];
    EnumerateOneList(list);
  }

  /** The group has the one condition slot "A". */
  lemma SharedApexSlots(a: real)
    ensures SlotConditions(SharedApex(a), ["A"]) == ["A"]
  {
    var slots := SlotConditions(SharedApex(a), ["A"]);
    assert ConditionsOf(SharedApex(a)) == ["A", "A"];
    assert forall c :: c in slots <==> c == "A";
    assert "A" in slots;
    forall i | 0 <= i < |slots| ensures slots[i] == "A" {
      assert slots[i] in slots;
    }
    if |slots| > 1 {
      SortedPositionUnique(slots, 0, 1);
      assert false;
    }
  }

  /** The index list of slot "A": both peaks, then the missing entry. */
  lemma SharedApexList(a: real, cfg: KeyConfig)
    ensures IndexList(SharedApex(a), "A", SkeletonSize(SharedApex(a), cfg)) == [Some(0), Some(1), None]
  {
    assert ConditionsOf(SharedApex(a)) == ["A", "A"];
    assert IndicesFrom(SharedApex(a), "A", 2) == [];
    assert IndicesFrom(SharedApex(a), "A", 1) == [Some(1)];
  }

  /** With a single slot the enumeration lists that slot's entries one row each, in order. */
  lemma EnumerateOneList(list: seq<Option<nat>>)
    requires |list| == 3
    ensures Enumerate([list]) == [[list[0]], [list[1]], [list[2]]]
  {
    var lists := [list];
    var none: seq<Option<nat>> := [None];
    assert MeshOrder(1) == [0];
    assert NoneRow(1) == none;
    assert Enumerate(lists) == FillEach(lists, [0], list, none);
    assert none[0 := list[2]] == [list[2]];
    assert FillEach(lists, [0], [], none) == [];
    assert FillEach(lists, [0], list[2..], none) == [[list[2]]];
    assert none[0 := list[1]] == [list[1]];
    assert FillEach(lists, [0], list[1..], none) == [[list[1]], [list[2]]] by {
      assert list[1..][1..] == list[2..];
    }
    assert none[0 := list[0]] == [list[0]];
    assert FillEach(lists, [0], list, none) == [[list[0]]] + FillEach(lists, [0], list[1..], none);
  }

  /** With a non-zero threshold a single apex scores 1 and the missing apex scores less. */
  lemma SharedApexScores(a: real, t: real)
    requires t != 0.0
    ensures Score([Some(a)], t) == 1.0
    ensures Score([None], t) < 1.0
  {
    ScoreIsOne([Some(a)], t);
    ScoreIsOne([None], t);
  }

  /** The candidates of a one-slot group with two peaks: each peak alone, then the all-missing
      path. */
  function TwoPeakPool(x: nat, y: nat): seq<seq<Option<nat>>> {
    [[Some(x)], [Some(y)], [None]]
  }

  /** The apex rows of those candidates when both peaks have apex `a`. */
  function SharedApexRows(a: real): seq<seq<Option<real>>> {
    [[Some(a)], [Some(a)], [None]]
  }

  lemma SharedApexRowsOf(a: real)
    ensures ApexRows(SharedApex(a), TwoPeakPool(0, 1)) == SharedApexRows(a)
  {
    assert Apexes(SharedApex(a)) == [a, a];
    assert ApexRow(SharedApex(a), [Some(0)]) == [Some(a)];
    assert ApexRow(SharedApex(a), [Some(1)]) == [Some(a)];
    assert ApexRow(SharedApex(a), [None]) == [None];
  }

  /** A row with a present entry conflicts with itself. */
  lemma ConflictsSelf<T>(r: seq<Option<T>>, j: nat)
    requires j < |r| && r[j].Some?
    ensures Conflicts(r, r)
  {
  }

  /** Deleting the rows equal to apex `a` in the one column leaves only the all-missing row. */
  lemma RemoveSharedApex(a: real)
    ensures Remove(SharedApexRows(a), [Some(a)]) == [[None]]
  {
    var top := [Some(a)];
    var none: seq<Option<real>> := [None];
    ConflictsSelf(top, 0);
    assert !Conflicts(none, top);
    RemoveCons(none, [], top);
    RemoveCons(top, [none], top);
    RemoveCons(top, [top, none], top);
    assert SharedApexRows(a) == [top] + [top, none];
  }

  /** Deleting the rows equal to `x` in the one column of `[[x], [y], [None]]`, with `x` present
      and different from `y`, leaves `[[y], [None]]`. */
  lemma RemoveShared<T(!new)>(x: Option<T>, y: Option<T>)
    requires x.Some? && y != x
    ensures Remove([[x], [y], [None]], [x]) == [[y], [None]]
  {
    var none: seq<Option<T>> := [None];
    ConflictsSelf([x], 0);
    assert !Conflicts([y], [x]);
    assert !Conflicts(none, [x]);
    RemoveCons(none, [], [x]);
    RemoveCons([y], [none], [x]);
    RemoveCons([x], [[y], none], [x]);
    assert [[x], [y], none] == [[x]] + [[y], none];
  }

  /** Deleting the rows equal to `y` from `[[y], [None]]` leaves the all-missing row. */
  lemma RemoveLast<T(!new)>(y: Option<T>)
    requires y.Some?
    ensures Remove([[y], [None]], [y]) == [[None]]
  {
    var none: seq<Option<T>> := [None];
    ConflictsSelf([y], 0);
    assert !Conflicts(none, [y]);
    RemoveCons(none, [], [y]);
    RemoveCons([y], [none], [y]);
  }

  lemma FirstMaxOfThree(p: real, q: real, r: real)
    requires p >= q && p > r
    ensures FirstMax([p, q, r]) == 0
  {
  }

  lemma FirstMaxOfTwo(p: real, r: real)
    requires p > r
    ensures FirstMax([p, r]) == 0
  {
  }

  /** Once only the all-missing apex row is left, the search as written stops. */
  lemma AsWrittenLastRound(ipool: seq<seq<Option<nat>>>, ascore: seq<Option<real>> -> real)
    ensures AlignAsWritten(ipool, [[None]], ascore) == Some([])
  {
    var apool: seq<seq<Option<real>>> := [[None]];
    assert seq(|apool|, i requires 0 <= i < |apool| => ascore(apool[i])) == [ascore([None])];
  }

  /** As written, two peaks of one slot with the same apex: the first round keeps the first
      peak and deletes both apex rows from the apex pool but only the first peak's row from
      the index pool, so the second round finds only the all-missing apex row. */
  lemma AsWrittenOnTwoPeaks(x: nat, y: nat, a: real, ascore: seq<Option<real>> -> real)
    requires x != y
    requires ascore([Some(a)]) > ascore([None])
    ensures AlignAsWritten(TwoPeakPool(x, y), SharedApexRows(a), ascore) == Some([[Some(x)]])
  {
    var apool := SharedApexRows(a);
    var p := ascore([Some(a)]);
    var r := ascore([None]);
    assert seq(|apool|, i requires 0 <= i < |apool| => ascore(apool[i])) == [p, p, r];
    FirstMaxOfThree(p, p, r);
    assert apool[0][0].Some?;
    var ipool := TwoPeakPool(x, y);
    assert ipool[0] == [Some(x)] && apool[0] == [Some(a)];
    RemoveSharedApex(a);
    RemoveShared(Some(x), Some(y));
    AsWrittenLastRound([[Some(y)], [None]], ascore);
    AsWrittenKeeps(ipool, apool, ascore, 0, []);
    assert [ipool[0]] + [] == [[Some(x)]];
  }

  /** The single-pool search on the same candidates keeps the first peak, then the second. */
  lemma CorrectedOnTwoPeaks(x: nat, y: nat, score: seq<Option<nat>> -> real)
    requires x != y
    requires score([Some(x)]) >= score([Some(y)]) > score([None])
    ensures Align(TwoPeakPool(x, y), score) == [[Some(x)], [Some(y)]]
  {
    var pool := TwoPeakPool(x, y);
    assert Scores(pool, score) == [score([Some(x)]), score([Some(y)]), score([None])];
    FirstMaxOfThree(score([Some(x)]), score([Some(y)]), score([None]));
    AlignStep(pool, score);
    RemoveShared(Some(x), Some(y));
    CorrectedSecondRound(y, score);
  }

  lemma CorrectedSecondRound(y: nat, score: seq<Option<nat>> -> real)
    requires score([Some(y)]) > score([None])
    ensures Align([[Some(y)], [None]], score) == [[Some(y)]]
  {
    var rest: seq<seq<Option<nat>>> := [[Some(y)], [None]];
    assert Scores(rest, score) == [score([Some(y)]), score([None])];
    FirstMaxOfTwo(score([Some(y)]), score([None]));
    AlignStep(rest, score);
    RemoveLast(Some(y));
    var last: seq<seq<Option<nat>>> := [[None]];
    assert Scores(last, score) == [score([None])];
    AlignStep(last, score);
  }

  /** The scores the single-pool search gives the candidates of the shared-apex group. */
  lemma ScorerOnShared(a: real, t: real)
    requires t != 0.0
    ensures Scorer(SharedApex(a), t)([Some(0)]) == 1.0
    ensures Scorer(SharedApex(a), t)([Some(1)]) == 1.0
    ensures Scorer(SharedApex(a), t)([None]) < 1.0
  {
    SharedApexScores(a, t);
    assert Apexes(SharedApex(a)) == [a, a];
    assert ApexRow(SharedApex(a), [Some(0)]) == [Some(a)];
    assert ApexRow(SharedApex(a), [Some(1)]) == [Some(a)];
    assert ApexRow(SharedApex(a), [None]) == [None];
  }

  /** With a non-zero threshold the search as written keeps peak 0 only: deleting by apex value
      also removes peak 1's row from the apex pool. The single-pool search keeps both peaks. */
  lemma SharedApexDropsPeak(a: real, cfg: KeyConfig, threshold: int)
    requires threshold != 0
    ensures AlignedPathsAsWritten(SharedApex(a), ["A"], cfg, threshold) == Some([[Some(0)]])
    ensures AlignedPaths(SharedApex(a), ["A"], cfg, threshold) == [[Some(0)], [Some(1)]]
  {
    var t := threshold as real;
    SharedApexCandidates(a, cfg);
    SharedApexRowsOf(a);
    SharedApexScores(a, t);
    AsWrittenOnTwoPeaks(0, 1, a, ApexScorer(t));
    ScorerOnShared(a, t);
    CorrectedOnTwoPeaks(0, 1, Scorer(SharedApex(a), t));
  }
}
