/** `matching_i` (PeakMatching.py:338-355): the work done for one `match_id` group, PTM matching
    followed by the condition alignment of the enriched global peaks. */
module GroupMatching {
  import opened Wrappers
  import opened Grouping
  import opened PtmMatcher
  import opened Alignment

  /** What one group yields: nothing for a group without global peak, the error raised when
      there is no channel to loop over, or the aligned rows. */
  datatype GroupOutcome = Skipped | Failed | Aligned(tracks: seq<Track>)

  function MatchGroupSpec(group: seq<Peak>, ptms: seq<string>, conditions: seq<string>, cfg: KeyConfig, threshold: int)
    : (out: GroupOutcome)
    ensures out.Skipped? <==> GlobalRows(group) == []
    ensures out.Aligned? ==> |out.tracks| <= |GlobalRows(group)|
  {
    var ptm := PtmMatchingSpec(group, ptms, cfg, threshold);
    if ptm.NoGlobalPeaks? then Skipped
    else if ptm.Unbound? then Failed
    else
      EnrichedOutcome(group, ptms, cfg, threshold);
      TracksResolve(ptm.peaks, conditions, cfg, threshold);
      Aligned(ConditionMatchingSpec(ptm.peaks, conditions, cfg, threshold))
  }

  /** `matching_i`: PTM matching, then (with the row positions as the `index` column) the
      condition matching of its result. */
  method MatchGroup(group: seq<Peak>, ptms: seq<string>, conditions: seq<string>, cfg: KeyConfig, threshold: int)
    returns (outcome: GroupOutcome)
    ensures outcome == MatchGroupSpec(group, ptms, conditions, cfg, threshold)
  {
    var ptm := PtmMatching(group, ptms, cfg, threshold);
    match ptm
    case NoGlobalPeaks =>
      outcome := Skipped;
    case Unbound =>
      outcome := Failed;
    case Enriched(peaks) =>
      EnrichedOutcome(group, ptms, cfg, threshold);
      var tracks := ConditionMatching(peaks, conditions, cfg, threshold);
      outcome := Aligned(tracks);
  }

  /** A group yields nothing exactly when it has no global peak, and fails exactly when it has
      global peaks but no channel is known. */
  lemma MatchGroupCases(group: seq<Peak>, ptms: seq<string>, conditions: seq<string>, cfg: KeyConfig, threshold: int)
    ensures var out := MatchGroupSpec(group, ptms, conditions, cfg, threshold);
      && (out.Skipped? <==> forall i | 0 <= i < |group| :: group[i].ptm != GlobalLabel)
      && (out.Failed? <==> (exists i | 0 <= i < |group| :: group[i].ptm == GlobalLabel)
                           && forall l :: !IsChannel(group, ptms, l))
  {
    PtmMatchingCases(group, ptms, cfg, threshold);
  }

  /** Changing the cluster of a row does not change its group columns when cluster is not one
      of them. */
  lemma ValuesIgnoreCluster(p: Peak, q: Peak, cfg: KeyConfig)
    requires q == p.(cluster := q.cluster)
    requires cfg.useCluster ==> q == p
    ensures Values(q, GroupColumns(cfg)) == Values(p, GroupColumns(cfg))
  {
    var cols := GroupColumns(cfg);
    forall i | 0 <= i < |cols| ensures ColumnValue(q, cols[i]) == ColumnValue(p, cols[i]) {
      if !cfg.useCluster {
        assert cols[i] != ClusterColumn;
      }
    }
  }

  /** Every output row of a group carries the group columns of the group's first global peak,
      and there are at most as many rows as global peaks. */
  lemma MatchGroupKeys(group: seq<Peak>, ptms: seq<string>, conditions: seq<string>, cfg: KeyConfig, threshold: int)
    requires MatchGroupSpec(group, ptms, conditions, cfg, threshold).Aligned?
    ensures var tracks := MatchGroupSpec(group, ptms, conditions, cfg, threshold).tracks;
            && |tracks| <= |GlobalRows(group)|
            && forall tr | tr in tracks :: tr.groupValues == Values(GlobalRows(group)[0], GroupColumns(cfg))
  {
    EnrichedOutcome(group, ptms, cfg, threshold);
    var peaks := PtmMatchingSpec(group, ptms, cfg, threshold).peaks;
    TracksResolve(peaks, conditions, cfg, threshold);
    ValuesIgnoreCluster(GlobalRows(group)[0], peaks[0].peak, cfg);
  }

  /** Whatever the threshold, every enriched global peak of the group appears in some output
      row. */
  lemma MatchGroupCovers(group: seq<Peak>, ptms: seq<string>, conditions: seq<string>, cfg: KeyConfig, threshold: int, x: nat)
    requires MatchGroupSpec(group, ptms, conditions, cfg, threshold).Aligned?
    requires x < |GlobalRows(group)|
    ensures var peaks := PtmMatchingSpec(group, ptms, cfg, threshold).peaks;
            var tracks := MatchGroupSpec(group, ptms, conditions, cfg, threshold).tracks;
            exists i, j :: 0 <= i < |tracks| && 0 <= j < |tracks[i].members| && tracks[i].members[j] == Value(peaks[x])
  {
    var peaks := PtmMatchingSpec(group, ptms, cfg, threshold).peaks;
    EnrichedOutcome(group, ptms, cfg, threshold);
    assert MatchGroupSpec(group, ptms, conditions, cfg, threshold).tracks == ConditionMatchingSpec(peaks, conditions, cfg, threshold);
    ConditionMatchingCovers(peaks, conditions, cfg, threshold, x);
  }
}
