/** PTM-to-global peak matching (PeakMatching.py:88-198): every global peak of a group is
    compared with the same-condition peaks of a PTM channel, and the matches are folded back
    onto the global peak as a count and a ';'-joined list of matched PTM peak ids. */
module PtmMatcher {
  import opened Wrappers
  import opened Seqs
  import opened Text
  import opened Grouping

  /** The `ptm` label of unmodified peaks. */
  const GlobalLabel: string := "global"

  /** A row of a PTM channel table: a detected PTM peak, or a placeholder row that only
      carries a join key and the channel label (all peak fields missing). */
  datatype ChannelRow = Detected(peak: Peak) | Placeholder(key: seq<string>, channel: string)
  {
    function Ptm(): string {
      if Detected? then peak.ptm else channel
    }
  }

  /** `group_cols + ['condition']`: the columns a global peak and its channel rows are merged on. */
  function JoinKey(p: Peak, cfg: KeyConfig): seq<string> {
    Values(p, GroupColumns(cfg)) + [p.condition]
  }

  function RowKey(c: ChannelRow, cfg: KeyConfig): seq<string> {
    match c
    case Detected(p) => JoinKey(p, cfg)
    case Placeholder(k, _) => k
  }

  /** The numeric columns of the PTM side of a merged row; missing for a placeholder row and
      for a global peak that found no partner. */
  function SideApex(side: Option<ChannelRow>): Option<real> {
    if side.Some? && side.value.Detected? then Some(side.value.peak.apex) else None
  }

  function SideLeft(side: Option<ChannelRow>): Option<real> {
    if side.Some? && side.value.Detected? then Some(side.value.peak.left) else None
  }

  function SideRight(side: Option<ChannelRow>): Option<real> {
    if side.Some? && side.value.Detected? then Some(side.value.peak.right) else None
  }

  /** `x < y` on two table cells: false as soon as one of them is missing (NaN). */
  predicate Below(x: Option<real>, y: Option<real>) {
    x.Some? && y.Some? && x.value < y.value
  }

  function Abs(x: real): real {
    if x < 0.0 then -x else x
  }

  /** `ptm_eval` on one merged row: the apexes lie strictly closer than the cutoff and the
      closed intervals [left, right] of the two peaks meet; a missing PTM side never matches. */
  function PtmEval(g: Peak, side: Option<ChannelRow>, cutoff: int): (matched: bool)
    ensures matched <==>
      && side.Some? && side.value.Detected?
      && -(cutoff as real) < g.apex - side.value.peak.apex < cutoff as real
      && side.value.peak.left <= g.right
      && g.left <= side.value.peak.right
  {
    var apexCondition := SideApex(side).Some? && Abs(g.apex - SideApex(side).value) < cutoff as real;
    var overlapCondition := !(Below(Some(g.right), SideLeft(side)) || Below(SideRight(side), Some(g.left)));
    apexCondition && overlapCondition
  }

  /** A row of the merged table: a global peak, its PTM partner (None when the left merge
      found none), and the `ptm_eval` flag. */
  datatype MergedRow = MergedRow(global: Peak, side: Option<ChannelRow>, flag: bool)

  function MergedWith(g: Peak, partners: seq<ChannelRow>, cutoff: int): (ms: seq<MergedRow>)
    ensures |ms| == |partners|
    ensures forall m | m in ms :: m.global == g
  {
    if partners == [] then []
    else [MergedRow(g, Some(partners[0]), PtmEval(g, Some(partners[0]), cutoff))]
         + MergedWith(g, partners[1..], cutoff)
  }

  /** The channel rows that share a global peak's join key. */
  function Partners(g: Peak, rows: seq<ChannelRow>, cfg: KeyConfig): seq<ChannelRow> {
    Filter(rows, (c: ChannelRow) => RowKey(c, cfg) == JoinKey(g, cfg))
  }

  /** The rows one global peak contributes to the left merge. */
  function MergeOne(g: Peak, rows: seq<ChannelRow>, cfg: KeyConfig, cutoff: int): (ms: seq<MergedRow>)
    ensures forall m | m in ms :: m.global == g
  {
    var partners := Partners(g, rows, cfg);
    if partners == [] then [MergedRow(g, None, PtmEval(g, None, cutoff))]
    else MergedWith(g, partners, cutoff)
  }

  /** `global_df.merge(ptm_df_i, on=group_cols+['condition'], how='left')` with its flag column. */
  function Merge(globals: seq<Peak>, rows: seq<ChannelRow>, cfg: KeyConfig, cutoff: int): (ms: seq<MergedRow>)
    ensures forall m | m in ms :: m.global in globals
  {
    if globals == [] then []
    else MergeOne(globals[0], rows, cfg, cutoff) + Merge(globals[1..], rows, cfg, cutoff)
  }

  /** The merged rows summarised together with global peak `g`: the `groupby` of lines 179
      and 190 is keyed on the join key and `peak_apex`, not on the peak id. */
  function SummaryRows(merged: seq<MergedRow>, g: Peak, cfg: KeyConfig): seq<MergedRow> {
    Filter(merged, (m: MergedRow) => JoinKey(m.global, cfg) == JoinKey(g, cfg) && m.global.apex == g.apex)
  }

  /** `ptm: 'sum'` over the 0/1 flags. */
  function CountFlags(ms: seq<MergedRow>): nat {
    if ms == [] then 0 else (if ms[0].flag then 1 else 0) + CountFlags(ms[1..])
  }

  /** The PTM-side columns that are carried into the summary. */
  datatype Field = PeakIdField | ClusterField

  function FieldOf(p: Peak, f: Field): string {
    match f
    case PeakIdField => p.peakId
    case ClusterField => p.cluster
  }

  /** `replace_ptm_col_values`: the PTM side's value (as a string) when the row matched, else None. */
  function KeepIfMatched(m: MergedRow, f: Field): Option<string> {
    if m.flag && m.side.Some? && m.side.value.Detected? then Some(FieldOf(m.side.value.peak, f)) else None
  }

  function KeptValues(ms: seq<MergedRow>, f: Field): seq<Option<string>> {
    if ms == [] then [] else [KeepIfMatched(ms[0], f)] + KeptValues(ms[1..], f)
  }

  /** A global peak with its summary for one PTM channel. `peak.cluster` holds the extended
      cluster string when cluster is not a grouping column. */
  datatype EnrichedPeak = EnrichedPeak(peak: Peak, channel: string, matchCount: nat, matchedIds: string)

  function EnrichOne(g: Peak, merged: seq<MergedRow>, channel: string, cfg: KeyConfig): EnrichedPeak {
    var summary := SummaryRows(merged, g, cfg);
    var ids := JoinPresent(";", KeptValues(summary, PeakIdField));
    var cluster :=
      if cfg.useCluster then g.cluster
      else JoinPresent(";", [Some(g.cluster), Some(JoinPresent(";", KeptValues(summary, ClusterField)))]);
    EnrichedPeak(g.(cluster := cluster), channel, CountFlags(summary), ids)
  }

  /** Lines 170-197 for one channel: one enriched row per global peak, in order; only the
      cluster column of a peak may change, and only when cluster is not a grouping column. */
  function Enrich(globals: seq<Peak>, rows: seq<ChannelRow>, channel: string, cfg: KeyConfig, cutoff: int)
    : (enriched: seq<EnrichedPeak>)
    ensures |enriched| == |globals|
    ensures forall i | 0 <= i < |globals| ::
      && enriched[i].channel == channel
      && enriched[i].peak == globals[i].(cluster := enriched[i].peak.cluster)
      && (cfg.useCluster ==> enriched[i].peak == globals[i])
  {
    var merged := Merge(globals, rows, cfg, cutoff);
    seq(|globals|, i requires 0 <= i < |globals| => EnrichOne(globals[i], merged, channel, cfg))
  }

  // ---------------------------------------------------------------------------------------
  // The per-peak reading of the summary

  /** The channel rows that match global peak `g`: same join key and `ptm_eval` passes. */
  function Matched(g: Peak, rows: seq<ChannelRow>, cfg: KeyConfig, cutoff: int): seq<ChannelRow> {
    Filter(rows, (c: ChannelRow) => RowKey(c, cfg) == JoinKey(g, cfg) && PtmEval(g, Some(c), cutoff))
  }

  function FieldValues(cs: seq<ChannelRow>, f: Field): seq<Option<string>> {
    if cs == [] then [] else [if cs[0].Detected? then Some(FieldOf(cs[0].peak, f)) else None] + FieldValues(cs[1..], f)
  }

  /** No two global peaks of one join key share an apex. */
  predicate DistinctApexes(globals: seq<Peak>, cfg: KeyConfig) {
    forall i, j | 0 <= i < j < |globals| ::
      JoinKey(globals[i], cfg) == JoinKey(globals[j], cfg) ==> globals[i].apex != globals[j].apex
  }

  lemma {:induction false} SummaryIsOwnMerge(globals: seq<Peak>, rows: seq<ChannelRow>, cfg: KeyConfig, cutoff: int, i: nat)
    requires i < |globals| && DistinctApexes(globals, cfg)
    ensures SummaryRows(Merge(globals, rows, cfg, cutoff), globals[i], cfg) == MergeOne(globals[i], rows, cfg, cutoff)
  {
    var g := globals[i];
    var same := (m: MergedRow) => JoinKey(m.global, cfg) == JoinKey(g, cfg) && m.global.apex == g.apex;
    var head := MergeOne(globals[0], rows, cfg, cutoff);
    var tail := Merge(globals[1..], rows, cfg, cutoff);
    FilterAppend(head, tail, same);
    assert DistinctApexes(globals[1..], cfg) by {
      forall a, b | 0 <= a < b < |globals[1..]|
        ensures JoinKey(globals[1..][a], cfg) == JoinKey(globals[1..][b], cfg) ==> globals[1..][a].apex != globals[1..][b].apex
      {
        assert globals[1..][a] == globals[a + 1] && globals[1..][b] == globals[b + 1];
      }
    }
    if i == 0 {
      FilterAll(head, same);
      forall m | m in tail ensures !same(m) {
        var k :| 0 <= k < |globals[1..]| && globals[1..][k] == m.global;
        assert m.global == globals[k + 1];
      }
      FilterNone(tail, same);
    } else {
      FilterNone(head, same);
      SummaryIsOwnMerge(globals[1..], rows, cfg, cutoff, i - 1);
      assert globals[1..][i - 1] == g;
    }
  }

  lemma {:induction false} MergedWithCount(g: Peak, ps: seq<ChannelRow>, cutoff: int)
    ensures CountFlags(MergedWith(g, ps, cutoff)) == |Filter(ps, (c: ChannelRow) => PtmEval(g, Some(c), cutoff))|
  {
    if ps != [] {
      MergedWithCount(g, ps[1..], cutoff);
    }
  }

  lemma {:induction false} MergedWithKept(g: Peak, ps: seq<ChannelRow>, cutoff: int, f: Field)
    ensures Present(KeptValues(MergedWith(g, ps, cutoff), f))
         == Present(FieldValues(Filter(ps, (c: ChannelRow) => PtmEval(g, Some(c), cutoff)), f))
  {
    var pass := (c: ChannelRow) => PtmEval(g, Some(c), cutoff);
    if ps != [] {
      MergedWithKept(g, ps[1..], cutoff, f);
      var ms := MergedWith(g, ps, cutoff);
      assert KeptValues(ms, f) == [KeepIfMatched(ms[0], f)] + KeptValues(ms[1..], f);
      PresentAppend([KeepIfMatched(ms[0], f)], KeptValues(ms[1..], f));
      if pass(ps[0]) {
        var fs := FieldValues(Filter(ps, pass), f);
        assert Filter(ps, pass) == [ps[0]] + Filter(ps[1..], pass);
        assert fs == [Some(FieldOf(ps[0].peak, f))] + FieldValues(Filter(ps[1..], pass), f);
        PresentAppend([Some(FieldOf(ps[0].peak, f))], FieldValues(Filter(ps[1..], pass), f));
      } else {
        assert Filter(ps, pass) == Filter(ps[1..], pass);
        assert !ms[0].flag;
        var none: seq<Option<string>> := [None];
        assert [KeepIfMatched(ms[0], f)] == none;
        assert Present(none) == [] by {
          assert none[1..] == [];
        }
      }
    }
  }

  /** The partners that pass `ptm_eval` are exactly the matched rows. */
  lemma {:induction false} MatchedArePassingPartners(g: Peak, rows: seq<ChannelRow>, cfg: KeyConfig, cutoff: int)
    ensures Matched(g, rows, cfg, cutoff)
         == Filter(Partners(g, rows, cfg), (c: ChannelRow) => PtmEval(g, Some(c), cutoff))
  {
    var pass := (c: ChannelRow) => PtmEval(g, Some(c), cutoff);
    if rows != [] {
      MatchedArePassingPartners(g, rows[1..], cfg, cutoff);
      var head := if RowKey(rows[0], cfg) == JoinKey(g, cfg) then [rows[0]] else [];
      assert Partners(g, rows, cfg) == head + Partners(g, rows[1..], cfg);
      FilterAppend(head, Partners(g, rows[1..], cfg), pass);
      if head != [] {
        assert Filter(head, pass) == (if pass(rows[0]) then [rows[0]] else []) by {
          assert head[1..] == [];
        }
      }
    }
  }

  /** When no two global peaks of one join key share an apex, the summary of a global peak
      counts exactly the channel rows that match it, lists exactly their ids (empty ids
      dropped), and, when cluster is not a grouping column, appends their clusters to its own. */
  lemma {:induction false} EnrichPerPeak(globals: seq<Peak>, rows: seq<ChannelRow>, channel: string, cfg: KeyConfig, cutoff: int, i: nat)
    requires i < |globals| && DistinctApexes(globals, cfg)
    ensures var e := Enrich(globals, rows, channel, cfg, cutoff)[i];
            var matched := Matched(globals[i], rows, cfg, cutoff);
            && e.matchCount == |matched|
            && e.matchedIds == JoinPresent(";", FieldValues(matched, PeakIdField))
            && (!cfg.useCluster ==>
                 e.peak.cluster == JoinPresent(";", [Some(globals[i].cluster)] + FieldValues(matched, ClusterField)))
  {
    var g := globals[i];
    var pass := (c: ChannelRow) => PtmEval(g, Some(c), cutoff);
    var partners := Partners(g, rows, cfg);
    var matched := Matched(g, rows, cfg, cutoff);
    SummaryIsOwnMerge(globals, rows, cfg, cutoff, i);
    MatchedArePassingPartners(g, rows, cfg, cutoff);
    var summary := MergeOne(g, rows, cfg, cutoff);
    assert Present(KeptValues(summary, PeakIdField)) == Present(FieldValues(matched, PeakIdField))
        && Present(KeptValues(summary, ClusterField)) == Present(FieldValues(matched, ClusterField))
        && CountFlags(summary) == |matched|
    by {
      if partners == [] {
        FilterNone(partners, pass);
      } else {
        MergedWithCount(g, partners, cutoff);
        MergedWithKept(g, partners, cutoff, PeakIdField);
        MergedWithKept(g, partners, cutoff, ClusterField);
      }
    }
    var clusters := JoinPresent(";", KeptValues(summary, ClusterField));
    JoinPresentFlatten(g.cluster, FieldValues(matched, ClusterField));
    PresentAppend([Some(g.cluster)], FieldValues(matched, ClusterField));
  }

  /** The summary rows of a peak whose look-alikes match nothing carry no set flag. */
  lemma UnmatchedSummaryUnflagged(globals: seq<Peak>, rows: seq<ChannelRow>, cfg: KeyConfig, cutoff: int, g: Peak)
    requires forall h | h in globals && JoinKey(h, cfg) == JoinKey(g, cfg) && h.apex == g.apex ::
               Matched(h, rows, cfg, cutoff) == []
    ensures forall m | m in SummaryRows(Merge(globals, rows, cfg, cutoff), g, cfg) :: !m.flag
  {
    var summary := SummaryRows(Merge(globals, rows, cfg, cutoff), g, cfg);
    forall m | m in summary ensures !m.flag {
      var h := m.global;
      MergeMember(globals, rows, cfg, cutoff, m);
      MatchedArePassingPartners(h, rows, cfg, cutoff);
      var partners := Partners(h, rows, cfg);
      if partners != [] {
        MergedWithSide(h, partners, cutoff, m);
        assert m.side.value !in Filter(partners, (c: ChannelRow) => PtmEval(h, Some(c), cutoff));
      }
    }
  }

  /** A global peak none of whose summary peers has a match (in particular every peak of a
      channel made only of placeholder rows) gets count 0, the empty id string, and keeps
      its cluster. */
  lemma EnrichWithoutMatches(globals: seq<Peak>, rows: seq<ChannelRow>, channel: string, cfg: KeyConfig, cutoff: int, i: nat)
    requires i < |globals|
    requires forall h | h in globals && JoinKey(h, cfg) == JoinKey(globals[i], cfg) && h.apex == globals[i].apex ::
               Matched(h, rows, cfg, cutoff) == []
    ensures var e := Enrich(globals, rows, channel, cfg, cutoff)[i];
            e.matchCount == 0 && e.matchedIds == "" && e.peak == globals[i]
  {
    var g := globals[i];
    var summary := SummaryRows(Merge(globals, rows, cfg, cutoff), g, cfg);
    UnmatchedSummaryUnflagged(globals, rows, cfg, cutoff, g);
    NoFlagsNothingKept(summary);
    assert Present([Some(g.cluster), Some("")]) == (if g.cluster != "" then [g.cluster] else []) by {
      assert [Some(g.cluster), Some("")][1..] == [Some("")];
      assert [Some("")][1..] == [];
    }
  }

  lemma {:induction false} MergeMember(globals: seq<Peak>, rows: seq<ChannelRow>, cfg: KeyConfig, cutoff: int, m: MergedRow)
    requires m in Merge(globals, rows, cfg, cutoff)
    ensures m in MergeOne(m.global, rows, cfg, cutoff)
  {
    if m !in MergeOne(globals[0], rows, cfg, cutoff) {
      MergeMember(globals[1..], rows, cfg, cutoff, m);
    }
  }

  lemma {:induction false} MergedWithSide(g: Peak, ps: seq<ChannelRow>, cutoff: int, m: MergedRow)
    requires m in MergedWith(g, ps, cutoff)
    ensures m.side.Some? && m.side.value in ps && m.flag == PtmEval(g, m.side, cutoff)
  {
    if m != MergedWith(g, ps, cutoff)[0] {
      MergedWithSide(g, ps[1..], cutoff, m);
    }
  }

  lemma {:induction false} NoFlagsNothingKept(ms: seq<MergedRow>)
    requires forall m | m in ms :: !m.flag
    ensures CountFlags(ms) == 0
    ensures Present(KeptValues(ms, PeakIdField)) == [] && Present(KeptValues(ms, ClusterField)) == []
  {
    if ms != [] {
      NoFlagsNothingKept(ms[1..]);
      assert ms[1..] == ms[1..];
    }
  }

  // ---------------------------------------------------------------------------------------
  // Channels and the loop over them (lines 142-198)

  function GlobalRows(group: seq<Peak>): seq<Peak> {
    Filter(group, (p: Peak) => p.ptm == GlobalLabel)
  }

  function PtmRows(group: seq<Peak>): seq<ChannelRow> {
    var ps := Filter(group, (p: Peak) => p.ptm != GlobalLabel);
    seq(|ps|, i requires 0 <= i < |ps| => Detected(ps[i]))
  }

  /** `skeleton_df`: the distinct join keys of the group (global and PTM rows alike). */
  function SkeletonKeys(group: seq<Peak>, cfg: KeyConfig): seq<seq<string>> {
    Distinct(seq(|group|, i requires 0 <= i < |group| => JoinKey(group[i], cfg)))
  }

  function Labels(rows: seq<ChannelRow>): seq<string> {
    seq(|rows|, i requires 0 <= i < |rows| => rows[i].Ptm())
  }

  function Placeholders(keys: seq<seq<string>>, channel: string): seq<ChannelRow> {
    seq(|keys|, i requires 0 <= i < |keys| => Placeholder(keys[i], channel))
  }

  /** One pass of the loop at lines 156-160. */
  function AddPlaceholders(rows: seq<ChannelRow>, channel: string, keys: seq<seq<string>>): seq<ChannelRow> {
    if channel !in Labels(rows) && channel != GlobalLabel then rows + Placeholders(keys, channel) else rows
  }

  /** `ptm_df` after the loop has visited `known` in order. */
  function WithPlaceholders(rows: seq<ChannelRow>, known: seq<string>, keys: seq<seq<string>>): seq<ChannelRow>
    decreases |known|
  {
    if known == [] then rows
    else AddPlaceholders(WithPlaceholders(rows, known[..|known| - 1], keys), known[|known| - 1], keys)
  }

  function ChannelRows(group: seq<Peak>, known: seq<string>, cfg: KeyConfig): seq<ChannelRow> {
    WithPlaceholders(PtmRows(group), known, SkeletonKeys(group, cfg))
  }

  /** One table of `ptm_df.groupby('ptm')`. */
  function ChannelSlice(rows: seq<ChannelRow>, channel: string): seq<ChannelRow> {
    Filter(rows, (c: ChannelRow) => c.Ptm() == channel)
  }

  /** What `ptm_matching` produces: `None` for a group without global peak, the
      `UnboundLocalError` of line 198 when there is no channel to loop over, or the table. */
  datatype PtmOutcome = NoGlobalPeaks | Unbound | Enriched(peaks: seq<EnrichedPeak>)

  /** Every iteration rebuilds the result from the unchanged global table, so the table of
      the last channel in sorted order is the one returned. */
  function PtmMatchingSpec(group: seq<Peak>, known: seq<string>, cfg: KeyConfig, cutoff: int): (out: PtmOutcome)
    ensures out.NoGlobalPeaks? <==> GlobalRows(group) == []
    ensures out.Enriched? ==> |out.peaks| == |GlobalRows(group)| > 0
  {
    var globals := GlobalRows(group);
    if globals == [] then NoGlobalPeaks
    else
      var rows := ChannelRows(group, known, cfg);
      var channels := SortedDistinct(Labels(rows));
      if channels == [] then Unbound
      else
        var last := channels[|channels| - 1];
        Enriched(Enrich(globals, ChannelSlice(rows, last), last, cfg, cutoff))
  }

  /** `ptm_matching`: pads the channel table with placeholder rows for every known channel the
      group lacks, then merges the global peaks with each channel in turn. */
  method PtmMatching(group: seq<Peak>, known: seq<string>, cfg: KeyConfig, cutoff: int) returns (outcome: PtmOutcome)
    ensures outcome == PtmMatchingSpec(group, known, cfg, cutoff)
  {
    var keys := SkeletonKeys(group, cfg);
    var globals := GlobalRows(group);
    if |globals| == 0 {
      return NoGlobalPeaks;
    }
    var rows := PtmRows(group);
    for i := 0 to |known|
      invariant rows == WithPlaceholders(PtmRows(group), known[..i], keys)
    {
      assert known[..i + 1][..i] == known[..i];
      if known[i] !in Labels(rows) && known[i] != GlobalLabel {
        rows := rows + Placeholders(keys, known[i]);
      }
    }
    assert known[..|known|] == known;
    var channels := SortedDistinct(Labels(rows));
    var final: Option<seq<EnrichedPeak>> := None;
    for i := 0 to |channels|
      invariant final == if i == 0 then None
                         else Some(Enrich(globals, ChannelSlice(rows, channels[i - 1]), channels[i - 1], cfg, cutoff))
    {
      final := Some(Enrich(globals, ChannelSlice(rows, channels[i]), channels[i], cfg, cutoff));
    }
    match final
    case None => outcome := Unbound;
    case Some(peaks) => outcome := Enriched(peaks);
  }

  /** A channel of a group: a non-global label that some row of the group carries or that
      the whole table knows. */
  predicate IsChannel(group: seq<Peak>, known: seq<string>, l: string) {
    l != GlobalLabel && (l in known || exists i | 0 <= i < |group| :: group[i].ptm == l)
  }

  lemma LabelsAppend(a: seq<ChannelRow>, b: seq<ChannelRow>)
    ensures Labels(a + b) == Labels(a) + Labels(b)
  {
  }

  lemma {:induction false} PlaceholderLabels(rows: seq<ChannelRow>, known: seq<string>, keys: seq<seq<string>>)
    requires keys != []
    ensures forall l :: l in Labels(WithPlaceholders(rows, known, keys)) <==>
      l in Labels(rows) || (l in known && l != GlobalLabel)
  {
    if known != [] {
      var init := known[..|known| - 1];
      var ch := known[|known| - 1];
      var before := WithPlaceholders(rows, init, keys);
      PlaceholderLabels(rows, init, keys);
      assert forall l :: l in known <==> l in init || l == ch;
      if ch !in Labels(before) && ch != GlobalLabel {
        LabelsAppend(before, Placeholders(keys, ch));
        assert Labels(Placeholders(keys, ch))[0] == ch;
        assert forall l :: l in Labels(Placeholders(keys, ch)) ==> l == ch;
      }
    }
  }

  lemma ChannelLabels(group: seq<Peak>, known: seq<string>, cfg: KeyConfig)
    requires group != []
    ensures forall l :: l in Labels(ChannelRows(group, known, cfg)) <==> IsChannel(group, known, l)
  {
    var joinKeys := seq(|group|, i requires 0 <= i < |group| => JoinKey(group[i], cfg));
    var keys := SkeletonKeys(group, cfg);
    assert joinKeys[0] in joinKeys;
    PlaceholderLabels(PtmRows(group), known, keys);
    var ps := Filter(group, (p: Peak) => p.ptm != GlobalLabel);
    forall l ensures l in Labels(PtmRows(group)) <==> l != GlobalLabel && exists i | 0 <= i < |group| :: group[i].ptm == l {
      if l in Labels(PtmRows(group)) {
        var k :| 0 <= k < |ps| && Labels(PtmRows(group))[k] == l;
        assert ps[k] in group;
      }
      if l != GlobalLabel && exists i | 0 <= i < |group| :: group[i].ptm == l {
        var i :| 0 <= i < |group| && group[i].ptm == l;
        assert group[i] in ps;
        var k :| 0 <= k < |ps| && ps[k] == group[i];
        assert Labels(PtmRows(group))[k] == l;
      }
    }
  }

  /** The global table is empty exactly when no row of the group is labelled global. */
  lemma NoGlobalRows(group: seq<Peak>)
    ensures GlobalRows(group) == [] <==> forall i | 0 <= i < |group| :: group[i].ptm != GlobalLabel
  {
    var globals := GlobalRows(group);
    if globals != [] {
      assert globals[0] in group;
    }
    if exists i | 0 <= i < |group| :: group[i].ptm == GlobalLabel {
      var i :| 0 <= i < |group| && group[i].ptm == GlobalLabel;
      assert group[i] in globals;
    }
  }

  /** The channels `ptm_matching` loops over, in order: exactly the group's channels, sorted. */
  lemma ChannelOrder(group: seq<Peak>, known: seq<string>, cfg: KeyConfig)
    requires group != []
    ensures var channels := SortedDistinct(Labels(ChannelRows(group, known, cfg)));
            && StrictlySorted(channels)
            && forall l :: l in channels <==> IsChannel(group, known, l)
  {
    ChannelLabels(group, known, cfg);
  }

  /** `ptm_matching` returns nothing exactly for a group without global peak, and fails
      exactly when the group has global peaks but the table knows no channel at all. */
  lemma PtmMatchingCases(group: seq<Peak>, known: seq<string>, cfg: KeyConfig, cutoff: int)
    ensures var out := PtmMatchingSpec(group, known, cfg, cutoff);
      && (out.NoGlobalPeaks? <==> forall i | 0 <= i < |group| :: group[i].ptm != GlobalLabel)
      && (out.Unbound? <==> (exists i | 0 <= i < |group| :: group[i].ptm == GlobalLabel)
                            && forall l :: !IsChannel(group, known, l))
  {
    NoGlobalRows(group);
    if GlobalRows(group) != [] {
      ChannelOrder(group, known, cfg);
      var channels := SortedDistinct(Labels(ChannelRows(group, known, cfg)));
      assert PtmMatchingSpec(group, known, cfg, cutoff).Unbound? <==> channels == [];
      if channels != [] {
        assert IsChannel(group, known, channels[0]);
      }
    }
  }

  /** The last channel of the loop is the greatest channel name. */
  lemma GreatestChannel(group: seq<Peak>, known: seq<string>, cfg: KeyConfig)
    requires group != []
    requires SortedDistinct(Labels(ChannelRows(group, known, cfg))) != []
    ensures var channels := SortedDistinct(Labels(ChannelRows(group, known, cfg)));
            var last := channels[|channels| - 1];
            && IsChannel(group, known, last)
            && forall l | IsChannel(group, known, l) && l != last :: LexLess(l, last)
  {
    var channels := SortedDistinct(Labels(ChannelRows(group, known, cfg)));
    var last := channels[|channels| - 1];
    ChannelOrder(group, known, cfg);
    SortedLastIsGreatest(channels);
    assert last in channels;
  }

  /** An enriched outcome is the merge with the last channel of a non-empty group. */
  lemma EnrichedOutcome(group: seq<Peak>, known: seq<string>, cfg: KeyConfig, cutoff: int)
    requires PtmMatchingSpec(group, known, cfg, cutoff).Enriched?
    ensures var channels := SortedDistinct(Labels(ChannelRows(group, known, cfg)));
            && group != [] && GlobalRows(group) != [] && channels != []
            && var last := channels[|channels| - 1];
               PtmMatchingSpec(group, known, cfg, cutoff).peaks
                 == Enrich(GlobalRows(group), ChannelSlice(ChannelRows(group, known, cfg), last), last, cfg, cutoff)
  {
    assert group != [] by {
      assert GlobalRows(group) != [];
    }
  }

  /** Otherwise the result holds one row per global peak, all summarising a single channel:
      the greatest channel name, every other channel's summary being lost. */
  lemma LastChannelSurvives(group: seq<Peak>, known: seq<string>, cfg: KeyConfig, cutoff: int)
    requires PtmMatchingSpec(group, known, cfg, cutoff).Enriched?
    ensures var out := PtmMatchingSpec(group, known, cfg, cutoff).peaks;
      && |out| == |GlobalRows(group)| > 0
      && IsChannel(group, known, out[0].channel)
      && (forall i | 0 <= i < |out| :: out[i].channel == out[0].channel)
      && (forall l | IsChannel(group, known, l) && l != out[0].channel :: LexLess(l, out[0].channel))
  {
    EnrichedOutcome(group, known, cfg, cutoff);
    GreatestChannel(group, known, cfg);
    var rows := ChannelRows(group, known, cfg);
    var channels := SortedDistinct(Labels(rows));
    var last := channels[|channels| - 1];
    var out := PtmMatchingSpec(group, known, cfg, cutoff).peaks;
    assert out == Enrich(GlobalRows(group), ChannelSlice(rows, last), last, cfg, cutoff);
    assert out[0].channel == last;
  }

  /** The group-level form of the per-peak summary: with distinct apexes per join key, every
      returned global peak counts and lists exactly its own matches in the surviving channel. */
  lemma PtmMatchingPerPeak(group: seq<Peak>, known: seq<string>, cfg: KeyConfig, cutoff: int, i: nat)
    requires PtmMatchingSpec(group, known, cfg, cutoff).Enriched?
    requires DistinctApexes(GlobalRows(group), cfg)
    requires i < |GlobalRows(group)|
    ensures var e := PtmMatchingSpec(group, known, cfg, cutoff).peaks[i];
            var matched := Matched(GlobalRows(group)[i], ChannelSlice(ChannelRows(group, known, cfg), e.channel), cfg, cutoff);
            && e.matchCount == |matched|
            && e.matchedIds == JoinPresent(";", FieldValues(matched, PeakIdField))
  {
    var rows := ChannelRows(group, known, cfg);
    var channels := SortedDistinct(Labels(rows));
    var last := channels[|channels| - 1];
    EnrichPerPeak(GlobalRows(group), ChannelSlice(rows, last), last, cfg, cutoff, i);
  }

  /** A channel the group lacks contributes only placeholder rows, so every global peak gets
      count 0 and an empty id string for it (the schema stays complete). */
  lemma MissingChannelCountsZero(globals: seq<Peak>, keys: seq<seq<string>>, channel: string, cfg: KeyConfig, cutoff: int, i: nat)
    requires i < |globals|
    ensures var e := Enrich(globals, Placeholders(keys, channel), channel, cfg, cutoff)[i];
            e.matchCount == 0 && e.matchedIds == "" && e.peak == globals[i]
  {
    var rows := Placeholders(keys, channel);
    forall h | h in globals ensures Matched(h, rows, cfg, cutoff) == [] {
      FilterNone(rows, (c: ChannelRow) => RowKey(c, cfg) == JoinKey(h, cfg) && PtmEval(h, Some(c), cutoff));
    }
    EnrichWithoutMatches(globals, rows, channel, cfg, cutoff, i);
  }
}
