/** The grouping key of the peak-matching manager (PeakMatching.py:31-52): which identity
    columns form `match_id`, how it is spelled, and the partition of the table by it. */
module Grouping {
  import opened Seqs
  import opened Text

  /** One row of the peak table once `sample` is dropped. `matchId` is the composite
      key column; it is "" until `KeyTable` fills it in. */
  datatype Peak = Peak(
    matchId: string,
    proteinId: string,
    genes: string,
    cluster: string,
    replicate: string,
    condition: string,
    ptm: string,
    peakId: string,
    apex: real,
    left: real,
    right: real)

  /** The identity columns a group key may be made of. */
  datatype Column = MatchIdColumn | ProteinIdColumn | GenesColumn | ClusterColumn | ReplicateColumn

  /** Whether `cluster` and `replicate` take part in the key (computed once from the whole table). */
  datatype KeyConfig = KeyConfig(useCluster: bool, useReplicate: bool)

  function ColumnValue(p: Peak, c: Column): string {
    match c
    case MatchIdColumn => p.matchId
    case ProteinIdColumn => p.proteinId
    case GenesColumn => p.genes
    case ClusterColumn => p.cluster
    case ReplicateColumn => p.replicate
  }

  /** The values of a row in the given columns, as strings (`astype(str)`). */
  function Values(p: Peak, cols: seq<Column>): seq<string> {
    seq(|cols|, i requires 0 <= i < |cols| => ColumnValue(p, cols[i]))
  }

  function Replicates(table: seq<Peak>): seq<string> {
    seq(|table|, i requires 0 <= i < |table| => table[i].replicate)
  }

  function Clusters(table: seq<Peak>): seq<string> {
    seq(|table|, i requires 0 <= i < |table| => table[i].cluster)
  }

  /** Lines 39-45: drop `replicate` when `replicate.unique()` has one value, drop `cluster`
      when the label '0' occurs in the cluster column. */
  function DeriveKeyConfig(table: seq<Peak>): (cfg: KeyConfig)
    ensures cfg.useReplicate <==> |Elements(Replicates(table))| != 1
    ensures cfg.useCluster <==> forall i | 0 <= i < |table| :: table[i].cluster != "0"
  {
    DistinctCard(Replicates(table));
    assert forall i | 0 <= i < |table| :: Clusters(table)[i] == table[i].cluster;
    KeyConfig("0" !in Clusters(table), |Distinct(Replicates(table))| != 1)
  }

  /** `combine_cols` after the removals. */
  function CombineColumns(cfg: KeyConfig): seq<Column> {
    [ProteinIdColumn]
    + (if cfg.useCluster then [ClusterColumn] else [])
    + (if cfg.useReplicate then [ReplicateColumn] else [])
  }

  /** `group_cols` after the removals: the columns every per-group step merges and copies on. */
  function GroupColumns(cfg: KeyConfig): seq<Column> {
    [MatchIdColumn, ProteinIdColumn, GenesColumn]
    + (if cfg.useCluster then [ClusterColumn] else [])
    + (if cfg.useReplicate then [ReplicateColumn] else [])
  }

  /** The columns the key of a table is made of: the protein first, the replicate exactly
      when the table holds more or fewer than one replicate label, the cluster exactly when
      no row carries the cluster label '0'. */
  function KeyColumns(table: seq<Peak>): (cols: seq<Column>)
    ensures |cols| >= 1 && cols[0] == ProteinIdColumn
    ensures ReplicateColumn in cols <==> |Elements(Replicates(table))| != 1
    ensures ClusterColumn in cols <==> forall i | 0 <= i < |table| :: table[i].cluster != "0"
    ensures MatchIdColumn !in cols && GenesColumn !in cols
  {
    CombineColumns(DeriveKeyConfig(table))
  }

  /** Line 47: the key of one row, its key-column values joined with '_'. */
  function MatchId(p: Peak, cfg: KeyConfig): (id: string)
    ensures p.proteinId <= id
  {
    var parts := Values(p, CombineColumns(cfg));
    assert parts[0] == p.proteinId;
    Join("_", parts)
  }

  /** The key can be read back into its parts when no part contains '_'. */
  lemma MatchIdRoundTrip(p: Peak, cfg: KeyConfig)
    requires '_' !in p.proteinId && '_' !in p.cluster && '_' !in p.replicate
    ensures Split('_', MatchId(p, cfg)) == Values(p, CombineColumns(cfg))
  {
    var parts := Values(p, CombineColumns(cfg));
    forall i | 0 <= i < |parts| ensures '_' !in parts[i] {
      assert CombineColumns(cfg)[i] in {ProteinIdColumn, ClusterColumn, ReplicateColumn};
    }
    SplitJoin('_', parts);
  }

  /** Two rows get the same key exactly when they agree on every key column, provided no
      key value contains the separator '_'. */
  lemma MatchIdSeparates(p: Peak, q: Peak, cfg: KeyConfig)
    requires '_' !in p.proteinId && '_' !in p.cluster && '_' !in p.replicate
    requires '_' !in q.proteinId && '_' !in q.cluster && '_' !in q.replicate
    ensures MatchId(p, cfg) == MatchId(q, cfg) <==> Values(p, CombineColumns(cfg)) == Values(q, CombineColumns(cfg))
  {
    MatchIdRoundTrip(p, cfg);
    MatchIdRoundTrip(q, cfg);
  }

  /** No key value of the table contains the separator '_'. */
  predicate SeparatorFree(table: seq<Peak>) {
    forall i | 0 <= i < |table| ::
      '_' !in table[i].proteinId && '_' !in table[i].cluster && '_' !in table[i].replicate
  }

  /** The table with its `match_id` column filled in: only that column changes, and (when no
      key value contains '_') two rows share a key exactly when they agree on the key columns
      the whole table selects. */
  function KeyTable(table: seq<Peak>): (keyed: seq<Peak>)
    ensures |keyed| == |table|
    ensures forall i | 0 <= i < |table| ::
      keyed[i] == table[i].(matchId := keyed[i].matchId) && keyed[i].matchId == MatchId(table[i], DeriveKeyConfig(table))
    ensures SeparatorFree(table) ==> forall i, j | 0 <= i < |table| && 0 <= j < |table| ::
      keyed[i].matchId == keyed[j].matchId <==> Values(table[i], KeyColumns(table)) == Values(table[j], KeyColumns(table))
  {
    var cfg := DeriveKeyConfig(table);
    var keyed := seq(|table|, i requires 0 <= i < |table| => table[i].(matchId := MatchId(table[i], cfg)));
    assert SeparatorFree(table) ==> forall i, j | 0 <= i < |table| && 0 <= j < |table| ::
      keyed[i].matchId == keyed[j].matchId <==> Values(table[i], KeyColumns(table)) == Values(table[j], KeyColumns(table)) by {
      if SeparatorFree(table) {
        forall i, j | 0 <= i < |table| && 0 <= j < |table|
          ensures keyed[i].matchId == keyed[j].matchId <==> Values(table[i], KeyColumns(table)) == Values(table[j], KeyColumns(table))
        {
          MatchIdSeparates(table[i], table[j], cfg);
        }
      }
    }
    keyed
  }

  /** The keys of a keyed table in the ascending order `groupby('match_id')` visits them. */
  function GroupKeys(keyed: seq<Peak>): seq<string> {
    SortedDistinct(seq(|keyed|, i requires 0 <= i < |keyed| => keyed[i].matchId))
  }

  /** Line 50: one sub-table per key, its rows in table order. The groups are non-empty,
      each holds only rows of its own key, and every row lands in the group of its key. */
  function Groups(keyed: seq<Peak>): (groups: seq<seq<Peak>>)
    ensures |groups| == |GroupKeys(keyed)|
    ensures forall k | 0 <= k < |groups| :: groups[k] != []
    ensures forall k, p | 0 <= k < |groups| && p in groups[k] :: p in keyed && p.matchId == GroupKeys(keyed)[k]
    ensures forall p | p in keyed :: exists k :: 0 <= k < |groups| && GroupKeys(keyed)[k] == p.matchId && p in groups[k]
  {
    var keys := GroupKeys(keyed);
    var ids := seq(|keyed|, i requires 0 <= i < |keyed| => keyed[i].matchId);
    var groups := seq(|keys|, k requires 0 <= k < |keys| => Filter(keyed, (p: Peak) => p.matchId == keys[k]));
    assert forall k | 0 <= k < |groups| :: groups[k] != [] by {
      forall k | 0 <= k < |groups| ensures groups[k] != [] {
        assert keys[k] in ids;
        var i :| 0 <= i < |keyed| && ids[i] == keys[k];
        assert keyed[i] in groups[k];
      }
    }
    assert forall p | p in keyed :: exists k :: 0 <= k < |groups| && keys[k] == p.matchId && p in groups[k] by {
      forall p | p in keyed ensures exists k :: 0 <= k < |groups| && keys[k] == p.matchId && p in groups[k] {
        var i :| 0 <= i < |keyed| && keyed[i] == p;
        assert ids[i] in keys;
        var k :| 0 <= k < |keys| && keys[k] == ids[i];
        assert p in groups[k];
      }
    }
    groups
  }
}
