/** The candidate paths of one group's condition alignment (PeakMatching.py:272-289): one list
    of row indices per condition, each ending in a missing entry, and every combination of one
    entry per list, enumerated in the order `np.meshgrid(*lists).T.reshape(-1, k)` produces. */
module SearchSpace {
  import opened Wrappers
  import opened Seqs
  import opened Text
  import opened Grouping
  import opened PtmMatcher

  /** The slots in the order the enumeration varies them, slowest first: meshgrid's default
      'xy' indexing swaps the first two axes and `.T` reverses all of them, so slot k-1 varies
      slowest, then k-2, ..., 2, then 0, and slot 1 fastest. */
  function MeshOrder(k: nat): (order: seq<nat>)
    ensures |order| == k && NoDuplicates(order)
    ensures forall i | 0 <= i < |order| :: order[i] < k
    ensures forall j: nat | j < k :: j in order
  {
    if k == 0 then []
    else if k == 1 then [0]
    else
      var high := seq(k - 2, i requires 0 <= i < k - 2 => k - 1 - i);
      assert forall j: nat | 2 <= j < k :: j in high by {
        forall j: nat | 2 <= j < k ensures j in high {
          assert high[k - 1 - j] == j;
        }
      }
      high + [0, 1]
  }

  /** Every row that agrees with `row` outside `order` and takes, in each slot of `order`, an
      entry of that slot's list; the first slot of `order` varies slowest. */
  function Fill<T>(lists: seq<seq<T>>, order: seq<nat>, row: seq<T>): seq<seq<T>>
    requires forall i | 0 <= i < |order| :: order[i] < |row|
    requires |row| == |lists|
    decreases |order|, 1, 0
  {
    if order == [] then [row]
    else FillEach(lists, order, lists[order[0]], row)
  }

  function FillEach<T>(lists: seq<seq<T>>, order: seq<nat>, choices: seq<T>, row: seq<T>): seq<seq<T>>
    requires order != []
    requires forall i | 0 <= i < |order| :: order[i] < |row|
    requires |row| == |lists|
    decreases |order|, 0, |choices|
  {
    if choices == [] then []
    else Fill(lists, order[1..], row[order[0] := choices[0]]) + FillEach(lists, order, choices[1..], row)
  }

  /** `p` takes an entry of slot j's list in every slot j of `order`, and `row`'s entry elsewhere. */
  ghost predicate Fits<T>(p: seq<T>, lists: seq<seq<T>>, order: seq<nat>, row: seq<T>)
    requires |row| == |lists|
  {
    |p| == |row| && forall j | 0 <= j < |row| :: if j in order then p[j] in lists[j] else p[j] == row[j]
  }

  lemma {:induction false} FillMembers<T>(lists: seq<seq<T>>, order: seq<nat>, row: seq<T>, p: seq<T>)
    requires forall i | 0 <= i < |order| :: order[i] < |row|
    requires |row| == |lists| && NoDuplicates(order)
    ensures p in Fill(lists, order, row) <==> Fits(p, lists, order, row)
    decreases |order|, 1, 0
  {
    if order == [] {
      if Fits(p, lists, order, row) {
        assert p == row;
      }
    } else {
      var o := order[0];
      assert NoDuplicates(order[1..]) by {
        forall a, b | 0 <= a < b < |order[1..]| ensures order[1..][a] != order[1..][b] {
          assert order[1..][a] == order[a + 1] && order[1..][b] == order[b + 1];
        }
      }
      assert o !in order[1..] by {
        forall a | 0 <= a < |order[1..]| ensures order[1..][a] != o {
          assert order[1..][a] == order[a + 1];
        }
      }
      assert forall j :: j in order <==> j == o || j in order[1..];
      FillEachMembers(lists, order, lists[o], row, p);
      if Fits(p, lists, order, row) {
        assert Fits(p, lists, order[1..], row[o := p[o]]);
      }
    }
  }

  lemma {:induction false} FillEachMembers<T>(lists: seq<seq<T>>, order: seq<nat>, choices: seq<T>, row: seq<T>, p: seq<T>)
    requires order != []
    requires forall i | 0 <= i < |order| :: order[i] < |row|
    requires |row| == |lists| && NoDuplicates(order)
    ensures p in FillEach(lists, order, choices, row) <==>
      |p| == |row| && p[order[0]] in choices && Fits(p, lists, order[1..], row[order[0] := p[order[0]]])
    decreases |order|, 0, |choices|
  {
    var o := order[0];
    assert NoDuplicates(order[1..]) by {
      forall a, b | 0 <= a < b < |order[1..]| ensures order[1..][a] != order[1..][b] {
        assert order[1..][a] == order[a + 1] && order[1..][b] == order[b + 1];
      }
    }
    assert o !in order[1..] by {
      forall a | 0 <= a < |order[1..]| ensures order[1..][a] != o {
        assert order[1..][a] == order[a + 1];
      }
    }
    if choices != [] {
      var c := choices[0];
      FillMembers(lists, order[1..], row[o := c], p);
      FillEachMembers(lists, order, choices[1..], row, p);
      if Fits(p, lists, order[1..], row[o := c]) {
        assert p[o] == c;
      }
      if |p| == |row| && p[o] == c && Fits(p, lists, order[1..], row[o := p[o]]) {
        assert row[o := c] == row[o := p[o]];
      }
    }
  }

  /** A row that holds no peak at all. */
  predicate AllAbsent<T>(r: seq<Option<T>>) {
    forall j | 0 <= j < |r| :: r[j].None?
  }

  /** The all-missing row of width k. */
  function NoneRow(k: nat): seq<Option<nat>> {
    seq(k, j requires 0 <= j < k => None)
  }

  /** `np.meshgrid(*lists).T.reshape(-1, k)`: every combination of one entry per list. */
  function Enumerate(lists: seq<seq<Option<nat>>>): (rows: seq<seq<Option<nat>>>)
    ensures forall p | p in rows :: |p| == |lists| && forall j | 0 <= j < |lists| :: p[j] in lists[j]
  {
    var rows := Fill(lists, MeshOrder(|lists|), NoneRow(|lists|));
    assert forall p | p in rows :: |p| == |lists| && forall j | 0 <= j < |lists| :: p[j] in lists[j] by {
      forall p | p in rows ensures |p| == |lists| && forall j | 0 <= j < |lists| :: p[j] in lists[j] {
        FillMembers(lists, MeshOrder(|lists|), NoneRow(|lists|), p);
      }
    }
    rows
  }

  /** The enumeration holds exactly the rows that take, in every slot, an entry of that slot's list. */
  lemma EnumerateMembers(lists: seq<seq<Option<nat>>>, p: seq<Option<nat>>)
    ensures p in Enumerate(lists) <==> |p| == |lists| && forall j | 0 <= j < |lists| :: p[j] in lists[j]
  {
    var order := MeshOrder(|lists|);
    FillMembers(lists, order, NoneRow(|lists|), p);
  }

  // ---------------------------------------------------------------------------------------
  // The index lists (lines 272-286)

  function ConditionsOf(peaks: seq<EnrichedPeak>): seq<string> {
    seq(|peaks|, i requires 0 <= i < |peaks| => peaks[i].peak.condition)
  }

  /** The conditions `groupby('condition')` visits once the missing ones are padded in: the
      group's own and the table's, in ascending order. */
  function SlotConditions(peaks: seq<EnrichedPeak>, known: seq<string>): (slots: seq<string>)
    ensures StrictlySorted(slots)
    ensures forall c :: c in slots <==> c in ConditionsOf(peaks) || c in known
  {
    SortedDistinct(ConditionsOf(peaks) + known)
  }

  /** Every peak's condition has a slot. */
  lemma SlotOf(peaks: seq<EnrichedPeak>, known: seq<string>, x: nat) returns (j: nat)
    requires x < |peaks|
    ensures j < |SlotConditions(peaks, known)| && SlotConditions(peaks, known)[j] == peaks[x].peak.condition
  {
    var slots := SlotConditions(peaks, known);
    assert ConditionsOf(peaks)[x] == peaks[x].peak.condition;
    assert peaks[x].peak.condition in slots;
    j :| 0 <= j < |slots| && slots[j] == peaks[x].peak.condition;
  }

  /** The number of rows of `skeleton_df`: the distinct `group_cols` combinations. */
  function SkeletonSize(peaks: seq<EnrichedPeak>, cfg: KeyConfig): nat {
    |Distinct(seq(|peaks|, i requires 0 <= i < |peaks| => Values(peaks[i].peak, GroupColumns(cfg))))|
  }

  /** The row indices (from `from` on) of the peaks of condition `c`, in table order. */
  function IndicesFrom(peaks: seq<EnrichedPeak>, c: string, from: nat): (r: seq<Option<nat>>)
    ensures forall o :: o in r <==> o.Some? && from <= o.value < |peaks| && peaks[o.value].peak.condition == c
    decreases |peaks| - from
  {
    if from >= |peaks| then []
    else (if peaks[from].peak.condition == c then [Some(from)] else []) + IndicesFrom(peaks, c, from + 1)
  }

  /** One entry of `index_lists`: the condition's row indices, or one missing index per
      skeleton row for a padded condition, then the appended missing entry. */
  function IndexList(peaks: seq<EnrichedPeak>, c: string, skeleton: nat): seq<Option<nat>> {
    (if c in ConditionsOf(peaks) then IndicesFrom(peaks, c, 0) else seq(skeleton, i requires 0 <= i < skeleton => None))
    + [None]
  }

  function IndexLists(peaks: seq<EnrichedPeak>, known: seq<string>, cfg: KeyConfig): (lists: seq<seq<Option<nat>>>)
    ensures |lists| == |SlotConditions(peaks, known)|
    ensures forall j | 0 <= j < |lists| :: lists[j] != [] && lists[j][|lists[j]| - 1] == None
  {
    var slots := SlotConditions(peaks, known);
    seq(|slots|, j requires 0 <= j < |slots| => IndexList(peaks, slots[j], SkeletonSize(peaks, cfg)))
  }

  /** The index lists hold the missing entry and, in slot j, exactly the peaks of slot j's condition. */
  lemma IndexListsMembers(peaks: seq<EnrichedPeak>, known: seq<string>, cfg: KeyConfig)
    ensures var lists := IndexLists(peaks, known, cfg);
            var slots := SlotConditions(peaks, known);
            && |lists| == |slots|
            && (forall j | 0 <= j < |lists| :: None in lists[j])
            && (forall j, x: nat | 0 <= j < |lists| :: Some(x) in lists[j] <==> x < |peaks| && peaks[x].peak.condition == slots[j])
  {
    var lists := IndexLists(peaks, known, cfg);
    var slots := SlotConditions(peaks, known);
    forall j, x: nat | 0 <= j < |lists| ensures Some(x) in lists[j] <==> x < |peaks| && peaks[x].peak.condition == slots[j] {
      var c := slots[j];
      if x < |peaks| && peaks[x].peak.condition == c {
        assert ConditionsOf(peaks)[x] == c;
      }
    }
  }

  /** The candidate paths of line 289. */
  function InitialPool(peaks: seq<EnrichedPeak>, known: seq<string>, cfg: KeyConfig): (pool: seq<seq<Option<nat>>>)
    ensures forall p | p in pool :: |p| == |SlotConditions(peaks, known)|
  {
    Enumerate(IndexLists(peaks, known, cfg))
  }

  /** Every path of a pool has one slot per condition and points, in slot j, only at peaks of
      slot j's condition. */
  predicate WellFormed(pool: seq<seq<Option<nat>>>, slots: seq<string>, peaks: seq<EnrichedPeak>) {
    forall r: seq<Option<nat>> | r in pool ::
      && |r| == |slots|
      && forall j | 0 <= j < |r| && r[j].Some? :: r[j].value < |peaks| && peaks[r[j].value].peak.condition == slots[j]
  }

  /** The path that holds peak x in slot j and nothing else. */
  function Single(k: nat, j: nat, x: nat): seq<Option<nat>> {
    seq(k, i requires 0 <= i < k => if i == j then Some(x) else None)
  }

  /** Every candidate path points, in slot j, only at peaks of slot j's condition. */
  lemma InitialPoolWellFormed(peaks: seq<EnrichedPeak>, known: seq<string>, cfg: KeyConfig)
    ensures WellFormed(InitialPool(peaks, known, cfg), SlotConditions(peaks, known), peaks)
  {
    var lists := IndexLists(peaks, known, cfg);
    var slots := SlotConditions(peaks, known);
    var pool := InitialPool(peaks, known, cfg);
    IndexListsMembers(peaks, known, cfg);
    forall r: seq<Option<nat>> | r in pool
      ensures |r| == |slots|
      ensures forall j | 0 <= j < |r| && r[j].Some? :: r[j].value < |peaks| && peaks[r[j].value].peak.condition == slots[j]
    {
      EnumerateMembers(lists, r);
      forall j | 0 <= j < |r| && r[j].Some?
        ensures r[j].value < |peaks| && peaks[r[j].value].peak.condition == slots[j]
      {
        assert Some(r[j].value) in lists[j];
      }
    }
  }

  /** The candidates include the all-missing path and, for every peak, the path holding that
      peak alone in the slot of its condition. */
  lemma InitialPoolSingles(peaks: seq<EnrichedPeak>, known: seq<string>, cfg: KeyConfig)
    ensures var pool := InitialPool(peaks, known, cfg);
            var slots := SlotConditions(peaks, known);
            && NoneRow(|slots|) in pool
            && forall j, x: nat | 0 <= j < |slots| && x < |peaks| && peaks[x].peak.condition == slots[j] ::
                 Single(|slots|, j, x) in pool
  {
    var lists := IndexLists(peaks, known, cfg);
    var slots := SlotConditions(peaks, known);
    IndexListsMembers(peaks, known, cfg);
    EnumerateMembers(lists, NoneRow(|slots|));
    forall j, x: nat | 0 <= j < |slots| && x < |peaks| && peaks[x].peak.condition == slots[j]
      ensures Single(|slots|, j, x) in InitialPool(peaks, known, cfg)
    {
      EnumerateMembers(lists, Single(|slots|, j, x));
    }
  }

  // ---------------------------------------------------------------------------------------
  // Where the single-peak paths sit in the enumeration

  /** `s` occurs in `pool`, and only rows holding some peak come before its first occurrence:
      `s` is listed ahead of every all-missing row. */
  predicate AheadOfAbsent(pool: seq<seq<Option<nat>>>, s: seq<Option<nat>>)
    decreases |pool|
  {
    pool != [] && (pool[0] == s || (!AllAbsent(pool[0]) && AheadOfAbsent(pool[1..], s)))
  }

  /** `target` occurs in `choices`, and only present entries come before its first occurrence. */
  predicate Leads(choices: seq<Option<nat>>, target: Option<nat>)
    decreases |choices|
  {
    choices != [] && (choices[0] == target || (choices[0].Some? && Leads(choices[1..], target)))
  }

  lemma {:induction false} LeadsNone(choices: seq<Option<nat>>)
    requires None in choices
    ensures Leads(choices, None)
  {
    if choices[0] != None {
      LeadsNone(choices[1..]);
    }
  }

  lemma {:induction false} LeadsPresent(choices: seq<Option<nat>>, rest: seq<Option<nat>>, target: Option<nat>)
    requires target in choices && forall c | c in choices :: c.Some?
    ensures Leads(choices + rest, target)
  {
    if choices[0] != target {
      LeadsPresent(choices[1..], rest, target);
      assert (choices + rest)[1..] == choices[1..] + rest;
    }
  }

  lemma {:induction false} AheadAppendLeft(a: seq<seq<Option<nat>>>, b: seq<seq<Option<nat>>>, s: seq<Option<nat>>)
    requires AheadOfAbsent(a, s)
    ensures AheadOfAbsent(a + b, s)
  {
    if a[0] != s {
      AheadAppendLeft(a[1..], b, s);
      assert (a + b)[1..] == a[1..] + b;
    }
  }

  lemma {:induction false} AheadAppendRight(a: seq<seq<Option<nat>>>, b: seq<seq<Option<nat>>>, s: seq<Option<nat>>)
    requires forall r | r in a :: !AllAbsent(r)
    requires AheadOfAbsent(b, s)
    ensures AheadOfAbsent(a + b, s)
  {
    if a == [] {
      assert a + b == b;
    } else {
      assert a[0] in a;
      AheadAppendRight(a[1..], b, s);
      assert (a + b)[1..] == a[1..] + b;
    }
  }

  lemma {:induction false} AheadOfMember(pool: seq<seq<Option<nat>>>, s: seq<Option<nat>>)
    requires s in pool && forall r | r in pool :: !AllAbsent(r)
    ensures AheadOfAbsent(pool, s)
  {
    if pool[0] != s {
      assert pool[0] in pool;
      AheadOfMember(pool[1..], s);
    }
  }

  lemma OrderTail(order: seq<nat>)
    requires order != [] && NoDuplicates(order)
    ensures NoDuplicates(order[1..]) && order[0] !in order[1..]
  {
    forall a, b | 0 <= a < b < |order[1..]| ensures order[1..][a] != order[1..][b] {
      assert order[1..][a] == order[a + 1] && order[1..][b] == order[b + 1];
    }
    forall a | 0 <= a < |order[1..]| ensures order[1..][a] != order[0] {
      assert order[1..][a] == order[a + 1];
    }
  }

  /** Filling the slots of `order` into a row that agrees with the single-peak path outside
      them lists that path ahead of every all-missing row, provided peak x precedes the first
      missing entry of its list and every other list holds a missing entry. */
  lemma {:induction false} FillAhead(lists: seq<seq<Option<nat>>>, order: seq<nat>, row: seq<Option<nat>>, j: nat, x: nat)
    requires forall i | 0 <= i < |order| :: order[i] < |row|
    requires |row| == |lists| && NoDuplicates(order) && j < |row|
    requires forall i | 0 <= i < |row| && i !in order :: row[i] == Single(|row|, j, x)[i]
    requires forall i | 0 <= i < |lists| && i != j :: None in lists[i]
    requires Leads(lists[j], Some(x))
    ensures AheadOfAbsent(Fill(lists, order, row), Single(|row|, j, x))
    decreases |order|, 1, 0
  {
    var s := Single(|row|, j, x);
    if j !in order {
      var pool := Fill(lists, order, row);
      FillMembers(lists, order, row, s);
      assert Fits(s, lists, order, row) by {
        forall i | 0 <= i < |row| && i in order ensures s[i] in lists[i] {
          assert s[i] == None;
        }
      }
      forall r | r in pool ensures !AllAbsent(r) {
        FillMembers(lists, order, row, r);
        assert r[j] == Some(x);
      }
      AheadOfMember(pool, s);
    } else {
      var o := order[0];
      if o != j {
        LeadsNone(lists[o]);
      }
      FillEachAhead(lists, order, lists[o], row, j, x);
    }
  }

  lemma {:induction false} FillEachAhead(lists: seq<seq<Option<nat>>>, order: seq<nat>, choices: seq<Option<nat>>,
                                         row: seq<Option<nat>>, j: nat, x: nat)
    requires order != []
    requires forall i | 0 <= i < |order| :: order[i] < |row|
    requires |row| == |lists| && NoDuplicates(order) && j < |row|
    requires forall i | 0 <= i < |row| && i !in order :: row[i] == Single(|row|, j, x)[i]
    requires forall i | 0 <= i < |lists| && i != j :: None in lists[i]
    requires Leads(lists[j], Some(x))
    requires Leads(choices, Single(|row|, j, x)[order[0]])
    ensures AheadOfAbsent(FillEach(lists, order, choices, row), Single(|row|, j, x))
    decreases |order|, 0, |choices|
  {
    var s := Single(|row|, j, x);
    var o := order[0];
    var c := choices[0];
    OrderTail(order);
    var next := row[o := c];
    var head := Fill(lists, order[1..], next);
    var tail := FillEach(lists, order, choices[1..], row);
    assert FillEach(lists, order, choices, row) == head + tail;
    if c == s[o] {
      assert forall i | 0 <= i < |next| && i !in order[1..] :: next[i] == s[i] by {
        forall i | 0 <= i < |next| && i !in order[1..] ensures next[i] == s[i] {
          if i != o {
            assert i !in order;
          }
        }
      }
      FillAhead(lists, order[1..], next, j, x);
      AheadAppendLeft(head, tail, s);
    } else {
      forall r | r in head ensures !AllAbsent(r) {
        FillMembers(lists, order[1..], next, r);
        assert r[o] == c;
      }
      FillEachAhead(lists, order, choices[1..], row, j, x);
      AheadAppendRight(head, tail, s);
    }
  }

  /** In the candidates, the path holding peak x alone in its slot comes ahead of every
      all-missing path: in meshgrid order the two differ only in that slot, where peak x is
      listed before the missing entries. */
  lemma SingleAheadOfAbsent(peaks: seq<EnrichedPeak>, known: seq<string>, cfg: KeyConfig, j: nat, x: nat)
    requires j < |SlotConditions(peaks, known)| && x < |peaks|
    requires peaks[x].peak.condition == SlotConditions(peaks, known)[j]
    ensures AheadOfAbsent(InitialPool(peaks, known, cfg), Single(|SlotConditions(peaks, known)|, j, x))
  {
    var lists := IndexLists(peaks, known, cfg);
    var slots := SlotConditions(peaks, known);
    var k := |slots|;
    var c := slots[j];
    IndexListsMembers(peaks, known, cfg);
    assert ConditionsOf(peaks)[x] == c;
    var present := IndicesFrom(peaks, c, 0);
    assert lists[j] == present + [None];
    LeadsPresent(present, [None], Some(x));
    FillAhead(lists, MeshOrder(k), NoneRow(k), j, x);
  }
}
