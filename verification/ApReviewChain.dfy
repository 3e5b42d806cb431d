/**
 The two AP-root migrations one after the other, as their revision ids chain them
 (backend/alembic/versions/w3m0h25o6pk4_ap_root_la_mask.py:39-40 after
 backend/alembic/versions/v2l9g14n5oj3_ap_root_drop_channel.py): together they keep, for every final
 root, the one row of the original table that wins against all others that end on it.
 */
module ApReviewChain {
  import opened Common
  import opened ApRoot
  import opened ApReviewMigration

  /** The root that a row of the original table ends on. */
  function FinalRoot(r: Review): string {
    if r.sample != "" then Masked(r.sample) else MaskExisting(StripChannel(r.root))
  }

  predicate NoFivePartSample(rows: set<Review>) { forall r | r in rows && r.sample != "" :: !FivePartSample(r.sample) }

  /** The table holds exactly the rows of `best`, under their keys. */
  ghost predicate Settled(rows: map<int, Review>, best: map<Key, Review>) {
    && (forall k | k in best :: best[k].id in rows && rows[best[k].id] == best[k].(root := k.1))
    && (forall id | id in rows :: exists k :: k in best && best[k].id == id)
  }

  lemma RekeyedIsSettled(rows: map<int, Review>, best: map<Key, Review>, order: seq<Key>)
    requires SurvivorKeys(best, order) && (forall k :: k in order <==> k in best)
    requires Rekeyed(rows, best, order, |order|)
    ensures Settled(rows, best)
  {
    forall k | k in best ensures best[k].id in rows && rows[best[k].id] == best[k].(root := k.1) {
      var i :| 0 <= i < |order| && order[i] == k;
      assert Survivor(best, order, i) == best[k];
    }
    forall id | id in rows ensures exists k :: k in best && best[k].id == id {
      var i :| 0 <= i < |order| && Survivor(best, order, i).id == id;
      assert order[i] in best;
    }
  }

  /** Without five-part samples the final root is the mask of the first migration's root. */
  lemma FinalRootIs(r: Review)
    requires r.sample != "" ==> !FivePartSample(r.sample)
    ensures FinalRoot(r) == MaskExisting(NewRootUpperFive(r))
    ensures NewRootMasked(r.(root := NewRootUpperFive(r))) == FinalRoot(r)
  {
    if r.sample != "" { MaskAfterUpperFive(r.sample); }
  }

  /** The survivors of the second migration, as rows of the original table. */
  function Original(rows: map<int, Review>, best: map<Key, Review>): map<Key, Review>
    requires forall k | k in best :: best[k].id in rows
  {
    map k | k in best :: rows[best[k].id]
  }

  /** What the first migration leaves, the second reads. */
  ghost predicate Chained(rows: map<int, Review>, first: map<Key, Review>, middle: map<int, Review>,
                          second: map<Key, Review>) {
    && (forall id | id in rows :: rows[id].id == id) && NoFivePartSample(RowsOf(rows))
    && IsArgmax(first, RowsOf(rows), NewRootUpperFive) && Settled(middle, first)
    && IsArgmax(second, RowsOf(middle), NewRootMasked)
  }

  /** A row between the two migrations is an original one under its new root. */
  lemma MiddleRow(rows: map<int, Review>, first: map<Key, Review>, middle: map<int, Review>,
                  second: map<Key, Review>, m: Review)
    requires Chained(rows, first, middle, second) && m in RowsOf(middle)
    ensures m.id in rows && m == rows[m.id].(root := NewRootUpperFive(rows[m.id]))
    ensures KeyOf(rows[m.id], FinalRoot) == KeyOf(m, NewRootMasked)
  {
    var id :| id in middle && middle[id] == m;
    var k :| k in first && first[k].id == id;
    assert first[k] in RowsOf(rows) && rows[id] == first[k];
    FinalRootIs(rows[id]);
  }

  /** An original row gives way, if at all, to the survivor of its first key, which ends on the same root. */
  lemma FirstSurvivor(rows: map<int, Review>, first: map<Key, Review>, middle: map<int, Review>,
                      second: map<Key, Review>, r: Review) returns (m: Review)
    requires Chained(rows, first, middle, second) && r in RowsOf(rows)
    ensures m in RowsOf(middle) && KeyOf(m, NewRootMasked) == KeyOf(r, FinalRoot)
    ensures m.id == r.id || Wins(m, r)
  {
    var k := KeyOf(r, NewRootUpperFive);
    var s := first[k];
    m := s.(root := k.1);
    assert s in RowsOf(rows) && KeyOf(s, NewRootUpperFive) == k;
    assert middle[s.id] == m;
    FinalRootIs(r);
    FinalRootIs(s);
  }

  lemma ChainBeats(rows: map<int, Review>, first: map<Key, Review>, middle: map<int, Review>,
                   second: map<Key, Review>, r: Review)
    requires Chained(rows, first, middle, second) && r in RowsOf(rows)
    ensures var k := KeyOf(r, FinalRoot);
            k in second && second[k].id in rows && (rows[second[k].id] == r || Wins(rows[second[k].id], r))
  {
    var k := KeyOf(r, FinalRoot);
    var m := FirstSurvivor(rows, first, middle, second, r);
    var b := second[k];
    MiddleRow(rows, first, middle, second, b);
    if b != m { WinsIsTotalOrder(b, m, r); }
  }

  /** Resolving duplicates twice is resolving them once by the final root: the survivors are those of the
      original table, the latest reviewed of all rows that end on the root. */
  lemma ChainIsArgmax(rows: map<int, Review>, first: map<Key, Review>, middle: map<int, Review>,
                      second: map<Key, Review>)
    requires Chained(rows, first, middle, second)
    ensures forall k | k in second :: second[k].id in rows
    ensures IsArgmax(Original(rows, second), RowsOf(rows), FinalRoot)
  {
    forall k | k in second
      ensures second[k].id in rows && KeyOf(rows[second[k].id], FinalRoot) == k && rows[second[k].id] in RowsOf(rows)
    {
      MiddleRow(rows, first, middle, second, second[k]);
    }
    forall r | r in RowsOf(rows)
      ensures var k := KeyOf(r, FinalRoot);
              k in second && (rows[second[k].id] == r || Wins(rows[second[k].id], r))
    {
      ChainBeats(rows, first, middle, second, r);
    }
  }

  /** The roots between the migrations are those the second one expects of the first. */
  lemma MiddleIsReady(rows: map<int, Review>, first: map<Key, Review>, middle: map<int, Review>,
                      second: map<Key, Review>, order: seq<Key>)
    requires Chained(rows, first, middle, second) && NoDup(order) && forall k | k in order :: k in second
    ensures ClashFree(second, order)
  {
    forall r | r in RowsOf(middle) && r.sample != ""
      ensures r.root == UpperFive(r.sample) && !FivePartSample(r.sample)
    {
      MiddleRow(rows, first, middle, second, r);
      assert rows[r.id] in RowsOf(rows);
    }
    MaskedAfterUpperFiveNeverClashes(second, order, RowsOf(middle));
  }

  /** Every old root has its channel suffix and no sample gives a root with one. */
  predicate Suffixed(rows: set<Review>) {
    forall r | r in rows :: '@' in r.root && (r.sample != "" ==> '@' !in UpperFive(r.sample))
  }

  /**
   * Both upgrades in turn. When no sample has five parts that the mask would change, the second gets
   * through whenever the first does, and the table then holds, for every final root, exactly the row of the
   * original table that wins among those that end on it; the first gets through when all old roots are suffixed.
   */
  method UpgradeBoth(table: ApReviews) returns (ok: bool, ghost kept: map<Key, Review>)
    requires table.Valid()
    modifies table
    ensures table.Valid()
    ensures NoFivePartSample(RowsOf(old(table.rows))) && Suffixed(RowsOf(old(table.rows))) ==> ok
    ensures NoFivePartSample(RowsOf(old(table.rows))) && ok ==>
              IsArgmax(kept, RowsOf(old(table.rows)), FinalRoot) && Settled(table.rows, kept)
              && KeepsNewest(kept, RowsOf(old(table.rows)), FinalRoot)
  {
    ghost var rows := table.rows;
    kept := map[];
    var first, order;
    ok, first, order := table.Upgrade(NewRootUpperFive);
    if Suffixed(RowsOf(rows)) { UpperFiveNeverClashes(first, order, RowsOf(rows)); }
    if !ok { return; }
    RekeyedIsSettled(table.rows, first, order);
    ghost var middle := table.rows;
    var second;
    ok, second, order := table.Upgrade(NewRootMasked);
    if NoFivePartSample(RowsOf(rows)) {
      MiddleIsReady(rows, first, middle, second, order);
      RekeyedIsSettled(table.rows, second, order);
      ChainIsArgmax(rows, first, middle, second);
      kept := Original(rows, second);
      ArgmaxKeepsNewest(kept, RowsOf(rows), FinalRoot);
      SettledAsOriginal(rows, first, middle, second, table.rows);
    }
  }

  lemma SettledAsOriginal(rows: map<int, Review>, first: map<Key, Review>, middle: map<int, Review>,
                          second: map<Key, Review>, after: map<int, Review>)
    requires Chained(rows, first, middle, second) && Settled(after, second)
    requires forall k | k in second :: second[k].id in rows
    ensures Settled(after, Original(rows, second))
  {
    var kept := Original(rows, second);
    forall k | k in kept ensures kept[k].id in after && after[kept[k].id] == kept[k].(root := k.1) {
      MiddleRow(rows, first, middle, second, second[k]);
    }
    forall id | id in after ensures exists k :: k in kept && kept[k].id == id {
      var k :| k in second && second[k].id == id;
      assert kept[k].id == id;
    }
  }
}
