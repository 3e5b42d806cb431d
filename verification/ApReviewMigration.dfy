/**
 The `upgrade()` of both AP-root migrations: re-key every row of `ap_reviews` under a UNIQUE
 (device_slug, ap_root) constraint, keeping one row per new key, and recompute `ap_root` of every
 scanned neighbour in batches. Generic in the normaliser that gives a row its new root.
 */
module ApReviewMigration {
  import opened Common
  import opened ApRoot

  /** `reviewed` is the position of the ISO time stamp in text order; NULL is None. */
  datatype Review = Review(id: int, slug: string, root: string, sample: string, reviewed: Option<int>)

  type Key = (string, string)
  type Normaliser = Review -> string

  function KeyOf(r: Review, newRoot: Normaliser): Key { (r.slug, newRoot(r)) }

  /** `new_wins`. */
  predicate Wins(r: Review, prev: Review) {
    || (r.reviewed.Some? && (prev.reviewed.None? || r.reviewed.value > prev.reviewed.value))
    || (r.reviewed == prev.reviewed && r.id > prev.id)
  }

  lemma WinsIsTotalOrder(a: Review, b: Review, c: Review)
    ensures !Wins(a, a)
    ensures Wins(a, b) && Wins(b, c) ==> Wins(a, c)
    ensures a.id != b.id ==> (Wins(a, b) <==> !Wins(b, a))
  {
  }

  predicate DistinctIds(rows: seq<Review>) {
    forall i, j | 0 <= i < j < |rows| :: rows[i].id != rows[j].id
  }

  /** `best` holds, for every new key of `rows`, the row that wins against all others with it. */
  ghost predicate IsArgmax(best: map<Key, Review>, rows: set<Review>, newRoot: Normaliser) {
    && (forall r | r in rows :: KeyOf(r, newRoot) in best)
    && (forall k | k in best :: best[k] in rows && KeyOf(best[k], newRoot) == k)
    && (forall r | r in rows && best[KeyOf(r, newRoot)] != r :: Wins(best[KeyOf(r, newRoot)], r))
  }

  /** So the survivors do not depend on the order in which the rows are read. */
  lemma ArgmaxIsUnique(a: map<Key, Review>, b: map<Key, Review>, rows: set<Review>, newRoot: Normaliser)
    requires IsArgmax(a, rows, newRoot) && IsArgmax(b, rows, newRoot)
    ensures a == b
  {
    forall k | k in a ensures k in b && a[k] == b[k] {
      WinsIsTotalOrder(a[k], b[k], a[k]);
    }
    forall k | k in b ensures k in a {
    }
  }

  /** For every row, the survivor of its key was reviewed no earlier, never counting as the earliest, and
      among equally reviewed ones has the highest id. */
  ghost predicate KeepsNewest(best: map<Key, Review>, rows: set<Review>, newRoot: Normaliser) {
    forall r | r in rows ::
      && (r.slug, newRoot(r)) in best
      && var s := best[(r.slug, newRoot(r))];
         && s in rows && s.slug == r.slug && newRoot(s) == newRoot(r)
         && (r.reviewed.Some? ==> s.reviewed.Some? && s.reviewed.value >= r.reviewed.value)
         && (r.reviewed == s.reviewed ==> r.id <= s.id)
  }

  lemma ArgmaxKeepsNewest(best: map<Key, Review>, rows: set<Review>, newRoot: Normaliser)
    requires IsArgmax(best, rows, newRoot)
    ensures KeepsNewest(best, rows, newRoot)
  {
    forall r | r in rows
      ensures var k := KeyOf(r, newRoot);
              && k == (r.slug, newRoot(r)) && k in best
              && var s := best[k];
                 && s in rows && s.slug == r.slug && newRoot(s) == newRoot(r)
                 && (r.reviewed.Some? ==> s.reviewed.Some? && s.reviewed.value >= r.reviewed.value)
                 && (r.reviewed == s.reviewed ==> r.id <= s.id)
    {
      assert best[KeyOf(r, newRoot)] in rows;
    }
  }

  function AsSet(rows: seq<Review>): set<Review> { set r | r in rows }

  predicate DistinctIn(rows: set<Review>) { forall r, q | r in rows && q in rows && r.id == q.id :: r == q }

  /** `dropIds` lists, each once, the ids of the rows of `done` that did not survive. */
  ghost predicate DropsLosers(best: map<Key, Review>, dropIds: seq<int>, done: set<Review>, newRoot: Normaliser)
    requires IsArgmax(best, done, newRoot)
  {
    && NoDup(dropIds)
    && (forall r | r in done :: r.id in dropIds <==> best[KeyOf(r, newRoot)] != r)
    && (forall id | id in dropIds :: exists r :: r in done && r.id == id)
  }

  lemma ArgmaxAdds(best: map<Key, Review>, done: set<Review>, newRoot: Normaliser, row: Review)
    requires IsArgmax(best, done, newRoot) && DistinctIn(done + {row}) && row !in done
    ensures var key := KeyOf(row, newRoot);
            IsArgmax(if key in best && !Wins(row, best[key]) then best else best[key := row], done + {row}, newRoot)
  {
    var key := KeyOf(row, newRoot);
    if key in best && Wins(row, best[key]) {
      forall r | r in done && KeyOf(r, newRoot) == key ensures Wins(row, r) {
        WinsIsTotalOrder(row, best[key], r);
      }
    }
  }

  lemma DropsAdds(best: map<Key, Review>, dropIds: seq<int>, done: set<Review>, newRoot: Normaliser, row: Review)
    requires DistinctIn(done + {row}) && row !in done && IsArgmax(best, done, newRoot)
    requires DropsLosers(best, dropIds, done, newRoot)
    ensures var key := KeyOf(row, newRoot);
            var best' := if key in best && !Wins(row, best[key]) then best else best[key := row];
            var loser := if key !in best then [] else if Wins(row, best[key]) then [best[key].id] else [row.id];
            && IsArgmax(best', done + {row}, newRoot)
            && DropsLosers(best', dropIds + loser, done + {row}, newRoot)
  {
    ArgmaxAdds(best, done, newRoot, row);
    var key := KeyOf(row, newRoot);
    assert row.id !in dropIds;
    if key in best {
      assert best[key] in done && best[key].id !in dropIds;
    }
  }

  /** What the survivors loop has established about the rows it has seen. */
  ghost predicate Resolved(best: map<Key, Review>, order: seq<Key>, dropIds: seq<int>, done: set<Review>,
                           newRoot: Normaliser) {
    && IsArgmax(best, done, newRoot) && DropsLosers(best, dropIds, done, newRoot)
    && NoDup(order) && (forall k :: k in order <==> k in best)
  }

  /** One turn of the survivors loop. */
  method ResolveRow(best: map<Key, Review>, order: seq<Key>, dropIds: seq<int>, ghost done: set<Review>,
                    row: Review, newRoot: Normaliser)
    returns (best': map<Key, Review>, order': seq<Key>, dropIds': seq<int>)
    requires Resolved(best, order, dropIds, done, newRoot) && DistinctIn(done + {row}) && row !in done
    ensures Resolved(best', order', dropIds', done + {row}, newRoot)
  {
    best', order', dropIds' := best, order, dropIds;
    var key := KeyOf(row, newRoot);
    DropsAdds(best, dropIds, done, newRoot, row);
    if key !in best {
      best' := best[key := row];
      order' := order + [key];
      assert dropIds + [] == dropIds;
    } else if Wins(row, best[key]) {
      dropIds' := dropIds + [best[key].id];
      best' := best[key := row];
    } else {
      dropIds' := dropIds + [row.id];
    }
  }

  /** The survivors loop: the survivor of every key, the keys in the order of the dictionary, and
      the ids to delete. Survivors and dropped rows partition the table. */
  method Resolve(rows: seq<Review>, newRoot: Normaliser)
    returns (best: map<Key, Review>, order: seq<Key>, dropIds: seq<int>)
    requires DistinctIds(rows)
    ensures Resolved(best, order, dropIds, AsSet(rows), newRoot)
    ensures KeepsNewest(best, AsSet(rows), newRoot)
  {
    best, order, dropIds := map[], [], [];
    for i := 0 to |rows|
      invariant Resolved(best, order, dropIds, AsSet(rows[..i]), newRoot)
    {
      PrefixDistinct(rows, i);
      best, order, dropIds := ResolveRow(best, order, dropIds, AsSet(rows[..i]), rows[i], newRoot);
    }
    assert rows[..|rows|] == rows;
    ArgmaxKeepsNewest(best, AsSet(rows), newRoot);
  }

  lemma PrefixDistinct(rows: seq<Review>, i: nat)
    requires DistinctIds(rows) && i < |rows|
    ensures AsSet(rows[..i + 1]) == AsSet(rows[..i]) + {rows[i]}
    ensures DistinctIn(AsSet(rows[..i + 1])) && rows[i] !in AsSet(rows[..i])
  {
    assert rows[..i + 1] == rows[..i] + [rows[i]];
  }

  // ---------------------------- the row-by-row update ---------------------------- //

  /** When the i-th survivor is given its new root, the later survivor j still has that root. */
  predicate Clash(best: map<Key, Review>, order: seq<Key>, i: nat, j: nat)
    requires i < j < |order| && forall k | k in order :: k in best
  {
    order[i].0 == order[j].0 && best[order[j]].root == order[i].1
  }

  predicate LetThrough(best: map<Key, Review>, order: seq<Key>, i: nat)
    requires i < |order| && forall k | k in order :: k in best
  {
    forall j | i < j < |order| :: !Clash(best, order, i, j)
  }

  predicate ClashFree(best: map<Key, Review>, order: seq<Key>)
    requires forall k | k in order :: k in best
  {
    forall i | 0 <= i < |order| :: LetThrough(best, order, i)
  }

  /** A normaliser that depends on the old root alone, and leaves its own results alone, never
      clashes, in whatever order the survivors are visited. */
  lemma IdempotentNeverClashes(best: map<Key, Review>, order: seq<Key>, rows: set<Review>,
                               newRoot: Normaliser, mask: string -> string)
    requires IsArgmax(best, rows, newRoot) && NoDup(order) && forall k | k in order :: k in best
    requires forall r | r in rows :: newRoot(r) == mask(r.root)
    requires forall s :: mask(mask(s)) == mask(s)
    ensures ClashFree(best, order)
  {
    forall i, j | 0 <= i < j < |order| ensures !Clash(best, order, i, j) {
      var a, b := best[order[i]], best[order[j]];
      assert KeyOf(a, newRoot) == order[i] && KeyOf(b, newRoot) == order[j];
      assert mask(mask(a.root)) == mask(a.root) == order[i].1 && mask(b.root) == order[j].1;
      assert order[i] != order[j];
    }
  }

  /** The new root in each migration. */
  function NewRootUpperFive(r: Review): string {
    if r.sample != "" then UpperFive(r.sample) else StripChannel(r.root)
  }

  function NewRootMasked(r: Review): string {
    if r.sample != "" then Masked(r.sample) else MaskExisting(r.root)
  }

  /** The LA-mask migration never collides midway when every sample masks to what its row's old
      root masks to. */
  lemma MaskedNeverClashes(best: map<Key, Review>, order: seq<Key>, rows: set<Review>)
    requires IsArgmax(best, rows, NewRootMasked) && NoDup(order) && forall k | k in order :: k in best
    requires forall r | r in rows && r.sample != "" :: Masked(r.sample) == MaskExisting(r.root)
    ensures ClashFree(best, order)
  {
    forall s ensures MaskExisting(MaskExisting(s)) == MaskExisting(s) {
      MaskExistingIdempotent(s);
    }
    IdempotentNeverClashes(best, order, rows, NewRootMasked, MaskExisting);
  }

  /** That is so of the rows as the previous migration leaves them, unless some sample has
      exactly five parts that the mask would change. */
  lemma MaskedAfterUpperFiveNeverClashes(best: map<Key, Review>, order: seq<Key>, rows: set<Review>)
    requires IsArgmax(best, rows, NewRootMasked) && NoDup(order) && forall k | k in order :: k in best
    requires forall r | r in rows && r.sample != "" :: r.root == UpperFive(r.sample) && !FivePartSample(r.sample)
    ensures ClashFree(best, order)
  {
    forall r | r in rows && r.sample != "" ensures Masked(r.sample) == MaskExisting(r.root) {
      MaskAfterUpperFive(r.sample);
    }
    MaskedNeverClashes(best, order, rows);
  }

  /** The drop-channel migration never collides midway while every old root carries its channel
      suffix and no new root does. */
  lemma UpperFiveNeverClashes(best: map<Key, Review>, order: seq<Key>, rows: set<Review>)
    requires IsArgmax(best, rows, NewRootUpperFive) && NoDup(order) && forall k | k in order :: k in best
    requires forall r | r in rows :: '@' in r.root && (r.sample != "" ==> '@' !in UpperFive(r.sample))
    ensures ClashFree(best, order)
  {
    forall i, j | 0 <= i < j < |order| ensures !Clash(best, order, i, j) {
      var a := best[order[i]];
      assert KeyOf(a, NewRootUpperFive) == order[i];
      StripChannelIdempotent(a.root);
      assert best[order[j]] in rows;
    }
  }

  /** In general it can collide, and then whether it does depends on the order of the rows. */
  lemma OrderDecidesTheClash() returns (a: Review, b: Review, best: map<Key, Review>, order: seq<Key>)
    ensures (a.slug, a.root) != (b.slug, b.root) && a.id != b.id
    ensures IsArgmax(best, {a, b}, NewRootMasked) && NoDup(order) && forall k | k in order :: k in best
    ensures |order| == 2 && !ClashFree(best, order) && ClashFree(best, [order[1], order[0]])
  {
    a := Review(1, "d", "p", "n", None);
    b := Review(2, "d", "n", "m", None);
    MaskedOfLetter('n');
    MaskedOfLetter('m');
    best := map[("d", "n") := a, ("d", "m") := b];
    order := [("d", "n"), ("d", "m")];
    assert Clash(best, order, 0, 1) && !LetThrough(best, order, 0);
  }

  lemma MaskedOfLetter(c: char)
    requires 'a' <= c <= 'z'
    ensures Masked([c]) == [c]
  {
    assert Lower([c]) == [c];
    assert Strip([c]) == [c];
    SplitAlone([c], ':');
  }

  // ---------------------------- the table ---------------------------- //

  predicate Unique(rows: map<int, Review>) {
    forall x, y | x in rows && y in rows && x != y :: (rows[x].slug, rows[x].root) != (rows[y].slug, rows[y].root)
  }

  function RowsOf(rows: map<int, Review>): set<Review> { set id | id in rows :: rows[id] }

  predicate SurvivorKeys(best: map<Key, Review>, order: seq<Key>) {
    && NoDup(order) && (forall k | k in order :: k in best && best[k].slug == k.0)
    && forall i, j | 0 <= i < j < |order| :: best[order[i]].id != best[order[j]].id
  }

  function Survivor(best: map<Key, Review>, order: seq<Key>, i: nat): Review
    requires SurvivorKeys(best, order) && i < |order|
  {
    best[order[i]]
  }

  /** The table holds the survivors, the first n of them, in `order`, with their new roots. */
  ghost predicate Rekeyed(rows: map<int, Review>, best: map<Key, Review>, order: seq<Key>, n: nat)
    requires SurvivorKeys(best, order)
  {
    && (forall id | id in rows :: exists i :: 0 <= i < |order| && Survivor(best, order, i).id == id)
    && (forall i | 0 <= i < |order| ::
          var r := Survivor(best, order, i);
          r.id in rows && rows[r.id] == if i < n then r.(root := order[i].1) else r)
  }

  lemma RekeyOne(rows: map<int, Review>, best: map<Key, Review>, order: seq<Key>, n: nat)
    requires SurvivorKeys(best, order) && n < |order| && Rekeyed(rows, best, order, n)
    ensures var id := Survivor(best, order, n).id;
            id in rows && Rekeyed(rows[id := rows[id].(root := order[n].1)], best, order, n + 1)
  {
    assert forall i | 0 <= i < |order| && i != n :: Survivor(best, order, i).id != Survivor(best, order, n).id;
  }

  /** The n-th update is let through exactly when no later survivor still has its new root. */
  lemma LetThroughIff(rows: map<int, Review>, best: map<Key, Review>, order: seq<Key>, n: nat)
    requires SurvivorKeys(best, order) && n < |order| && Rekeyed(rows, best, order, n)
    ensures var id := Survivor(best, order, n).id;
            (forall x | x in rows && x != id :: (rows[x].slug, rows[x].root) != (rows[id].slug, order[n].1))
            <==> LetThrough(best, order, n)
  {
    var id := Survivor(best, order, n).id;
    forall j | n < j < |order|
      ensures var x := Survivor(best, order, j).id;
              x in rows && x != id &&
              (Clash(best, order, n, j) <==> (rows[x].slug, rows[x].root) == (rows[id].slug, order[n].1))
    {
    }
    forall x | x in rows && x != id && forall j | n < j < |order| :: Survivor(best, order, j).id != x
      ensures (rows[x].slug, rows[x].root) != (rows[id].slug, order[n].1)
    {
      var j :| 0 <= j < |order| && Survivor(best, order, j).id == x;
      assert order[j] != order[n];
    }
  }

  /** SELECT over the table, in whatever order the rows come. */
  method SelectAll(rows: map<int, Review>) returns (all: seq<Review>)
    requires forall id | id in rows :: rows[id].id == id
    ensures DistinctIds(all) && AsSet(all) == RowsOf(rows)
  {
    all := [];
    var left := RowsOf(rows);
    while left != {}
      invariant left <= RowsOf(rows) && DistinctIds(all)
      invariant forall r | r in all :: r in RowsOf(rows) && r !in left
      invariant forall r | r in RowsOf(rows) && r !in left :: r in all
      decreases left
    {
      var r :| r in left;
      assert forall x | x in all :: x.id != r.id;
      all := all + [r];
      left := left - {r};
    }
  }

  class ApReviews {
    var rows: map<int, Review>
    ghost var deleted: seq<int>  // the ids of all DELETE statements, in order

    ghost predicate Valid()
      reads this
    {
      Unique(rows) && forall id | id in rows :: rows[id].id == id
    }

    method DeleteIds(chunk: seq<int>)
      requires Valid() && 0 < |chunk| <= 500
      modifies this
      ensures Valid() && rows == old(rows) - (set id | id in chunk)
      ensures deleted == old(deleted) + chunk
    {
      rows := rows - (set id | id in chunk);
      deleted := deleted + chunk;
    }

    /** One UPDATE of one row; false is the UNIQUE constraint refusing it. */
    method SetRoot(id: int, root: string) returns (ok: bool)
      requires Valid() && id in rows
      modifies this`rows
      ensures Valid()
      ensures ok <==> forall x | x in old(rows) && x != id ::
              (old(rows)[x].slug, old(rows)[x].root) != (old(rows)[id].slug, root)
      ensures rows == if ok then old(rows)[id := old(rows)[id].(root := root)] else old(rows)
    {
      ok := forall x | x in rows && x != id :: (rows[x].slug, rows[x].root) != (rows[id].slug, root);
      if ok {
        rows := rows[id := rows[id].(root := root)];
      }
    }

    /** Every id is named by exactly one statement of at most 500 ids. */
    method DeleteInChunks(ids: seq<int>)
      requires Valid()
      modifies this
      ensures Valid() && rows == old(rows) - (set id | id in ids)
      ensures deleted == old(deleted) + ids
    {
      var start := 0;
      while start < |ids|
        invariant start <= |ids| + 499 && Valid()
        invariant var n := Min(start, |ids|);
                  rows == old(rows) - (set id | id in ids[..n]) && deleted == old(deleted) + ids[..n]
        decreases |ids| - start
      {
        var stop := Min(start + 500, |ids|);
        assert ids[..stop] == ids[..start] + ids[start..stop];
        DeleteIds(ids[start..stop]);
        start := start + 500;
      }
      assert ids[..|ids|] == ids;
    }

    /** The last loop: it gets through exactly when no survivor clashes with a later one. */
    method UpdateSurvivors(best: map<Key, Review>, order: seq<Key>) returns (ok: bool)
      requires Valid() && SurvivorKeys(best, order) && Rekeyed(rows, best, order, 0)
      modifies this`rows
      ensures Valid() && (ok <==> ClashFree(best, order))
      ensures ok ==> Rekeyed(rows, best, order, |order|)
    {
      ok := true;
      var i := 0;
      while ok && i < |order|
        invariant i <= |order| && Valid()
        invariant ok ==> Rekeyed(rows, best, order, i) && forall p | 0 <= p < i :: LetThrough(best, order, p)
        invariant !ok ==> !ClashFree(best, order)
      {
        ok := UpdateSurvivor(best, order, i);
        i := i + 1;
      }
    }

    method UpdateSurvivor(best: map<Key, Review>, order: seq<Key>, i: nat) returns (ok: bool)
      requires Valid() && SurvivorKeys(best, order) && i < |order| && Rekeyed(rows, best, order, i)
      modifies this`rows
      ensures Valid() && (ok <==> LetThrough(best, order, i))
      ensures ok ==> Rekeyed(rows, best, order, i + 1)
    {
      var id := best[order[i]].id;
      assert Survivor(best, order, i).id == id;
      RekeyOne(rows, best, order, i);
      LetThroughIff(rows, best, order, i);
      ok := SetRoot(id, order[i].1);
    }

    /** upgrade() on ap_reviews. */
    method Upgrade(newRoot: Normaliser) returns (ok: bool, best: map<Key, Review>, order: seq<Key>)
      requires Valid()
      modifies this
      ensures Valid()
      ensures IsArgmax(best, RowsOf(old(rows)), newRoot) && NoDup(order) && (forall k :: k in order <==> k in best)
      ensures KeepsNewest(best, RowsOf(old(rows)), newRoot)
      ensures ok <==> ClashFree(best, order)
      ensures SurvivorKeys(best, order) && (ok ==> Rekeyed(rows, best, order, |order|))
    {
      var all := SelectAll(rows);
      var dropIds;
      best, order, dropIds := Resolve(all, newRoot);
      ghost var before := rows;
      DeleteInChunks(dropIds);
      SurvivorsAreDistinct(before, best, order, newRoot);
      SurvivorsRemain(before, rows, best, order, dropIds, newRoot);
      ok := UpdateSurvivors(best, order);
    }
  }

  lemma SurvivorsAreDistinct(rows: map<int, Review>, best: map<Key, Review>, order: seq<Key>, newRoot: Normaliser)
    requires forall id | id in rows :: rows[id].id == id
    requires IsArgmax(best, RowsOf(rows), newRoot)
    requires NoDup(order) && forall k :: k in order <==> k in best
    ensures SurvivorKeys(best, order)
  {
    forall i, j | 0 <= i < j < |order| ensures best[order[i]].id != best[order[j]].id {
      var a, b := best[order[i]], best[order[j]];
      assert rows[a.id] == a && rows[b.id] == b;
      assert KeyOf(a, newRoot) == order[i] && KeyOf(b, newRoot) == order[j];
      assert order[i] != order[j];
    }
  }

  lemma SurvivorsRemain(before: map<int, Review>, rows: map<int, Review>, best: map<Key, Review>,
                        order: seq<Key>, dropIds: seq<int>, newRoot: Normaliser)
    requires forall id | id in before :: before[id].id == id
    requires IsArgmax(best, RowsOf(before), newRoot) && DropsLosers(best, dropIds, RowsOf(before), newRoot)
    requires (forall k :: k in order <==> k in best) && SurvivorKeys(best, order)
    requires rows == before - (set id | id in dropIds)
    ensures Rekeyed(rows, best, order, 0)
  {
    forall i | 0 <= i < |order|
      ensures var r := Survivor(best, order, i); r.id in rows && rows[r.id] == r
    {
      var r := Survivor(best, order, i);
      assert r in RowsOf(before) && KeyOf(r, newRoot) == order[i];
    }
    forall id | id in rows ensures exists i :: 0 <= i < |order| && Survivor(best, order, i).id == id {
      var r := before[id];
      assert r in RowsOf(before) && r.id !in dropIds;
      assert best[KeyOf(r, newRoot)] == r;
      var i :| 0 <= i < |order| && order[i] == KeyOf(r, newRoot);
      assert Survivor(best, order, i).id == id;
    }
  }
}
