/**
 The first half of both AP-root migrations: `ap_root` of every row of `scan_neighbors` recomputed
 from its `bssid`, grouped by new root and written in statements of at most 500 ids.
 */
module ScanNeighborMigration {
  import opened Common

  /** All ids of the groups of `roots`. */
  ghost function Grouped(groups: map<string, seq<int>>, roots: seq<string>): multiset<int>
    requires forall k | k in roots :: k in groups
  {
    if roots == [] then multiset{}
    else Grouped(groups, roots[..|roots| - 1]) + multiset(groups[roots[|roots| - 1]])
  }

  lemma {:induction false} GroupedElsewhere(groups: map<string, seq<int>>, roots: seq<string>, k: string, ids: seq<int>)
    requires (forall r | r in roots :: r in groups) && k !in roots
    ensures Grouped(groups[k := ids], roots) == Grouped(groups, roots)
  {
    if roots != [] {
      GroupedElsewhere(groups, roots[..|roots| - 1], k, ids);
    }
  }

  lemma {:induction false} GroupedAppend(groups: map<string, seq<int>>, roots: seq<string>, k: string, id: int)
    requires (forall r | r in roots :: r in groups) && k in roots && NoDup(roots)
    ensures Grouped(groups[k := groups[k] + [id]], roots) == Grouped(groups, roots) + multiset{id}
  {
    var n := |roots| - 1;
    if roots[n] == k {
      GroupedElsewhere(groups, roots[..n], k, groups[k] + [id]);
    } else {
      GroupedAppend(groups, roots[..n], k, id);
    }
  }

  /** Every id is in the group of its own root, and in no other. */
  ghost predicate GroupedBy(groups: map<string, seq<int>>, ids: seq<int>, bssids: map<int, string>,
                            rootOf: string -> string) {
    && (forall k, id | k in groups && id in groups[k] :: id in bssids && rootOf(bssids[id]) == k)
    && (forall id | id in ids :: id in bssids && rootOf(bssids[id]) in groups && id in groups[rootOf(bssids[id])])
  }

  function WithRoot(roots: map<int, string>, ids: seq<int>, root: string): map<int, string> {
    map id | id in roots :: if id in ids then root else roots[id]
  }

  lemma WithRootTwice(roots: map<int, string>, a: seq<int>, b: seq<int>, root: string)
    ensures WithRoot(WithRoot(roots, a, root), b, root) == WithRoot(roots, a + b, root)
  {
  }

  /** `by_root.setdefault(nr, []).append(rid)`. */
  method AddToGroup(groups: map<string, seq<int>>, order: seq<string>, id: int, root: string)
    returns (groups': map<string, seq<int>>, order': seq<string>)
    requires NoDup(order) && (forall k :: k in order <==> k in groups)
    ensures NoDup(order') && (forall k :: k in order' <==> k in groups')
    ensures groups' == groups[root := (if root in groups then groups[root] else []) + [id]]
    ensures Grouped(groups', order') == Grouped(groups, order) + multiset{id}
  {
    if root in groups {
      GroupedAppend(groups, order, root, id);
      groups', order' := groups[root := groups[root] + [id]], order;
    } else {
      GroupedElsewhere(groups, order, root, [id]);
      groups', order' := groups[root := [id]], order + [root];
      assert order'[..|order|] == order;
      assert [] + [id] == [id];
    }
  }

  lemma GroupedByAppend(groups: map<string, seq<int>>, ids: seq<int>, bssids: map<int, string>,
                        rootOf: string -> string, id: int)
    requires GroupedBy(groups, ids, bssids, rootOf) && id in bssids
    ensures var root := rootOf(bssids[id]);
            GroupedBy(groups[root := (if root in groups then groups[root] else []) + [id]], ids + [id], bssids, rootOf)
  {
  }

  /** The `by_root` dictionary and the order of its keys. */
  method GroupByRoot(ids: seq<int>, bssids: map<int, string>, rootOf: string -> string)
    returns (groups: map<string, seq<int>>, order: seq<string>)
    requires forall id | id in ids :: id in bssids
    ensures NoDup(order) && (forall k :: k in order <==> k in groups)
    ensures GroupedBy(groups, ids, bssids, rootOf) && Grouped(groups, order) == multiset(ids)
  {
    groups, order := map[], [];
    for i := 0 to |ids|
      invariant NoDup(order) && (forall k :: k in order <==> k in groups)
      invariant GroupedBy(groups, ids[..i], bssids, rootOf) && Grouped(groups, order) == multiset(ids[..i])
    {
      assert ids[..i + 1] == ids[..i] + [ids[i]];
      GroupedByAppend(groups, ids[..i], bssids, rootOf, ids[i]);
      groups, order := AddToGroup(groups, order, ids[i], rootOf(bssids[ids[i]]));
    }
    assert ids[..|ids|] == ids;
  }

  /** The rows whose new root is among `done` have it. */
  predicate Written(roots: map<int, string>, bssids: map<int, string>, rootOf: string -> string, done: seq<string>) {
    roots.Keys == bssids.Keys && forall id | id in bssids && rootOf(bssids[id]) in done ::
        roots[id] == rootOf(bssids[id])
  }

  lemma WriteGroup(roots: map<int, string>, bssids: map<int, string>, rootOf: string -> string, done: seq<string>,
                   groups: map<string, seq<int>>, ids: seq<int>, root: string)
    requires Written(roots, bssids, rootOf, done) && GroupedBy(groups, ids, bssids, rootOf) && root in groups
    requires forall id | id in bssids :: id in ids
    ensures Written(WithRoot(roots, groups[root], root), bssids, rootOf, done + [root])
  {
  }

  class ScanNeighbors {
    const bssids: map<int, string>
    var roots: map<int, string>
    ghost var written: multiset<int>  // the ids named by UPDATE statements

    constructor (bssids: map<int, string>, roots: map<int, string>)
      ensures this.bssids == bssids && this.roots == roots && written == multiset{}
    {
      this.bssids, this.roots, written := bssids, roots, multiset{};
    }

    method UpdateIds(chunk: seq<int>, root: string)
      requires 0 < |chunk| <= 500
      modifies this
      ensures roots == WithRoot(old(roots), chunk, root) && written == old(written) + multiset(chunk)
    {
      roots := map id | id in roots :: if id in chunk then root else roots[id];
      written := written + multiset(chunk);
    }

    method UpdateInChunks(ids: seq<int>, root: string)
      modifies this
      ensures roots == WithRoot(old(roots), ids, root) && written == old(written) + multiset(ids)
    {
      var start := 0;
      while start < |ids|
        invariant start <= |ids| + 499
        invariant var n := Min(start, |ids|);
                  roots == WithRoot(old(roots), ids[..n], root) && written == old(written) + multiset(ids[..n])
      {
        var stop := Min(start + 500, |ids|);
        assert ids[..stop] == ids[..start] + ids[start..stop];
        WithRootTwice(old(roots), ids[..start], ids[start..stop], root);
        UpdateIds(ids[start..stop], root);
        start := start + 500;
      }
      assert ids[..|ids|] == ids;
    }

    /** `ids` is what SELECT returned. Each id is written by exactly one statement, with the root
        of its own bssid. */
    method Recompute(ids: seq<int>, rootOf: string -> string)
      requires NoDup(ids) && roots.Keys == bssids.Keys && forall id :: id in ids <==> id in bssids
      modifies this
      ensures roots == map id | id in bssids :: rootOf(bssids[id])
      ensures written == old(written) + multiset(ids)
    {
      var groups, order := GroupByRoot(ids, bssids, rootOf);
      WriteGroups(groups, order, ids, rootOf);
      forall id | id in bssids ensures roots[id] == rootOf(bssids[id]) {
        assert id in ids && rootOf(bssids[id]) in order;
      }
    }

    method WriteGroups(groups: map<string, seq<int>>, order: seq<string>, ghost ids: seq<int>,
                       ghost rootOf: string -> string)
      requires GroupedBy(groups, ids, bssids, rootOf) && (forall k | k in order :: k in groups)
      requires roots.Keys == bssids.Keys && forall id | id in bssids :: id in ids
      modifies this
      ensures Written(roots, bssids, rootOf, order) && written == old(written) + Grouped(groups, order)
    {
      for j := 0 to |order|
        invariant Written(roots, bssids, rootOf, order[..j])
        invariant written == old(written) + Grouped(groups, order[..j])
      {
        assert order[..j + 1] == order[..j] + [order[j]];
        assert order[..j + 1][..j] == order[..j];
        WriteGroup(roots, bssids, rootOf, order[..j], groups, ids, order[j]);
        UpdateInChunks(groups[order[j]], order[j]);
      }
      assert order[..|order|] == order;
    }
  }
}
