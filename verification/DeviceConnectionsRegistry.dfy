/**
 The registry object of backend/app/devices/registry.py. Each method is the code of one coroutine
 between two awaits; its new state is the step of ConnectionRegistry that it performs.
 */
module DeviceConnectionsRegistry {
  import opened Common
  import opened ConnectionRegistry

  class Registry {
    var cache: map<Slug, Bundle>
    var lock: Option<Pid>
    var procs: map<Pid, Pc>
    var history: History

    ghost function State(): State
      reads this
    {
      ConnectionRegistry.State.State(lock, cache, procs, history)
    }

    /** The object is in a state that some interleaving of the protocol reaches. */
    ghost predicate Valid()
      reads this
    {
      Reachable(State())
    }

    constructor ()
      ensures Valid() && State() == Init()
    {
      cache, lock, procs, history := map[], None, map[], Init().h;
      new;
      InitReachable();
    }

    /** for_slug up to its first `_cache.get`; None means it now waits for the lock. */
    method ForSlug(p: Pid, slug: Slug) returns (found: Option<Bundle>)
      requires Valid() && p !in procs
      modifies this
      ensures Valid() && State() == Apply(old(State()), EvForSlug(p, slug))
      ensures found == if slug in old(cache) then Some(old(cache)[slug]) else None
    {
      ghost var next := ReachStep(State(), EvForSlug(p, slug));
      if slug in cache {
        found := Some(cache[slug]);
        history := Given(slug, cache[slug]);
      } else {
        found := None;
        procs := procs[p := Waiting(slug)];
        history := Ticked();
      }
    }

    /** for_slug once the lock is free: the double check, then the start of `_build`. */
    method ForSlugLocked(p: Pid) returns (found: Option<Bundle>)
      requires Valid() && Enabled(State(), EvLockForBuild(p))
      modifies this
      ensures Valid() && State() == Apply(old(State()), EvLockForBuild(p))
      ensures var slug := old(procs[p].slug);
              found == if slug in cache then Some(cache[slug]) else None
    {
      ghost var next := ReachStep(State(), EvLockForBuild(p));
      var slug := procs[p].slug;
      if slug in cache {
        found := Some(cache[slug]);
        procs := procs - {p};
        history := Given(slug, cache[slug]);
      } else {
        found := None;
        lock := Some(p);
        procs := procs[p := Building(slug)];
        history := Ticked();
      }
    }

    /** `_build`: the device row, read or missing. */
    method ReadDeviceRow(p: Pid, found: bool)
      requires Valid() && Enabled(State(), EvReadRow(p))
      modifies this
      ensures Valid() && State() == Apply(old(State()), if found then EvReadRow(p) else EvBuildFails(p))
    {
      ghost var next := ReachStep(State(), if found then EvReadRow(p) else EvBuildFails(p));
      if found {
        procs := procs[p := RowRead(procs[p].slug, history.now)];
      } else {
        lock := None;
        procs := procs - {p};
      }
      history := Ticked();
    }

    /** `_build`: credentials, URLs and probe, and the SSH client when they are all there. */
    method OpenConnections(p: Pid, ok: bool)
      requires Valid() && Enabled(State(), EvOpen(p))
      modifies this
      ensures Valid() && State() == Apply(old(State()), if ok then EvOpen(p) else EvBuildFails(p))
    {
      ghost var next := ReachStep(State(), if ok then EvOpen(p) else EvBuildFails(p));
      if ok {
        var b := Bundle(procs[p].slug, procs[p].readAt, history.now);
        history := Ticked().(place := history.place[b := Held(p)], opens := Bump(history.opens, b.slug));
        procs := procs[p := Opened(b)];
      } else {
        lock := None;
        procs := procs - {p};
        history := Ticked();
      }
    }

    /** `self._cache[slug] = conn; return conn`. */
    method StoreBuilt(p: Pid) returns (conn: Bundle)
      requires Valid() && Enabled(State(), EvStore(p))
      modifies this
      ensures Valid() && State() == Apply(old(State()), EvStore(p))
      ensures conn.slug !in old(cache) && cache == old(cache)[conn.slug := conn]
    {
      ghost var next := ReachStep(State(), EvStore(p));
      conn := procs[p].bundle;
      SingleFlight(State(), conn.slug);
      cache := cache[conn.slug := conn];
      history := Given(conn.slug, conn).(place := history.place[conn := Cached]);
      lock := None;
      procs := procs - {p};
    }

    /** invalidate once the lock is free: `_cache.pop(slug, None)`. */
    method PopLocked(p: Pid) returns (conn: Option<Bundle>)
      requires Valid() && Enabled(State(), EvPop(p))
      modifies this
      ensures Valid() && State() == Apply(old(State()), EvPop(p))
      ensures var slug := old(procs[p].slug);
              conn == (if slug in old(cache) then Some(old(cache)[slug]) else None) && slug !in cache
    {
      ghost var next := ReachStep(State(), EvPop(p));
      var slug := procs[p].slug;
      var pops := history.pops + {Pop(Some(slug), history.now)};
      if slug in cache {
        var b := cache[slug];
        conn := Some(b);
        cache := cache - {slug};
        procs := procs[p := Draining([b])];
        history := Ticked().(pops := pops, place := history.place[b := Pending(p)],
                             taken := Bump(history.taken, slug));
      } else {
        conn := None;
        procs := procs - {p};
        history := Ticked().(pops := pops);
      }
    }

    /** aclose_all once the lock is free: `list(_cache.values())`, then `_cache.clear()`. */
    method ClearLocked(p: Pid) returns (conns: seq<Bundle>)
      requires Valid() && lock == None && p in procs && procs[p].ClosingAll?
      modifies this
      ensures Valid() && Lists(conns, old(cache))
      ensures State() == Apply(old(State()), EvClear(p, conns))
    {
      ReachableInv(State());
      conns := [];
      var left := cache.Keys;
      while left != {}
        invariant left <= cache.Keys && NoDup(conns)
        invariant forall b | b in conns :: b.slug in cache.Keys - left && cache[b.slug] == b
        invariant forall k | k in cache.Keys - left :: cache[k] in conns
        decreases left
      {
        var k :| k in left;
        conns := conns + [cache[k]];
        left := left - {k};
      }
      ghost var next := ReachStep(State(), EvClear(p, conns));
      history := Ticked().(pops := history.pops + {Pop(None, history.now)},
                           place := Move(history.place, conns, Pending(p)),
                           taken := BumpAll(history.taken, cache.Keys));
      cache := map[];
      procs := if conns == [] then procs - {p} else procs[p := Draining(conns)];
    }

    /** The next `aclose` of invalidate or aclose_all. */
    method CloseOne(p: Pid) returns (conn: Bundle)
      requires Valid() && Enabled(State(), EvClose(p))
      modifies this
      ensures Valid() && State() == Apply(old(State()), EvClose(p))
      ensures old(procs[p].todo)[0] == conn && old(history.closed)[conn] == 0
    {
      ghost var next := ReachStep(State(), EvClose(p));
      var todo := procs[p].todo;
      conn := todo[0];
      OnlyAwaiting(State(), p);
      history := Ticked().(place := history.place[conn := Closed], closed := history.closed + multiset{conn});
      procs := if |todo| == 1 then procs - {p} else procs[p := Draining(todo[1..])];
    }

    function Ticked(): History
      reads this
    {
      history.(now := history.now + 1)
    }

    function Given(slug: Slug, conn: Bundle): History
      reads this
    {
      Ticked().(given := history.given + {Handout(slug, conn, history.now)})
    }
  }
}
