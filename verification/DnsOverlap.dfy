/**
 What overlapping requests of the DNS protection manager do to one network
 (backend/app/dns/manager.py:232-359): exactly which interleavings of a set and a removal leave row
 and client in agreement, and what a push does that arrives after a removal.
 */
module DnsOverlap {
  import opened Common
  import opened AdGuardClients
  import opened DnsProtection
  import opened DnsReconciliation
  import opened DnsInterleaving
  import opened DnsAgreement

  // ---------------------------- a set and a removal ---------------------------- //

  /** The writes among the marks of a run. */
  function Writes(marks: seq<Mark>): seq<Mark> {
    if marks == [] then []
    else
      var m := marks[|marks| - 1];
      Writes(marks[..|marks| - 1]) + if m == Nothing then [] else [m]
  }

  lemma {:induction false} SidesOfWrites(name: Option<string>, marks: seq<Mark>)
    ensures ClientSide(name, marks) == ClientSide(name, Writes(marks))
    ensures RowSide(name, marks) == RowSide(name, Writes(marks))
  {
    if marks != [] {
      var before, m := marks[..|marks| - 1], marks[|marks| - 1];
      SidesOfWrites(name, before);
      if m != Nothing { SidesNext(name, Writes(before), m); } else { assert Writes(before) + [] == Writes(before); }
    }
  }

  predicate Before(ms: seq<Mark>, a: Mark, b: Mark) {
    exists i, j :: 0 <= i < j < |ms| && ms[i] == a && ms[j] == b
  }

  /** The two writes of a set under name `n` and the two of a removal that read name `m`, each pair in
      its order. */
  predicate Interleaves(ms: seq<Mark>, n: string, m: string) {
    |ms| == 4 && Before(ms, Put(n), Saved(n)) && Before(ms, Gone(m), Dropped)
  }

  function After4(name: Option<string>, ms: seq<Mark>): Option<string>
    requires |ms| == 4
  {
    ClientAfter(ClientAfter(ClientAfter(ClientAfter(name, ms[0]), ms[1]), ms[2]), ms[3])
  }

  function Row4(name: Option<string>, ms: seq<Mark>): Option<string>
    requires |ms| == 4
  {
    RowAfter(RowAfter(RowAfter(RowAfter(name, ms[0]), ms[1]), ms[2]), ms[3])
  }

  lemma SidesOfFour(name: Option<string>, ms: seq<Mark>)
    requires |ms| == 4
    ensures ClientSide(name, ms) == After4(name, ms) && RowSide(name, ms) == Row4(name, ms)
  {
    var m0, m1, m2, m3 := ms[0], ms[1], ms[2], ms[3];
    SidesNext(name, [], m0);
    SidesNext(name, [m0], m1);
    SidesNext(name, [m0, m1], m2);
    SidesNext(name, [m0, m1, m2], m3);
    assert [] + [m0] == [m0] && [m0] + [m1] == [m0, m1] && [m0, m1] + [m2] == [m0, m1, m2];
    assert ms == [m0, m1, m2] + [m3];
  }

  /** In all of their interleavings row and client agree at the end exactly when the set's row survives
      just where its client does, which a deletion by another name never touches. */
  lemma OverlapAgreesIff(ms: seq<Mark>, n: string, m: string)
    requires Interleaves(ms, n, m)
    ensures ClientSide(Some(m), ms) == RowSide(Some(m), ms)
            <==> (Before(ms, Dropped, Saved(n)) <==> n != m || Before(ms, Gone(m), Put(n)))
  {
    SidesOfFour(Some(m), ms);
    FourOrder(ms, Put(n), Saved(n));
    FourOrder(ms, Gone(m), Dropped);
    FourOrder(ms, Dropped, Saved(n));
    FourOrder(ms, Gone(m), Put(n));
  }

  /** In four writes one comes before another in one of six ways. */
  lemma FourOrder(ms: seq<Mark>, a: Mark, b: Mark)
    requires |ms| == 4
    ensures Before(ms, a, b)
            <==> (ms[0] == a && (ms[1] == b || ms[2] == b || ms[3] == b))
                 || (ms[1] == a && (ms[2] == b || ms[3] == b)) || (ms[2] == a && ms[3] == b)
  {
  }

  /** So in every run in which the only writes for a network are those of one set and one removal, its
      row and client end in agreement exactly under that condition on their order. */
  lemma SetRemoveOverlapIff(w: World, flows: seq<Flow>, events: seq<Event>, k: nat, s: Slug,
                            n: string, m: string)
    requires Run(w, flows, events) && k < |flows|
    requires Agree(w, flows[0].st, s) && RowName(flows[0].st, s) == Some(m)
    requires Interleaves(Writes(Marks(flows, events, k, s)), n, m)
    ensures var ms := Writes(Marks(flows, events, k, s));
            Agree(w, flows[k].st, s) <==> (Before(ms, Dropped, Saved(n)) <==> n != m || Before(ms, Gone(m), Put(n)))
  {
    var marks := Marks(flows, events, k, s);
    AgreeIff(w, flows, events, k, s);
    SidesOfWrites(Some(m), marks);
    OverlapAgreesIff(Writes(marks), n, m);
  }

  // ---------------------------- a push after a removal ---------------------------- //

  /** A push that reaches AdGuard when its network has neither row nor client leaves an orphan client
      exactly when it is carried out as an addition: its look-up had found no client either, and no
      operator's client holds the CIDR. */
  lemma LatePushLeavesOrphanIff(w: World, f: Flow, p: Pid, wire: Wire, next: Flow)
    requires FlowInv(w, f) && Follows(w, f, Post(p, wire), next) && f.tasks[p].Posts?
    requires !Covered(w, f.st, f.tasks[p].slug)
    ensures Covered(w, next.st, f.tasks[p].slug)
            <==> !wire.Down? && f.tasks[p].existing.None? && !OperatorHolds(f.st.clients, w.cidrs[f.tasks[p].slug])
    ensures next.st.rows == f.st.rows
  {
    var t, s := f.tasks[p], f.tasks[p].slug;
    assert TaskFits(w, t);
    PostChanges(w, f, Post(p, wire), next);
    PushKeepsList(w, f.st, s, t.payload, t.existing, wire);
    LandsIff(w, f.st, s, t.payload, t.existing);
    if Lands(f.st.clients, t.payload, t.existing, wire) {
      assert t.payload in next.st.clients;
    }
  }

  lemma LandsIff(w: World, st: State, s: Slug, payload: Client, existing: Option<string>)
    requires Inv(w, st) && Owned(payload, w.cidrs, s) && (existing.Some? ==> NameOf(existing.value, s))
    requires !Covered(w, st, s)
    ensures Posted(st.clients, payload, existing).Some? <==> existing.None? && !OperatorHolds(st.clients, w.cidrs[s])
  {
    forall c | c in st.clients ensures !Matches(c, payload.name, w.cidrs[s]) {
      if Managed(c) { MatchIsOwn(c, w.cidrs, s, payload.name); }
    }
    AddEffect(st.clients, w.cidrs, s, payload);
    if existing.Some? {
      IndexOfFinds(st.clients, existing.value);
      if IndexOf(st.clients, existing.value).Some? {
        var c := st.clients[IndexOf(st.clients, existing.value).value];
        assert c in st.clients && Managed(c);
        var t :| Owned(c, w.cidrs, t);
        NameDeterminesSlug(existing.value, s, t);
      }
    }
  }

  ghost predicate Reaches(w: World, f: Flow, g: Flow) {
    exists flows: seq<Flow>, events: seq<Event> ::
      Run(w, flows, events) && flows[0] == f && flows[|events|] == g
  }

  lemma ReachNext(w: World, f: Flow, g: Flow, e: Event) returns (h: Flow)
    requires Reaches(w, f, g) && Enabled(w, g, e)
    ensures h == Step(w, g, e) && Reaches(w, f, h) && FlowInv(w, h)
  {
    h := Step(w, g, e);
    var flows: seq<Flow>, events: seq<Event> :|
      Run(w, flows, events) && flows[0] == f && flows[|events|] == g;
    var flows', events' := flows + [h], events + [e];
    assert Run(w, flows', events') by {
      forall k | 0 <= k < |events'| ensures Follows(w, flows'[k], events'[k], flows'[k + 1]) {
        if k < |events| { assert Follows(w, flows[k], events[k], flows[k + 1]); }
      }
    }
    RunKeeps(w, flows', events', |events'|);
  }

  /** The steps of a removal that nothing disturbs. */
  lemma RemovalRuns(w: World, f: Flow, q: Pid, s: Slug) returns (g: Flow)
    requires FlowInv(w, f) && s in f.st.rows && q !in f.tasks
    requires f.st.rows[s].clientName != "" && IndexOf(f.st.clients, f.st.rows[s].clientName).Some?
    ensures Reaches(w, f, g) && FlowInv(w, g)
    ensures g == f.(st := f.st.(rows := f.st.rows - {s}, clients := Delete(f.st.clients, f.st.rows[s].clientName)))
  {
    g := RemovalLooksUp(w, f, q, s);
    g := ReachNext(w, f, g, Post(q, Fine));
    assert g.tasks[q] == Drops(s);
    g := ReachNext(w, f, g, Write(q, true));
    assert g.tasks == f.tasks;
  }

  lemma RemovalLooksUp(w: World, f: Flow, q: Pid, s: Slug) returns (g: Flow)
    requires FlowInv(w, f) && s in f.st.rows && q !in f.tasks
    requires f.st.rows[s].clientName != "" && IndexOf(f.st.clients, f.st.rows[s].clientName).Some?
    ensures Reaches(w, f, g) && FlowInv(w, g)
    ensures g == f.(tasks := f.tasks[q := Deletes(s, f.st.rows[s].clientName)])
  {
    assert Run(w, [f], []);
    g := ReachNext(w, f, f, BeginRemove(q, s));
    assert g.tasks[q] == LooksUp(s, f.st.rows[s].clientName);
    g := ReachNext(w, f, g, GetList(q, true));
  }

  /** It leaves no client, and the CIDR free. */
  lemma RemovalClears(w: World, st: State, s: Slug, after: State)
    requires Inv(w, st) && Agree(w, st, s) && s in st.rows
    requires after.clients == Delete(st.clients, st.rows[s].clientName)
    ensures !Covered(w, after, s) && !OperatorHolds(after.clients, w.cidrs[s])
    ensures st.rows[s].clientName != "" && IndexOf(st.clients, st.rows[s].clientName).Some?
  {
    var name := st.rows[s].clientName;
    var own :| own in st.clients && Owned(own, w.cidrs, s) && own.name == name;
    var i :| 0 <= i < |st.clients| && st.clients[i] == own;
    OwnerStandsAlone(st.clients, w.cidrs, s, i);
    IndexOfFinds(st.clients, name);
    DeleteEffect(st.clients, w.cidrs, name);
    forall c | c in st.clients && Owned(c, w.cidrs, s) ensures c == own {
      SoleClient(w, st, s, c, own);
    }
  }

  /** A re-apply that listed a row before its removal, and pushes it after, leaves an orphan client and
      reports it as applied. */
  lemma StaleReapplyLeavesOrphan(w: World, f: Flow, p: Pid, q: Pid, s: Slug, payload: Client, rest: seq<Listed>,
                                 report: ApplyReport) returns (g: Flow)
    requires FlowInv(w, f) && Agree(w, f.st, s) && s in f.st.rows && q !in f.tasks
    requires p in f.tasks && f.tasks[p] == NeedsList(s, payload, Restoring(rest, report))
    ensures Reaches(w, f, g) && s !in g.st.rows && Covered(w, g.st, s)
    ensures p in g.tasks && g.tasks[p] == NeedsNetwork(rest, report.(applied := report.applied + [s]))
  {
    RemovalClears(w, f.st, s, f.st.(clients := Delete(f.st.clients, f.st.rows[s].clientName)));
    g := RemovalRuns(w, f, q, s);
    RemovalClears(w, f.st, s, g.st);
    assert TaskFits(w, g.tasks[p]);
    NothingFound(w, g.st, s, payload);
    g := ReachNext(w, f, g, GetList(p, true));
    assert g.tasks[p] == Posts(s, payload, None, Restoring(rest, report));
    var before := g;
    g := ReachNext(w, f, g, Post(p, Fine));
    LandsIff(w, before.st, s, payload, None);
    LatePushLeavesOrphanIff(w, before, p, Fine, g);
  }

  lemma NothingFound(w: World, st: State, s: Slug, payload: Client)
    requires Inv(w, st) && Owned(payload, w.cidrs, s) && !Covered(w, st, s)
    ensures FindManaged(st.clients, payload.name, FirstId(payload)) == None
  {
    FindManagedFirst(st.clients, payload.name, FirstId(payload));
    forall c | c in st.clients ensures !Matches(c, payload.name, w.cidrs[s]) {
      if Managed(c) { MatchIsOwn(c, w.cidrs, s, payload.name); }
    }
  }
}
