/**
 Requests of the DNS protection manager need not wait for one another across networks: it is enough
 that those on the same network do not overlap (backend/app/dns/manager.py:232-359).
 */
module DnsRequestsApart {
  import opened Common
  import opened AdGuardClients
  import opened DnsProtection
  import opened DnsReconciliation
  import opened DnsInterleaving
  import opened DnsAgreement

  /** The request is a set or a removal of network `s`. */
  predicate Claims(t: Task, s: Slug) {
    match t
    case NeedsLevel(slug, _, _, _) => slug == s
    case NeedsList(slug, _, purpose) => slug == s && purpose.Saving?
    case Posts(slug, _, _, purpose) => slug == s && purpose.Saving?
    case Saves(slug, _) => slug == s
    case LooksUp(slug, _) => slug == s
    case Deletes(slug, _) => slug == s
    case Drops(slug) => slug == s
    case _ => false
  }

  predicate Holds(rest: seq<Listed>, s: Slug) { exists l :: l in rest && l.slug == s }

  /** The request is a re-apply that has the row of network `s` still to push. */
  predicate Restores(t: Task, s: Slug) {
    match t
    case NeedsList(slug, _, Restoring(rest, _)) => slug == s || Holds(rest, s)
    case Posts(slug, _, _, Restoring(rest, _)) => slug == s || Holds(rest, s)
    case NeedsNetwork(rest, _) => Holds(rest, s)
    case NeedsRowLevel(item, _, rest, _) => item.slug == s || Holds(rest, s)
    case _ => false
  }

  /** While a set or removal on `s` is under way, no other request has to do with `s`. */
  predicate Apart(f: Flow, s: Slug) {
    forall p, q | p in f.tasks && q in f.tasks && p != q && Claims(f.tasks[p], s) ::
      !Claims(f.tasks[q], s) && !Restores(f.tasks[q], s)
  }

  /** A request on `s` has changed AdGuard and is about to write the row. */
  predicate BetweenWrites(f: Flow, s: Slug) {
    exists p :: p in f.tasks && Midway(f.tasks[p], s)
  }

  predicate Midway(t: Task, s: Slug) { Claims(t, s) && (t.Saves? || t.Drops?) }

  /** The step does not fail halfway through a request on `s`: what AdGuard carries out is answered
      and the row is then written (or has that name already), nobody cancels in between, and AdGuard
      does not lose a client that has a row. */
  ghost predicate Smooth(f: Flow, e: Event, s: Slug) {
    match e
    case GetList(p, ok) => p in f.tasks && f.tasks[p].LooksUp? && f.tasks[p].slug == s ==> ok
    case Post(p, wire) =>
      p in f.tasks && Claims(f.tasks[p], s) ==>
        (match f.tasks[p]
         case Posts(_, payload, existing, _) =>
           wire.Lost? && Lands(f.st.clients, payload, existing, wire) ==> RowName(f.st, s) == Some(payload.name)
         case _ => !wire.Down?)
    case Write(p, dbOk) =>
      p in f.tasks && Claims(f.tasks[p], s) ==>
        dbOk || (f.tasks[p].Saves? && RowName(f.st, s) == Some(f.tasks[p].row.clientName))
    case Cancel(p) => p in f.tasks ==> !Midway(f.tasks[p], s)
    case Wipe => s !in f.st.rows && !BetweenWrites(f, s)
    case _ => true
  }

  predicate RestIsLive(st: State, rest: seq<Listed>, s: Slug) {
    forall l | l in rest && l.slug == s :: s in st.rows && l.row == st.rows[s]
  }

  /** What a request on `s` knows of the stores, when nobody interferes. */
  ghost predicate TaskPhase(w: World, st: State, t: Task, s: Slug) {
    match t
    case Saves(slug, row) => slug == s ==> HasName(w, st.clients, s, Some(row.clientName))
    case Drops(slug) => slug == s ==> HasName(w, st.clients, s, None)
    case LooksUp(slug, name) => slug == s ==> RowName(st, s) == Some(name)
    case Deletes(slug, name) => slug == s ==> RowName(st, s) == Some(name)
    case NeedsList(slug, payload, Restoring(rest, _)) =>
      (slug == s ==> RowName(st, s) == Some(payload.name)) && RestIsLive(st, rest, s)
    case Posts(slug, payload, _, Restoring(rest, _)) =>
      (slug == s ==> RowName(st, s) == Some(payload.name)) && RestIsLive(st, rest, s)
    case NeedsNetwork(rest, _) => RestIsLive(st, rest, s)
    case NeedsRowLevel(item, _, rest, _) => RestIsLive(st, [item], s) && RestIsLive(st, rest, s)
    case _ => true
  }

  ghost predicate Phase(w: World, f: Flow, s: Slug) {
    && (forall p | p in f.tasks :: TaskPhase(w, f.st, f.tasks[p], s))
    && (!BetweenWrites(f, s) ==> Agree(w, f.st, s))
  }

  /** Row and clients of `s` are as before. */
  ghost predicate SameFor(w: World, before: State, after: State, s: Slug) {
    && (s in after.rows <==> s in before.rows) && (s in after.rows ==> after.rows[s] == before.rows[s])
    && (forall c | Owned(c, w.cidrs, s) :: c in after.clients <==> c in before.clients)
  }

  lemma SameForKeeps(w: World, before: State, after: State, t: Task, s: Slug)
    requires SameFor(w, before, after, s)
    ensures TaskPhase(w, before, t, s) ==> TaskPhase(w, after, t, s)
    ensures Agree(w, before, s) <==> Agree(w, after, s)
  {
    forall name ensures HasName(w, before.clients, s, name) <==> HasName(w, after.clients, s, name) {
    }
  }

  /** The other requests have nothing to do with a network that one of them claims. */
  lemma OthersIdle(w: World, st: State, t: Task, s: Slug)
    requires !Claims(t, s) && !Restores(t, s)
    ensures TaskPhase(w, st, t, s)
  {
  }

  /** A step that leaves row and clients of `s` alone, and after which its own request stands well. */
  lemma AsideKeeps(w: World, f: Flow, next: Flow, p: Pid, s: Slug)
    requires Phase(w, f, s) && SameFor(w, f.st, next.st, s) && OnlyMoves(f, next, p)
    requires p in next.tasks ==> TaskPhase(w, next.st, next.tasks[p], s)
    requires p in f.tasks ==> !Midway(f.tasks[p], s)
    ensures Phase(w, next, s)
  {
    forall q | q in next.tasks ensures TaskPhase(w, next.st, next.tasks[q], s) {
      if q != p { SameForKeeps(w, f.st, next.st, f.tasks[q], s); }
    }
    if BetweenWrites(f, s) {
      var q :| q in f.tasks && Midway(f.tasks[q], s);
      assert q in next.tasks && Midway(next.tasks[q], s);
    } else {
      SameForKeeps(w, f.st, next.st, Drops(s), s);
    }
  }

  /** A step of a request on `s` itself, after which the stores agree or it is about to write. */
  lemma OwnKeeps(w: World, f: Flow, next: Flow, p: Pid, s: Slug)
    requires OnlyMoves(f, next, p) && (p in next.tasks ==> TaskPhase(w, next.st, next.tasks[p], s))
    requires forall q | q in f.tasks && q != p :: TaskPhase(w, next.st, f.tasks[q], s)
    requires (p in next.tasks && Midway(next.tasks[p], s)) || Agree(w, next.st, s)
    ensures Phase(w, next, s)
  {
  }

  /** The stores agree on a network when a request that has to do with it is not midway itself. */
  lemma AgreeWhenInvolved(w: World, f: Flow, p: Pid, s: Slug)
    requires Phase(w, f, s) && Apart(f, s) && p in f.tasks && !Midway(f.tasks[p], s)
    requires Claims(f.tasks[p], s) || Restores(f.tasks[p], s)
    ensures Agree(w, f.st, s)
  {
    forall q | q in f.tasks ensures !Midway(f.tasks[q], s) {
    }
  }

  /** Where the stores agree, a row has a name, and a client of that name is in the list. */
  lemma AgreedName(w: World, st: State, s: Slug)
    requires Agree(w, st, s) && s in st.rows
    ensures st.rows[s].clientName != "" && IndexOf(st.clients, st.rows[s].clientName).Some?
    ensures HasName(w, st.clients, s, Some(st.rows[s].clientName))
  {
    var c :| c in st.clients && Owned(c, w.cidrs, s) && c.name == st.rows[s].clientName;
    IndexOfFinds(st.clients, c.name);
  }

  // ---------------------------- requests that read ---------------------------- //

  lemma BeginPhase(w: World, f: Flow, e: Event, next: Flow, s: Slug)
    requires Phase(w, f, s) && Follows(w, f, e, next) && Apart(next, s)
    requires e.BeginSet? || e.BeginRemove? || e.BeginReapply?
    ensures Phase(w, next, s)
  {
    if e.BeginRemove? && e.slug == s && s in f.st.rows {
      forall q | q in f.tasks ensures !Midway(f.tasks[q], s) {
        assert q in next.tasks && next.tasks[q] == f.tasks[q] && e.p in next.tasks;
      }
      AgreedName(w, f.st, s);
    }
    AsideKeeps(w, f, next, e.p, s);
  }

  lemma NextRowPhase(w: World, f: Flow, e: Event, next: Flow, s: Slug)
    requires Phase(w, f, s) && Follows(w, f, e, next) && Smooth(f, e, s)
    requires e.ReadNetwork? || e.Cancel?
    ensures Phase(w, next, s)
  {
    assert TaskPhase(w, f.st, f.tasks[e.p], s);
    if e.ReadNetwork? && f.tasks[e.p].rest != [] {
      var rest := f.tasks[e.p].rest;
      assert rest[0] in rest && forall l | l in rest[1..] :: l in rest;
    }
    AsideKeeps(w, f, next, e.p, s);
  }

  lemma LevelPhase(w: World, f: Flow, e: Event, next: Flow, s: Slug)
    requires Phase(w, f, s) && Follows(w, f, e, next) && Apart(f, s) && e.ReadLevel?
    ensures Phase(w, next, s)
  {
    var t := f.tasks[e.p];
    assert TaskPhase(w, f.st, t, s);
    if t.NeedsRowLevel? && t.item.slug == s {
      assert t.item in [t.item];
      AgreeWhenInvolved(w, f, e.p, s);
      AgreedName(w, f.st, s);
    }
    AsideKeeps(w, f, next, e.p, s);
  }

  lemma ListPhase(w: World, f: Flow, e: Event, next: Flow, s: Slug)
    requires Phase(w, f, s) && Follows(w, f, e, next) && Apart(f, s) && Smooth(f, e, s) && e.GetList?
    ensures Phase(w, next, s)
  {
    var t := f.tasks[e.p];
    assert TaskPhase(w, f.st, t, s);
    if t.LooksUp? && t.slug == s {
      AgreeWhenInvolved(w, f, e.p, s);
      AgreedName(w, f.st, s);
    }
    AsideKeeps(w, f, next, e.p, s);
  }

  // ---------------------------- requests that write ---------------------------- //

  lemma OthersHaveNothing(f: Flow, p: Pid, s: Slug)
    requires Apart(f, s) && p in f.tasks && Claims(f.tasks[p], s)
    ensures forall q | q in f.tasks && q != p :: !Claims(f.tasks[q], s) && !Restores(f.tasks[q], s)
  {
  }

  /** A write for another network. */
  lemma ElsewherePhase(w: World, f: Flow, e: Event, next: Flow, s: Slug)
    requires FlowInv(w, f) && Phase(w, f, s) && Follows(w, f, e, next)
    requires (e.Post? || e.Write?) && f.tasks[e.p].slug != s
    ensures Phase(w, next, s)
  {
    var t := f.tasks[e.p];
    assert TaskPhase(w, f.st, t, s) && TaskFits(w, t);
    ElsewhereSame(w, f, e, next, s);
    ElsewhereMoves(w, f, e, next, s);
    AsideKeeps(w, f, next, e.p, s);
  }

  lemma ElsewhereSame(w: World, f: Flow, e: Event, next: Flow, s: Slug)
    requires FlowInv(w, f) && Follows(w, f, e, next) && (e.Post? || e.Write?) && f.tasks[e.p].slug != s
    ensures SameFor(w, f.st, next.st, s)
  {
    if e.Post? {
      PostKeeps(w, f, e, next);
    } else {
      WriteChanges(w, f, e, next);
    }
  }

  lemma ElsewhereMoves(w: World, f: Flow, e: Event, next: Flow, s: Slug)
    requires Follows(w, f, e, next) && (e.Post? || e.Write?) && f.tasks[e.p].slug != s
    requires TaskPhase(w, f.st, f.tasks[e.p], s) && SameFor(w, f.st, next.st, s)
    ensures OnlyMoves(f, next, e.p)
    ensures e.p in next.tasks ==> TaskPhase(w, next.st, next.tasks[e.p], s)
  {
  }

  lemma PushPhase(w: World, f: Flow, e: Event, next: Flow, s: Slug)
    requires FlowInv(w, f) && Phase(w, f, s) && Follows(w, f, e, next) && Apart(f, s) && Smooth(f, e, s)
    requires e.Post? && f.tasks[e.p].Posts? && f.tasks[e.p].slug == s
    ensures Phase(w, next, s)
  {
    var t := f.tasks[e.p];
    var name := RowName(f.st, s);
    assert TaskPhase(w, f.st, t, s) && TaskFits(w, t);
    AgreeWhenInvolved(w, f, e.p, s);
    PostNames(w, f, e, next, s, name);
    RunsOn(w, f, e, next);
    AgreeIffNames(w, next.st, s, ClientAfter(name, MarkOf(f, e, s)));
    forall q | q in f.tasks && q != e.p ensures TaskPhase(w, next.st, f.tasks[q], s) {
      assert TaskPhase(w, f.st, f.tasks[q], s);
      assert Claims(t, s) || Restores(t, s);
    }
    OwnKeeps(w, f, next, e.p, s);
  }

  /** The list after a push is still well formed. */
  lemma RunsOn(w: World, f: Flow, e: Event, next: Flow)
    requires FlowInv(w, f) && Follows(w, f, e, next)
    ensures Inv(w, next.st)
  {
    StepKeeps(w, f, e, next);
  }

  lemma DeletePhase(w: World, f: Flow, e: Event, next: Flow, s: Slug)
    requires FlowInv(w, f) && Phase(w, f, s) && Follows(w, f, e, next) && Apart(f, s) && Smooth(f, e, s)
    requires e.Post? && f.tasks[e.p].Deletes? && f.tasks[e.p].slug == s
    ensures Phase(w, next, s)
  {
    var t := f.tasks[e.p];
    assert TaskPhase(w, f.st, t, s);
    AgreeWhenInvolved(w, f, e.p, s);
    PostNames(w, f, e, next, s, RowName(f.st, s));
    OthersHaveNothing(f, e.p, s);
    forall q | q in f.tasks && q != e.p ensures TaskPhase(w, next.st, f.tasks[q], s) {
      OthersIdle(w, next.st, f.tasks[q], s);
    }
    OwnKeeps(w, f, next, e.p, s);
  }

  lemma WritePhase(w: World, f: Flow, e: Event, next: Flow, s: Slug)
    requires FlowInv(w, f) && Phase(w, f, s) && Follows(w, f, e, next) && Apart(f, s) && Smooth(f, e, s)
    requires e.Write? && f.tasks[e.p].slug == s
    ensures Phase(w, next, s)
  {
    var t := f.tasks[e.p];
    var name := if t.Saves? then Some(t.row.clientName) else None;
    assert TaskPhase(w, f.st, t, s);
    WriteChanges(w, f, e, next);
    RunsOn(w, f, e, next);
    AgreeIffNames(w, next.st, s, name);
    OthersHaveNothing(f, e.p, s);
    forall q | q in f.tasks && q != e.p ensures TaskPhase(w, next.st, f.tasks[q], s) {
      OthersIdle(w, next.st, f.tasks[q], s);
    }
    OwnKeeps(w, f, next, e.p, s);
  }

  lemma OutsidePhase(w: World, f: Flow, e: Event, next: Flow, s: Slug)
    requires FlowInv(w, f) && Phase(w, f, s) && Follows(w, f, e, next) && Smooth(f, e, s)
    requires e.Wipe? || e.OperatorEdits? || e.EditNetworks? || e.EditLevels?
    ensures Phase(w, next, s)
  {
    if e.Wipe? {
      OperatorsMembers(f.st.clients);
      assert !Covered(w, f.st, s);
    }
    assert next.tasks == f.tasks;
    forall p | p in next.tasks ensures TaskPhase(w, next.st, next.tasks[p], s) {
      SameForKeeps(w, f.st, next.st, f.tasks[p], s);
    }
    SameForKeeps(w, f.st, next.st, Drops(s), s);
  }

  lemma StepPhase(w: World, f: Flow, e: Event, next: Flow, s: Slug)
    requires FlowInv(w, f) && Phase(w, f, s) && Follows(w, f, e, next)
    requires Apart(f, s) && Apart(next, s) && Smooth(f, e, s)
    ensures Phase(w, next, s)
  {
    if e.BeginSet? || e.BeginRemove? || e.BeginReapply? {
      BeginPhase(w, f, e, next, s);
    } else if e.ReadNetwork? || e.Cancel? {
      NextRowPhase(w, f, e, next, s);
    } else if e.ReadLevel? {
      LevelPhase(w, f, e, next, s);
    } else if e.GetList? {
      ListPhase(w, f, e, next, s);
    } else if (e.Post? || e.Write?) && f.tasks[e.p].slug != s {
      ElsewherePhase(w, f, e, next, s);
    } else if e.Post? && f.tasks[e.p].Posts? {
      PushPhase(w, f, e, next, s);
    } else if e.Post? {
      DeletePhase(w, f, e, next, s);
    } else if e.Write? {
      WritePhase(w, f, e, next, s);
    } else {
      OutsidePhase(w, f, e, next, s);
    }
  }

  /** Where the requests on one network do not overlap and none of them fails halfway, its row and its
      client agree whenever no request is between its two writes, however requests on other
      networks interleave with them. */
  lemma {:induction false} ApartRequestsAgree(w: World, flows: seq<Flow>, events: seq<Event>, k: nat, s: Slug)
    requires Run(w, flows, events) && k < |flows| && Phase(w, flows[0], s)
    requires forall i | 0 <= i <= k :: Apart(flows[i], s)
    requires forall i | 0 <= i < k :: Smooth(flows[i], events[i], s)
    ensures Phase(w, flows[k], s)
    ensures !BetweenWrites(flows[k], s) ==> Agree(w, flows[k].st, s)
  {
    if k > 0 {
      ApartRequestsAgree(w, flows, events, k - 1, s);
      RunKeeps(w, flows, events, k - 1);
      StepPhase(w, flows[k - 1], events[k - 1], flows[k], s);
    }
  }

  // ---------------------------- rows keep their clients ---------------------------- //

  predicate Dropping(t: Task, s: Slug) { t.Drops? && t.slug == s }

  predicate AboutToSave(t: Task, s: Slug) { t.Saves? && t.slug == s }

  /** A row of `s` has its client, unless a removal is about to drop the row; so has one about to be saved. */
  ghost predicate CoverPhase(w: World, f: Flow, s: Slug) {
    && (forall p | p in f.tasks :: AboutToSave(f.tasks[p], s) ==> Covered(w, f.st, s))
    && (s in f.st.rows && (forall p | p in f.tasks :: !Dropping(f.tasks[p], s)) ==> Covered(w, f.st, s))
  }

  /** AdGuard keeps the clients that rows need, and no row of `s` outlives its deleted client. */
  ghost predicate KeepsCover(w: World, f: Flow, e: Event, s: Slug) {
    match e
    case Write(p, dbOk) => p in f.tasks && Dropping(f.tasks[p], s) ==> dbOk || Covered(w, f.st, s)
    case Cancel(p) => p in f.tasks && Dropping(f.tasks[p], s) ==> Covered(w, f.st, s)
    case Wipe => s !in f.st.rows && forall p | p in f.tasks :: !AboutToSave(f.tasks[p], s)
    case _ => true
  }

  lemma ReadCovers(w: World, f: Flow, e: Event, next: Flow, s: Slug)
    requires CoverPhase(w, f, s) && Follows(w, f, e, next) && Reads(e) && KeepsCover(w, f, e, s)
    ensures CoverPhase(w, next, s)
  {
    ReadsChangeNothing(w, f, e, next);
    forall p | p in next.tasks && AboutToSave(next.tasks[p], s) ensures Covered(w, next.st, s) {
      assert p in f.tasks && AboutToSave(f.tasks[p], s);
    }
    if !(e.Cancel? && Dropping(f.tasks[e.p], s)) {
      forall q | q in f.tasks && Dropping(f.tasks[q], s) ensures q in next.tasks && next.tasks[q] == f.tasks[q] {
      }
    }
  }

  lemma PostCovers(w: World, f: Flow, e: Event, next: Flow, s: Slug)
    requires FlowInv(w, f) && CoverPhase(w, f, s) && Follows(w, f, e, next) && Apart(f, s) && e.Post?
    ensures CoverPhase(w, next, s)
  {
    var t := f.tasks[e.p];
    assert TaskFits(w, t);
    PostMoves(w, f, e, next);
    PostCoverage(w, f, e, next, s);
    if t.Deletes? && t.slug == s { OthersHaveNothing(f, e.p, s); }
    forall p | p in next.tasks && AboutToSave(next.tasks[p], s) ensures Covered(w, next.st, s) {
      if p != e.p { assert p in f.tasks && AboutToSave(f.tasks[p], s); }
    }
  }

  /** A push or deletion leaves the network's coverage alone, provides it, or is its own removal. */
  lemma PostCoverage(w: World, f: Flow, e: Event, next: Flow, s: Slug)
    requires FlowInv(w, f) && Follows(w, f, e, next) && e.Post?
    ensures next.st.rows == f.st.rows
    ensures !(f.tasks[e.p].Deletes? && f.tasks[e.p].slug == s) && Covered(w, f.st, s) ==> Covered(w, next.st, s)
    ensures e.p in next.tasks && AboutToSave(next.tasks[e.p], s) ==> Covered(w, next.st, s)
    ensures f.tasks[e.p].Deletes? && f.tasks[e.p].slug == s ==> e.p in next.tasks && Dropping(next.tasks[e.p], s)
  {
    var t := f.tasks[e.p];
    assert TaskFits(w, t);
    PostChanges(w, f, e, next);
    PostKeeps(w, f, e, next);
    if t.Posts? {
      PushKeepsList(w, f.st, t.slug, t.payload, t.existing, e.wire);
      if Lands(f.st.clients, t.payload, t.existing, e.wire) { assert t.payload in next.st.clients; }
    }
  }

  lemma WriteCovers(w: World, f: Flow, e: Event, next: Flow, s: Slug)
    requires CoverPhase(w, f, s) && Follows(w, f, e, next) && Apart(f, s) && KeepsCover(w, f, e, s) && e.Write?
    ensures CoverPhase(w, next, s)
  {
    var t := f.tasks[e.p];
    WriteChanges(w, f, e, next);
    if t.slug == s { OthersHaveNothing(f, e.p, s); }
    assert OnlyMoves(f, next, e.p) && e.p !in next.tasks;
  }

  lemma OutsideCovers(w: World, f: Flow, e: Event, next: Flow, s: Slug)
    requires CoverPhase(w, f, s) && Follows(w, f, e, next) && KeepsCover(w, f, e, s) && (e.Wipe? || e.OperatorEdits?)
    ensures CoverPhase(w, next, s)
  {
    OutsideChanges(w, f, e, next);
    assert next.tasks == f.tasks;
  }

  /** Where the requests on one network do not overlap, its row always has exactly one managed client at
      its CIDR, however AdGuard refuses, loses or answers, except while the row is about to be dropped. */
  lemma RowsStayCovered(w: World, flows: seq<Flow>, events: seq<Event>, k: nat, s: Slug)
    requires Run(w, flows, events) && k < |flows| && CoverPhase(w, flows[0], s)
    requires forall i | 0 <= i <= k :: Apart(flows[i], s)
    requires forall i | 0 <= i < k :: KeepsCover(w, flows[i], events[i], s)
    ensures CoverPhase(w, flows[k], s)
    ensures s in flows[k].st.rows && (forall p | p in flows[k].tasks :: !Dropping(flows[k].tasks[p], s)) ==>
              exists c :: c in flows[k].st.clients && Owned(c, w.cidrs, s)
                          && forall d | d in flows[k].st.clients && Owned(d, w.cidrs, s) :: d == c
  {
    CoverRun(w, flows, events, k, s);
    RunKeeps(w, flows, events, k);
    CoveredByOne(w, flows[k], s);
  }

  lemma {:induction false} CoverRun(w: World, flows: seq<Flow>, events: seq<Event>, k: nat, s: Slug)
    requires Run(w, flows, events) && k < |flows| && CoverPhase(w, flows[0], s)
    requires forall i | 0 <= i <= k :: Apart(flows[i], s)
    requires forall i | 0 <= i < k :: KeepsCover(w, flows[i], events[i], s)
    ensures CoverPhase(w, flows[k], s)
  {
    if k > 0 {
      CoverRun(w, flows, events, k - 1, s);
      RunKeeps(w, flows, events, k - 1);
      CoverStep(w, flows[k - 1], events[k - 1], flows[k], s);
    }
  }

  lemma CoveredByOne(w: World, f: Flow, s: Slug)
    requires FlowInv(w, f) && CoverPhase(w, f, s)
    ensures s in f.st.rows && (forall p | p in f.tasks :: !Dropping(f.tasks[p], s)) ==>
              exists c :: c in f.st.clients && Owned(c, w.cidrs, s)
                          && forall d | d in f.st.clients && Owned(d, w.cidrs, s) :: d == c
  {
    if s in f.st.rows && (forall p | p in f.tasks :: !Dropping(f.tasks[p], s)) {
      var c :| c in f.st.clients && Owned(c, w.cidrs, s);
      forall d | d in f.st.clients && Owned(d, w.cidrs, s) ensures d == c {
        SoleClient(w, f.st, s, d, c);
      }
    }
  }

  lemma CoverStep(w: World, f: Flow, e: Event, next: Flow, s: Slug)
    requires FlowInv(w, f) && CoverPhase(w, f, s) && Follows(w, f, e, next) && Apart(f, s) && KeepsCover(w, f, e, s)
    ensures CoverPhase(w, next, s)
  {
    if Reads(e) {
      ReadCovers(w, f, e, next, s);
    } else if e.Post? {
      PostCovers(w, f, e, next, s);
    } else if e.Write? {
      WriteCovers(w, f, e, next, s);
    } else {
      OutsideCovers(w, f, e, next, s);
    }
  }
}
