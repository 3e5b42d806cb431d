/**
 The requests of the DNS protection manager as coroutines (backend/app/dns/manager.py:232-359,
 476-542). Nothing locks them out of one another: a request may be suspended at every await, between
 reading the network and the level, between AdGuard's list and the change it leads to, between that
 change and the database write, and `reapply_all` works through rows it listed at its start.
 */
module DnsInterleaving {
  import opened Common
  import opened AdGuardClients
  import opened DnsProtection

  datatype Pid = Pid(n: nat)

  /** A row as `reapply_all` read it at its start. */
  datatype Listed = Listed(slug: Slug, row: Row)

  /** What a push is for. */
  datatype Purpose =
    | Saving(row: Row)                                     // set_protection saves this row next
    | Restoring(rest: seq<Listed>, report: ApplyReport)    // reapply_all goes on with the rest

  /** Where a suspended request stands. */
  datatype Task =
    | NeedsLevel(slug: Slug, net: Network, level: string, provider: string)  // set: network read
    | NeedsList(slug: Slug, payload: Client, purpose: Purpose)               // push: payload made
    | Posts(slug: Slug, payload: Client, existing: Option<string>, purpose: Purpose)  // push: list read
    | Saves(slug: Slug, row: Row)                                            // set: pushed
    | LooksUp(slug: Slug, name: string)                                      // remove: row read
    | Deletes(slug: Slug, name: string)                                      // remove: client found
    | Drops(slug: Slug)                                                      // remove: done with AdGuard
    | NeedsNetwork(rest: seq<Listed>, report: ApplyReport)                   // reapply: between rows
    | NeedsRowLevel(item: Listed, net: Network, rest: seq<Listed>, report: ApplyReport)

  /** The stores and the requests under way. */
  datatype Flow = Flow(st: State, tasks: map<Pid, Task>)

  datatype Event =
    | BeginSet(p: Pid, slug: Slug, level: string, provider: string)
    | BeginRemove(p: Pid, slug: Slug)
    | BeginReapply(p: Pid, order: seq<Slug>)
    | ReadNetwork(p: Pid)
    | ReadLevel(p: Pid)
    | GetList(p: Pid, ok: bool)
    | Post(p: Pid, wire: Wire)
    | Write(p: Pid, dbOk: bool)
    | Cancel(p: Pid)
    | EditNetworks(networks: map<Slug, Network>)
    | EditLevels(levels: map<string, Level>)
    | OperatorEdits(clients: seq<Client>)
    | Wipe

  // ---------------------------- steps ---------------------------- //

  function With(f: Flow, p: Pid, t: Task): Flow { f.(tasks := f.tasks[p := t]) }

  function Done(f: Flow, p: Pid): Flow { f.(tasks := f.tasks - {p}) }

  function Snapshot(rows: map<Slug, Row>, order: seq<Slug>): seq<Listed>
    requires forall s | s in order :: s in rows
  {
    seq(|order|, i requires 0 <= i < |order| => Listed(order[i], rows[order[i]]))
  }

  function FirstId(payload: Client): string { if payload.ids == [] then "" else payload.ids[0] }

  /** A push that did not go through: the set gives up, the re-apply reports an error. */
  function Unpushed(f: Flow, p: Pid, slug: Slug, purpose: Purpose): Flow {
    match purpose
    case Saving(_) => Done(f, p)
    case Restoring(rest, report) => With(f, p, NeedsNetwork(rest, Reported(report, slug, Failed)))
  }

  function AfterPush(f: Flow, p: Pid, slug: Slug, purpose: Purpose): Flow {
    match purpose
    case Saving(row) => With(f, p, Saves(slug, row))
    case Restoring(rest, report) => With(f, p, NeedsNetwork(rest, Reported(report, slug, Pushed)))
  }

  /** The next row of a re-apply up to its network; with none left the request ends. */
  function NextRow(f: Flow, p: Pid, rest: seq<Listed>, report: ApplyReport): Flow {
    if rest == [] then Done(f, p)
    else if rest[0].slug !in f.st.networks then
      With(f, p, NeedsNetwork(rest[1..], Reported(report, rest[0].slug, Absent)))
    else With(f, p, NeedsRowLevel(rest[0], f.st.networks[rest[0].slug], rest[1..], report))
  }

  /** A set up to its payload, or the error that ends it. */
  function LevelForSet(w: World, f: Flow, p: Pid, slug: Slug, net: Network, level: string, provider: string): Flow {
    match Requested(w, f.st.(networks := f.st.networks[slug := net]), slug, level, provider)
    case Err(_) => Done(f, p)
    case Ok(payload) => With(f, p, NeedsList(slug, payload, Saving(Row(level, provider, payload.name))))
  }

  function LevelForRow(w: World, f: Flow, p: Pid, item: Listed, net: Network, rest: seq<Listed>,
                       report: ApplyReport): Flow {
    match Resolve(w, f.st.(networks := f.st.networks[item.slug := net]), item.slug, item.row)
    case Ready(payload) => With(f, p, NeedsList(item.slug, payload, Restoring(rest, report)))
    case _ => With(f, p, NeedsNetwork(rest, Reported(report, item.slug, Failed)))
  }

  /** AdGuard accepts the request of a push, and it gets there. */
  predicate Lands(clients: seq<Client>, payload: Client, existing: Option<string>, wire: Wire) {
    !wire.Down? && Posted(clients, payload, existing).Some?
  }

  function PushedTo(clients: seq<Client>, payload: Client, existing: Option<string>, wire: Wire): seq<Client> {
    if Lands(clients, payload, existing, wire) then Posted(clients, payload, existing).value else clients
  }

  function DeletedFrom(clients: seq<Client>, name: string, wire: Wire): seq<Client> {
    if wire.Down? then clients else Delete(clients, name)
  }

  function PostPush(f: Flow, p: Pid, slug: Slug, payload: Client, existing: Option<string>, purpose: Purpose,
                    wire: Wire): Flow
  {
    var f' := f.(st := f.st.(clients := PushedTo(f.st.clients, payload, existing, wire)));
    if Lands(f.st.clients, payload, existing, wire) && wire.Fine? then AfterPush(f', p, slug, purpose)
    else Unpushed(f', p, slug, purpose)
  }

  function PostDelete(f: Flow, p: Pid, slug: Slug, name: string, wire: Wire): Flow {
    With(f.(st := f.st.(clients := DeletedFrom(f.st.clients, name, wire))), p, Drops(slug))
  }

  function LookUp(f: Flow, p: Pid, slug: Slug, name: string): Flow {
    With(f, p, if IndexOf(f.st.clients, name).Some? then Deletes(slug, name) else Drops(slug))
  }

  ghost predicate Enabled(w: World, f: Flow, e: Event) {
    match e
    case BeginSet(p, _, _, _) => p !in f.tasks
    case BeginRemove(p, _) => p !in f.tasks
    case BeginReapply(p, order) => p !in f.tasks && ListsRows(order, f.st.rows)
    case ReadNetwork(p) => p in f.tasks && f.tasks[p].NeedsNetwork?
    case ReadLevel(p) => p in f.tasks && (f.tasks[p].NeedsLevel? || f.tasks[p].NeedsRowLevel?)
    case GetList(p, _) => p in f.tasks && (f.tasks[p].NeedsList? || f.tasks[p].LooksUp?)
    case Post(p, _) => p in f.tasks && (f.tasks[p].Posts? || f.tasks[p].Deletes?)
    case Write(p, _) => p in f.tasks && (f.tasks[p].Saves? || f.tasks[p].Drops?)
    case Cancel(p) => p in f.tasks
    case EditNetworks(networks) => NetworksFit(w, networks)
    case OperatorEdits(clients) => OperatorMay(f.st.clients, clients)
    case _ => true
  }

  function SetBegun(f: Flow, p: Pid, slug: Slug, level: string, provider: string): Flow {
    if slug !in f.st.networks then f else With(f, p, NeedsLevel(slug, f.st.networks[slug], level, provider))
  }

  function RemoveBegun(f: Flow, p: Pid, slug: Slug): Flow {
    if slug !in f.st.rows then f
    else if f.st.rows[slug].clientName == "" then With(f, p, Drops(slug))
    else With(f, p, LooksUp(slug, f.st.rows[slug].clientName))
  }

  function ReapplyBegun(f: Flow, p: Pid, order: seq<Slug>): Flow
    requires forall s | s in order :: s in f.st.rows
  {
    With(f, p, NeedsNetwork(Snapshot(f.st.rows, order), ApplyReport([], [], [])))
  }

  function LevelRead(w: World, f: Flow, p: Pid): Flow
    requires p in f.tasks && (f.tasks[p].NeedsLevel? || f.tasks[p].NeedsRowLevel?)
  {
    match f.tasks[p]
    case NeedsLevel(slug, net, level, provider) => LevelForSet(w, f, p, slug, net, level, provider)
    case NeedsRowLevel(item, net, rest, report) => LevelForRow(w, f, p, item, net, rest, report)
  }

  function ListRead(f: Flow, p: Pid, ok: bool): Flow
    requires p in f.tasks && (f.tasks[p].NeedsList? || f.tasks[p].LooksUp?)
  {
    match f.tasks[p]
    case NeedsList(slug, payload, purpose) =>
      if !ok then Unpushed(f, p, slug, purpose)
      else With(f, p, Posts(slug, payload, FindManaged(f.st.clients, payload.name, FirstId(payload)), purpose))
    case LooksUp(slug, name) => if ok then LookUp(f, p, slug, name) else With(f, p, Drops(slug))
  }

  function Posting(f: Flow, p: Pid, wire: Wire): Flow
    requires p in f.tasks && (f.tasks[p].Posts? || f.tasks[p].Deletes?)
  {
    match f.tasks[p]
    case Posts(slug, payload, existing, purpose) => PostPush(f, p, slug, payload, existing, purpose, wire)
    case Deletes(slug, name) => PostDelete(f, p, slug, name, wire)
  }

  function Written(f: Flow, p: Pid, dbOk: bool): Flow
    requires p in f.tasks && (f.tasks[p].Saves? || f.tasks[p].Drops?)
  {
    match f.tasks[p]
    case Saves(slug, row) => Done(if dbOk then f.(st := f.st.(rows := f.st.rows[slug := row])) else f, p)
    case Drops(slug) => Done(if dbOk then f.(st := f.st.(rows := f.st.rows - {slug})) else f, p)
  }

  ghost function Step(w: World, f: Flow, e: Event): Flow
    requires Enabled(w, f, e)
  {
    match e
    case BeginSet(p, slug, level, provider) => SetBegun(f, p, slug, level, provider)
    case BeginRemove(p, slug) => RemoveBegun(f, p, slug)
    case BeginReapply(p, order) => ReapplyBegun(f, p, order)
    case ReadNetwork(p) => NextRow(f, p, f.tasks[p].rest, f.tasks[p].report)
    case ReadLevel(p) => LevelRead(w, f, p)
    case GetList(p, ok) => ListRead(f, p, ok)
    case Post(p, wire) => Posting(f, p, wire)
    case Write(p, dbOk) => Written(f, p, dbOk)
    case Cancel(p) => Done(f, p)
    case EditNetworks(networks) => f.(st := f.st.(networks := networks))
    case EditLevels(levels) => f.(st := f.st.(levels := levels))
    case OperatorEdits(clients) => f.(st := f.st.(clients := clients))
    case Wipe => f.(st := f.st.(clients := Operators(f.st.clients)))
  }

  ghost predicate Follows(w: World, f: Flow, e: Event, next: Flow) { Enabled(w, f, e) && next == Step(w, f, e) }

  ghost predicate Run(w: World, flows: seq<Flow>, events: seq<Event>) {
    && |flows| == |events| + 1 && FlowInv(w, flows[0])
    && forall k | 0 <= k < |events| :: Follows(w, flows[k], events[k], flows[k + 1])
  }

  // ---------------------------- what every interleaving keeps ---------------------------- //

  predicate RowFits(w: World, slug: Slug, row: Row) {
    slug in w.cidrs && (row.clientName == "" || NameOf(row.clientName, slug))
  }

  predicate RestFits(w: World, rest: seq<Listed>) { forall l | l in rest :: RowFits(w, l.slug, l.row) }

  predicate PurposeFits(w: World, payload: Client, purpose: Purpose) {
    match purpose
    case Saving(row) => row.clientName == payload.name
    case Restoring(rest, _) => RestFits(w, rest)
  }

  /** A request acts for its own network only. */
  predicate TaskFits(w: World, t: Task) {
    match t
    case NeedsLevel(slug, net, _, _) => slug in w.cidrs && net.cidr == w.cidrs[slug]
    case NeedsList(slug, payload, purpose) => Owned(payload, w.cidrs, slug) && PurposeFits(w, payload, purpose)
    case Posts(slug, payload, existing, purpose) =>
      && Owned(payload, w.cidrs, slug) && PurposeFits(w, payload, purpose)
      && (existing.Some? ==> NameOf(existing.value, slug))
    case Saves(slug, row) => slug in w.cidrs && NameOf(row.clientName, slug)
    case LooksUp(slug, name) => slug in w.cidrs && NameOf(name, slug)
    case Deletes(slug, name) => slug in w.cidrs && NameOf(name, slug)
    case Drops(slug) => slug in w.cidrs
    case NeedsNetwork(rest, _) => RestFits(w, rest)
    case NeedsRowLevel(item, net, rest, _) =>
      RowFits(w, item.slug, item.row) && net.cidr == w.cidrs[item.slug] && RestFits(w, rest)
  }

  ghost predicate FlowInv(w: World, f: Flow) {
    Inv(w, f.st) && forall p | p in f.tasks :: TaskFits(w, f.tasks[p])
  }

  /** What a step makes of its own request; other requests only wait. */
  ghost predicate OnlyMoves(f: Flow, next: Flow, p: Pid) {
    forall q | q != p :: (q in next.tasks <==> q in f.tasks) && (q in next.tasks ==> next.tasks[q] == f.tasks[q])
  }

  lemma MovesKeep(w: World, f: Flow, next: Flow, p: Pid)
    requires FlowInv(w, f) && Inv(w, next.st) && OnlyMoves(f, next, p)
    requires p in next.tasks ==> TaskFits(w, next.tasks[p])
    ensures FlowInv(w, next)
  {
  }

  lemma BeginKeeps(w: World, f: Flow, e: Event, next: Flow)
    requires FlowInv(w, f) && Follows(w, f, e, next) && (e.BeginSet? || e.BeginRemove? || e.BeginReapply?)
    ensures FlowInv(w, next) && next.st == f.st
  {
    MovesKeep(w, f, next, e.p);
  }

  lemma NextRowKeeps(w: World, f: Flow, e: Event, next: Flow)
    requires FlowInv(w, f) && Follows(w, f, e, next) && (e.ReadNetwork? || e.Cancel?)
    ensures FlowInv(w, next) && next.st == f.st
  {
    assert TaskFits(w, f.tasks[e.p]);
    MovesKeep(w, f, next, e.p);
  }

  lemma LevelKeeps(w: World, f: Flow, e: Event, next: Flow)
    requires FlowInv(w, f) && Follows(w, f, e, next) && e.ReadLevel?
    ensures FlowInv(w, next) && next.st == f.st
  {
    var t := f.tasks[e.p];
    var slug := if t.NeedsLevel? then t.slug else t.item.slug;
    var seen := f.st.(networks := f.st.networks[slug := t.net]);
    assert TaskFits(w, t) && Inv(w, seen);
    if t.NeedsLevel? {
      if Requested(w, seen, slug, t.level, t.provider).Ok? { RequestedIsOwned(w, seen, slug, t.level, t.provider); }
    } else if Resolve(w, seen, slug, t.item.row).Ready? {
      PayloadIsOwned(w, seen, slug, t.item.row);
    }
    MovesKeep(w, f, next, e.p);
  }

  /** The payload serves what the suspended request asks for, at the levels as they are. */
  predicate MeetsTask(w: World, levels: map<string, Level>, t: Task, payload: Client) {
    match t
    case NeedsLevel(slug, net, level, provider) =>
      && level in levels
      && var name := if provider == "" then levels[level].defaultProvider else provider;
         name in w.catalog && Serves(payload, levels[level], w.catalog[name]) && StandsFor(payload, slug, net, "")
    case NeedsRowLevel(item, net, _, _) =>
      && item.row.level in levels
      && var name := if item.row.provider == "" then levels[item.row.level].defaultProvider else item.row.provider;
         name in w.catalog && Serves(payload, levels[item.row.level], w.catalog[name])
         && StandsFor(payload, item.slug, net, item.row.clientName)
    case _ => false
  }

  /** The payload that a request goes on with once it has read the level is the one asked for. */
  lemma LevelReadMeetsTask(w: World, f: Flow, p: Pid)
    requires p in f.tasks && (f.tasks[p].NeedsLevel? || f.tasks[p].NeedsRowLevel?)
    ensures var after := LevelRead(w, f, p);
            p in after.tasks && after.tasks[p].NeedsList? ==>
              MeetsTask(w, f.st.levels, f.tasks[p], after.tasks[p].payload)
  {
    match f.tasks[p]
    case NeedsLevel(slug, net, level, provider) =>
      RequestedServes(w, f.st.(networks := f.st.networks[slug := net]), slug, level, provider);
    case NeedsRowLevel(item, net, _, _) =>
      ResolvedServes(w, f.st.(networks := f.st.networks[item.slug := net]), item.slug, item.row);
  }

  lemma PayloadIsOwned(w: World, st: State, slug: Slug, row: Row)
    requires Inv(w, st) && RowFits(w, slug, row) && Resolve(w, st, slug, row).Ready?
    ensures Owned(Resolve(w, st, slug, row).payload, w.cidrs, slug)
  {
    NameOfIff(MakeName(slug, st.networks[slug].displayName), slug);
  }

  lemma ListKeeps(w: World, f: Flow, e: Event, next: Flow)
    requires FlowInv(w, f) && Follows(w, f, e, next) && e.GetList?
    ensures FlowInv(w, next) && next.st == f.st
  {
    var t := f.tasks[e.p];
    assert TaskFits(w, t);
    if t.NeedsList? {
      FoundIsOwn(w, f.st, t.slug, t.payload);
    }
    MovesKeep(w, f, next, e.p);
  }

  lemma FoundIsOwn(w: World, st: State, slug: Slug, payload: Client)
    requires Inv(w, st) && Owned(payload, w.cidrs, slug)
    ensures var found := FindManaged(st.clients, payload.name, FirstId(payload));
            found.Some? ==> NameOf(found.value, slug)
  {
    var found := FindManaged(st.clients, payload.name, FirstId(payload));
    FindManagedFirst(st.clients, payload.name, FirstId(payload));
    if found.Some? {
      var i :| 0 <= i < |st.clients| && st.clients[i].name == found.value
               && Matches(st.clients[i], payload.name, FirstId(payload));
      assert st.clients[i] in st.clients;
      MatchIsOwn(st.clients[i], w.cidrs, slug, payload.name);
    }
  }

  lemma PushKeepsList(w: World, st: State, slug: Slug, payload: Client, existing: Option<string>, wire: Wire)
    requires Inv(w, st) && Owned(payload, w.cidrs, slug) && (existing.Some? ==> NameOf(existing.value, slug))
    ensures var after := PushedTo(st.clients, payload, existing, wire);
            && Inv(w, st.(clients := after)) && Operators(after) == Operators(st.clients)
            && Elsewhere(w, st.clients, after, slug)
            && (Lands(st.clients, payload, existing, wire) ==> payload in after)
  {
    PostedEffect(st.clients, w.cidrs, slug, payload, existing);
    if Lands(st.clients, payload, existing, wire) {
      AppliedElsewhere(w, st.clients, PushedTo(st.clients, payload, existing, wire), slug, payload);
    }
  }

  lemma DeleteKeepsList(w: World, st: State, slug: Slug, name: string, wire: Wire)
    requires Inv(w, st) && slug in w.cidrs && NameOf(name, slug)
    ensures var after := DeletedFrom(st.clients, name, wire);
            && Inv(w, st.(clients := after)) && Operators(after) == Operators(st.clients)
            && Elsewhere(w, st.clients, after, slug)
            && (!wire.Down? ==> forall c :: c in after <==> c in st.clients && c.name != name)
  {
    DeleteEffect(st.clients, w.cidrs, name);
    DeleteElsewhere(w, st.clients, slug, name);
  }

  function ClientsAfterPost(t: Task, clients: seq<Client>, wire: Wire): seq<Client> {
    match t
    case Posts(_, payload, existing, _) => PushedTo(clients, payload, existing, wire)
    case Deletes(_, name) => DeletedFrom(clients, name, wire)
    case _ => clients
  }

  lemma PostChanges(w: World, f: Flow, e: Event, next: Flow)
    requires Follows(w, f, e, next) && e.Post?
    ensures next.st == f.st.(clients := ClientsAfterPost(f.tasks[e.p], f.st.clients, e.wire))
  {
  }

  /** Steps that write neither rows nor clients. */
  predicate Reads(e: Event) { !e.Post? && !e.Write? && !e.Wipe? && !e.OperatorEdits? }

  lemma ReadsChangeNothing(w: World, f: Flow, e: Event, next: Flow)
    requires Follows(w, f, e, next) && Reads(e)
    ensures next.st.rows == f.st.rows && next.st.clients == f.st.clients
  {
  }

  lemma WriteChanges(w: World, f: Flow, e: Event, next: Flow)
    requires Follows(w, f, e, next) && e.Write?
    ensures next.st.clients == f.st.clients
    ensures next.st.rows == match f.tasks[e.p]
            case Saves(slug, row) => if e.dbOk then f.st.rows[slug := row] else f.st.rows
            case Drops(slug) => if e.dbOk then f.st.rows - {slug} else f.st.rows
            case _ => f.st.rows
  {
  }

  lemma OutsideChanges(w: World, f: Flow, e: Event, next: Flow)
    requires Follows(w, f, e, next) && (e.Wipe? || e.OperatorEdits?)
    ensures next.st.rows == f.st.rows
    ensures next.st.clients == if e.Wipe? then Operators(f.st.clients) else e.clients
    ensures e.OperatorEdits? ==> forall c | Managed(c) :: c in next.st.clients <==> c in f.st.clients
  {
  }

  lemma PostMoves(w: World, f: Flow, e: Event, next: Flow)
    requires Follows(w, f, e, next) && e.Post? && TaskFits(w, f.tasks[e.p])
    ensures OnlyMoves(f, next, e.p) && (e.p in next.tasks ==> TaskFits(w, next.tasks[e.p]))
  {
  }

  /** The one write to AdGuard of a request changes clients of its own network only. */
  lemma PostKeeps(w: World, f: Flow, e: Event, next: Flow)
    requires FlowInv(w, f) && Follows(w, f, e, next) && e.Post?
    ensures FlowInv(w, next) && Operators(next.st.clients) == Operators(f.st.clients)
    ensures Elsewhere(w, f.st.clients, next.st.clients, f.tasks[e.p].slug)
    ensures next.st == f.st.(clients := next.st.clients)
  {
    var t := f.tasks[e.p];
    assert TaskFits(w, t);
    PostChanges(w, f, e, next);
    PostMoves(w, f, e, next);
    if t.Posts? {
      PushKeepsList(w, f.st, t.slug, t.payload, t.existing, e.wire);
    } else {
      DeleteKeepsList(w, f.st, t.slug, t.name, e.wire);
    }
    MovesKeep(w, f, next, e.p);
  }

  lemma WriteKeeps(w: World, f: Flow, e: Event, next: Flow)
    requires FlowInv(w, f) && Follows(w, f, e, next) && e.Write?
    ensures FlowInv(w, next) && next.st == f.st.(rows := next.st.rows)
  {
    assert TaskFits(w, f.tasks[e.p]);
    MovesKeep(w, f, next, e.p);
  }

  lemma OutsideKeeps(w: World, f: Flow, e: Event, next: Flow)
    requires FlowInv(w, f) && Follows(w, f, e, next)
    requires e.EditNetworks? || e.EditLevels? || e.OperatorEdits? || e.Wipe?
    ensures FlowInv(w, next)
    ensures !e.OperatorEdits? ==> Operators(next.st.clients) == Operators(f.st.clients)
  {
    if e.Wipe? { OperatorsMembers(f.st.clients); OperatorsApart(f.st.clients); }
  }

  /** Every step of every request, whatever else is under way, keeps AdGuard's clients pairwise
      distinct and each managed one at its network's CIDR and name, and leaves the operator's
      clients exactly as they were. */
  lemma StepKeeps(w: World, f: Flow, e: Event, next: Flow)
    requires FlowInv(w, f) && Follows(w, f, e, next)
    ensures FlowInv(w, next)
    ensures !e.OperatorEdits? ==> Operators(next.st.clients) == Operators(f.st.clients)
  {
    match e
    case ReadLevel(_) => LevelKeeps(w, f, e, next);
    case GetList(_, _) => ListKeeps(w, f, e, next);
    case Post(_, _) => PostKeeps(w, f, e, next);
    case Write(_, _) => WriteKeeps(w, f, e, next);
    case EditNetworks(_) => OutsideKeeps(w, f, e, next);
    case EditLevels(_) => OutsideKeeps(w, f, e, next);
    case OperatorEdits(_) => OutsideKeeps(w, f, e, next);
    case Wipe => OutsideKeeps(w, f, e, next);
    case ReadNetwork(_) => NextRowKeeps(w, f, e, next);
    case Cancel(_) => NextRowKeeps(w, f, e, next);
    case _ => BeginKeeps(w, f, e, next);
  }

  /** So does every interleaving of any number of requests, and a network never has two clients. */
  lemma {:induction false} RunKeeps(w: World, flows: seq<Flow>, events: seq<Event>, k: nat)
    requires Run(w, flows, events) && k < |flows|
    ensures FlowInv(w, flows[k])
    ensures forall c, d, s | c in flows[k].st.clients && d in flows[k].st.clients
                             && Owned(c, w.cidrs, s) && Owned(d, w.cidrs, s) :: c == d
    ensures (forall i | 0 <= i < k :: !events[i].OperatorEdits?) ==>
              Operators(flows[k].st.clients) == Operators(flows[0].st.clients)
  {
    if k > 0 {
      RunKeeps(w, flows, events, k - 1);
      StepKeeps(w, flows[k - 1], events[k - 1], flows[k]);
    }
    forall c, d, s | c in flows[k].st.clients && d in flows[k].st.clients
                     && Owned(c, w.cidrs, s) && Owned(d, w.cidrs, s) ensures c == d
    {
      SoleClient(w, flows[k].st, s, c, d);
    }
  }
}
