/**
 The manager object (backend/app/dns/manager.py:150-359, 476-542). Each of the first methods is what a
 request does between two awaits, proved to take the stores and the requests under way one step of
 `DnsInterleaving`, whatever the others have done meanwhile. The last three run the steps of one request
 with nothing in between.
 */
module DnsProtectionManager {
  import opened Common
  import opened AdGuardClients
  import opened DnsProtection
  import opened DnsInterleaving
  import opened DnsReconciliation

  class Manager {
    const world: World
    var networks: map<Slug, Network>
    var levels: map<string, Level>
    var rows: map<Slug, Row>
    /** AdGuard's persistent clients, in its order. */
    var clients: seq<Client>
    /** The requests under way. */
    var tasks: map<Pid, Task>

    ghost function Stores(): State reads this { State(networks, levels, rows, clients) }

    ghost function Now(): Flow reads this { Flow(Stores(), tasks) }

    ghost predicate Valid() reads this { FlowInv(world, Now()) }

    constructor (world: World, levels: map<string, Level>)
      requires Directory(world.cidrs)
      ensures Valid() && this.world == world && Now() == Flow(State(map[], levels, map[], []), map[])
    {
      this.world := world;
      this.networks, this.levels, this.rows, this.clients, this.tasks := map[], levels, map[], [], map[];
    }

    // ---------------------------- between two awaits ---------------------------- //

    /** `set_protection` up to the network; false when there is none. */
    method BeginSet(p: Pid, slug: Slug, level: string, provider: string) returns (known: bool)
      requires Valid() && p !in tasks
      modifies this`tasks
      ensures Valid() && Now() == SetBegun(old(Now()), p, slug, level, provider)
      ensures known <==> slug in networks
    {
      known := slug in networks;
      if known { tasks := tasks[p := NeedsLevel(slug, networks[slug], level, provider)]; }
      StepKeeps(world, old(Now()), Event.BeginSet(p, slug, level, provider), Now());
    }

    /** `remove_protection` up to the row. */
    method BeginRemove(p: Pid, slug: Slug)
      requires Valid() && p !in tasks
      modifies this`tasks
      ensures Valid() && Now() == RemoveBegun(old(Now()), p, slug)
    {
      if slug in rows {
        var name := rows[slug].clientName;
        tasks := tasks[p := if name == "" then Drops(slug) else LooksUp(slug, name)];
      }
      StepKeeps(world, old(Now()), Event.BeginRemove(p, slug), Now());
    }

    /** `reapply_all` up to its list of the rows, in the order of the database. */
    method BeginReapply(p: Pid, order: seq<Slug>)
      requires Valid() && p !in tasks && ListsRows(order, rows)
      modifies this`tasks
      ensures Valid() && Now() == ReapplyBegun(old(Now()), p, order)
    {
      tasks := tasks[p := NeedsNetwork(Snapshot(rows, order), ApplyReport([], [], []))];
      StepKeeps(world, old(Now()), Event.BeginReapply(p, order), Now());
    }

    /** The next row of a re-apply, or its end. */
    method ReadNetwork(p: Pid)
      requires Valid() && p in tasks && tasks[p].NeedsNetwork?
      modifies this`tasks
      ensures Valid() && Now() == old(NextRow(Now(), p, tasks[p].rest, tasks[p].report))
    {
      var NeedsNetwork(rest, report) := tasks[p];
      if rest == [] {
        tasks := tasks - {p};
      } else if rest[0].slug !in networks {
        tasks := tasks[p := NeedsNetwork(rest[1..], report.(skipped := report.skipped + [rest[0].slug]))];
      } else {
        tasks := tasks[p := NeedsRowLevel(rest[0], networks[rest[0].slug], rest[1..], report)];
      }
      StepKeeps(world, old(Now()), Event.ReadNetwork(p), Now());
    }

    /** The level and the provider: the payload to push, or why there is none. */
    method ReadLevel(p: Pid) returns (why: Option<Failure>)
      requires Valid() && p in tasks && (tasks[p].NeedsLevel? || tasks[p].NeedsRowLevel?)
      modifies this`tasks
      ensures Valid() && Now() == LevelRead(world, old(Now()), p)
      ensures why.Some? <==> p !in tasks
      ensures why.Some? ==> why.value == if old(tasks[p].level) !in levels then UnknownLevel else ProviderRefused
      ensures p in tasks && tasks[p].NeedsList? ==> MeetsTask(world, levels, old(tasks[p]), tasks[p].payload)
    {
      LevelReadMeetsTask(world, Now(), p);
      why := None;
      match tasks[p] {
        case NeedsLevel(slug, net, level, provider) =>
          if level !in levels {
            why, tasks := Some(UnknownLevel), tasks - {p};
          } else {
            var effective := if provider != "" then provider else levels[level].defaultProvider;
            if !ProviderFits(world.catalog, levels[level], effective) {
              why, tasks := Some(ProviderRefused), tasks - {p};
            } else {
              var clientName := MakeName(slug, net.displayName);
              var payload := Payload(clientName, net.cidr, levels[level], world.catalog[effective]);
              tasks := tasks[p := NeedsList(slug, payload, Saving(Row(level, provider, clientName)))];
            }
          }
        case NeedsRowLevel(item, net, rest, report) =>
          var failed := NeedsNetwork(rest, report.(errors := report.errors + [item.slug]));
          if item.row.level !in levels {
            tasks := tasks[p := failed];
          } else {
            var effective := Effective(item.row.provider, levels[item.row.level]);
            if effective !in world.catalog {
              tasks := tasks[p := failed];
            } else {
              var stored := item.row.clientName;
              var clientName := if stored != "" then stored else MakeName(item.slug, net.displayName);
              var payload := Payload(clientName, net.cidr, levels[item.row.level], world.catalog[effective]);
              tasks := tasks[p := NeedsList(item.slug, payload, Restoring(rest, report))];
            }
          }
      }
      StepKeeps(world, old(Now()), Event.ReadLevel(p), Now());
    }

    /** `_find_managed_client` on the list as it was read. */
    method FindManagedClient(name: string, cidr: string) returns (found: Option<string>)
      ensures found == FindManaged(clients, name, cidr)
      ensures found.Some? ==> PREFIX <= found.value
    {
      for i := 0 to |clients|
        invariant FindManaged(clients, name, cidr) == FindManaged(clients[i..], name, cidr)
      {
        assert clients[i..][1..] == clients[i + 1..];
        var current := clients[i].name;
        if !(PREFIX <= current) { continue; }
        if current == name { return Some(current); }
        if cidr in clients[i].ids { return Some(current); }
      }
      return None;
    }

    /** The look-up of `_delete_adguard_client`: some client has that name. */
    method HasClient(name: string) returns (found: bool)
      ensures found <==> IndexOf(clients, name).Some?
    {
      for i := 0 to |clients|
        invariant IndexOf(clients, name).Some? <==> IndexOf(clients[i..], name).Some?
      {
        assert clients[i..][1..] == clients[i + 1..];
        if clients[i].name == name { return true; }
      }
      return false;
    }

    /** AdGuard's list, for a push or for a removal; `ok` is false when it cannot be read. */
    method GetList(p: Pid, ok: bool)
      requires Valid() && p in tasks && (tasks[p].NeedsList? || tasks[p].LooksUp?)
      modifies this`tasks
      ensures Valid() && Now() == ListRead(old(Now()), p, ok)
    {
      match tasks[p] {
        case NeedsList(slug, payload, purpose) =>
          if ok {
            var existing := FindManagedClient(payload.name, FirstId(payload));
            tasks := tasks[p := Posts(slug, payload, existing, purpose)];
          } else {
            GiveUp(p, slug, purpose);
          }
        case LooksUp(slug, name) =>
          var found := false;
          if ok { found := HasClient(name); }
          tasks := tasks[p := if found then Deletes(slug, name) else Drops(slug)];
      }
      StepKeeps(world, old(Now()), Event.GetList(p, ok), Now());
    }

    /** A push that did not go through. */
    method GiveUp(p: Pid, slug: Slug, purpose: Purpose)
      modifies this`tasks
      ensures Now() == Unpushed(old(Now()), p, slug, purpose)
    {
      match purpose
      case Saving(_) => tasks := tasks - {p};
      case Restoring(rest, report) =>
        tasks := tasks[p := NeedsNetwork(rest, report.(errors := report.errors + [slug]))];
    }

    /** The request to AdGuard that changes its list. */
    method Post(p: Pid, wire: Wire)
      requires Valid() && p in tasks && (tasks[p].Posts? || tasks[p].Deletes?)
      modifies this`tasks, this`clients
      ensures Valid() && Now() == Posting(old(Now()), p, wire)
      ensures p in tasks && tasks[p].Saves? ==>
                old(tasks[p]).Posts? && old(tasks[p].payload) in clients && tasks[p].slug == old(tasks[p].slug)
    {
      match tasks[p] {
        case Posts(slug, payload, existing, purpose) =>
          PostedHolds(clients, payload, existing);
          var after := if wire.Down? then None else Posted(clients, payload, existing);
          if after.Some? { clients := after.value; }
          if after.Some? && wire.Fine? {
            match purpose {
              case Saving(row) => tasks := tasks[p := Saves(slug, row)];
              case Restoring(rest, report) =>
                tasks := tasks[p := NeedsNetwork(rest, report.(applied := report.applied + [slug]))];
            }
          } else {
            GiveUp(p, slug, purpose);
          }
        case Deletes(slug, name) =>
          if !wire.Down? { clients := Delete(clients, name); }
          tasks := tasks[p := Drops(slug)];
      }
      StepKeeps(world, old(Now()), Event.Post(p, wire), Now());
    }

    /** The database write that ends a set or a removal: `DnsProtectionStore.upsert` or `delete`. */
    method Write(p: Pid, dbOk: bool)
      requires Valid() && p in tasks && (tasks[p].Saves? || tasks[p].Drops?)
      modifies this`tasks, this`rows
      ensures Valid() && Now() == Written(old(Now()), p, dbOk)
    {
      match tasks[p] {
        case Saves(slug, row) =>
          if dbOk { rows := rows[slug := row]; }
        case Drops(slug) =>
          if dbOk { rows := rows - {slug}; }
      }
      tasks := tasks - {p};
      StepKeeps(world, old(Now()), Event.Write(p, dbOk), Now());
    }

    // ---------------------------- one request, undisturbed ---------------------------- //

    /** `_apply_adguard_client`: the look-up and the request that follows it. */
    method Push(p: Pid, ghost slug: Slug, ghost payload: Client, ghost purpose: Purpose, wire: Wire)
      requires Valid() && p in tasks && tasks[p] == NeedsList(slug, payload, purpose) && payload.ids != []
      modifies this`tasks, this`clients
      ensures Valid() && clients == Delivered(old(clients), payload, wire)
      ensures tasks == PushedTasks(old(tasks), p, slug, purpose, Accepted(old(clients), payload, wire))
    {
      ghost var others := tasks;
      GetList(p, !wire.Down?);
      if !wire.Down? {
        ghost var existing := FindManaged(clients, payload.name, payload.ids[0]);
        assert tasks == others[p := Posts(slug, payload, existing, purpose)];
        ghost var accepted := Accepted(clients, payload, wire);
        Post(p, wire);
        PushedTwice(others, p, Posts(slug, payload, existing, purpose), slug, purpose, accepted);
      }
    }

    lemma SetIsServed(slug: Slug, level: string, provider: string, wire: Wire, dbOk: bool)
      requires Valid()
      ensures var st := Stores(); var after := AfterSet(world, st, slug, level, provider, wire, dbOk);
              var result := SetResult(world, st, slug, level, provider, wire, dbOk);
              && (result.Ok? ==>
                    && after.rows.Keys == st.rows.Keys + {slug}
                    && after.rows[slug].level == level && after.rows[slug].provider == provider
                    && slug in st.networks
                    && after.rows[slug].clientName
                       == "[slate-ctrl-net] " + st.networks[slug].displayName + " (" + slug + ")"
                    && Served(world, after, after.clients, slug))
              && (result == Err(NetworkNotFound) <==> slug !in st.networks)
              && (result == Err(UnknownLevel) <==> slug in st.networks && level !in st.levels)
    {
      RequestedServes(world, Stores(), slug, level, provider);
      if SetResult(world, Stores(), slug, level, provider, wire, dbOk).Ok? {
        AcceptedSetIsServed(world, Stores(), slug, level, provider, wire, dbOk);
      }
    }

    /** A set up to its payload. */
    method PrepareSet(p: Pid, slug: Slug, level: string, provider: string) returns (why: Option<Failure>)
      requires Valid() && p !in tasks
      modifies this`tasks
      ensures Valid()
      ensures match Requested(world, Stores(), slug, level, provider)
              case Err(e) => why == Some(e) && tasks == old(tasks)
              case Ok(payload) =>
                why == None
                && tasks == old(tasks)[p := NeedsList(slug, payload, Saving(Row(level, provider, payload.name)))]
    {
      ghost var others := tasks;
      var known := BeginSet(p, slug, level, provider);
      if !known { return Some(NetworkNotFound); }
      ghost var net := networks[slug];
      assert networks[slug := net] == networks;
      why := ReadLevel(p);
      PutAndTaken(others, p, NeedsLevel(slug, net, level, provider));
      if why.None? {
        ghost var payload := Requested(world, Stores(), slug, level, provider).value;
        ghost var listing := NeedsList(slug, payload, Saving(Row(level, provider, payload.name)));
        PutTwice(others, p, NeedsLevel(slug, net, level, provider), listing);
      }
    }

    method SetProtection(p: Pid, slug: Slug, level: string, provider: string, wire: Wire, dbOk: bool)
      returns (result: Result<Row, Failure>)
      requires Valid() && p !in tasks
      modifies this`tasks, this`clients, this`rows
      ensures Valid() && tasks == old(tasks)
      ensures Stores() == AfterSet(world, old(Stores()), slug, level, provider, wire, dbOk)
      ensures result == SetResult(world, old(Stores()), slug, level, provider, wire, dbOk)
      ensures result.Ok? ==>
                && rows.Keys == old(rows.Keys) + {slug}
                && rows[slug].level == level && rows[slug].provider == provider
                && rows[slug].clientName == "[slate-ctrl-net] " + networks[slug].displayName + " (" + slug + ")"
                && Served(world, Stores(), clients, slug)
      ensures result.Err? ==> rows == old(rows)
      ensures result == Err(NetworkNotFound) <==> slug !in networks
      ensures result == Err(UnknownLevel) <==> slug in networks && level !in levels
    {
      ghost var others := tasks;
      SetIsServed(slug, level, provider, wire, dbOk);
      var why := PrepareSet(p, slug, level, provider);
      if why.Some? { return Err(why.value); }
      var row := Row(level, provider, MakeName(slug, networks[slug].displayName));
      ghost var payload := Requested(world, Stores(), slug, level, provider).value;
      ghost var accepted := Accepted(clients, payload, wire);
      Push(p, slug, payload, Saving(row), wire);
      PushedTwice(others, p, NeedsList(slug, payload, Saving(row)), slug, Saving(row), accepted);
      PutAndTaken(others, p, Saves(slug, row));
      if p !in tasks { return Err(AdGuardError); }
      Write(p, dbOk);
      result := if dbOk then Ok(row) else Err(DatabaseError);
    }

    method RemoveProtection(p: Pid, slug: Slug, wire: Wire, dbOk: bool)
      requires Valid() && p !in tasks
      modifies this`tasks, this`clients, this`rows
      ensures Valid() && tasks == old(tasks)
      ensures Stores() == AfterRemove(old(Stores()), slug, wire, dbOk)
    {
      ghost var others := tasks;
      BeginRemove(p, slug);
      if slug !in rows { return; }
      var name := rows[slug].clientName;
      if name != "" {
        DeleteClient(p, slug, name, wire);
        PutTwice(others, p, LooksUp(slug, name), Drops(slug));
      }
      assert tasks == others[p := Drops(slug)];
      Write(p, dbOk);
      PutAndTaken(others, p, Drops(slug));
    }

    /** `_delete_adguard_client`: the look-up and the deletion that follows it. */
    method DeleteClient(p: Pid, slug: Slug, name: string, wire: Wire)
      requires Valid() && p in tasks && tasks[p] == LooksUp(slug, name)
      modifies this`tasks, this`clients
      ensures Valid() && clients == DeletedFrom(old(clients), name, wire) && tasks == old(tasks)[p := Drops(slug)]
    {
      ghost var f := Now();
      GetList(p, !wire.Down?);
      if tasks[p].Deletes? {
        assert Now() == With(f, p, Deletes(slug, name));
        Post(p, wire);
        assert Now() == PostDelete(With(f, p, Deletes(slug, name)), p, slug, name, wire);
      } else if !wire.Down? {
        DeleteAbsent(clients, name);
      }
    }

    /** `order` is the order in which the database lists the rows, `wires` how AdGuard answers. */
    method ReapplyAll(p: Pid, order: seq<Slug>, wires: seq<Wire>) returns (report: ApplyReport)
      requires Valid() && p !in tasks && ListsRows(order, rows) && |wires| == |order|
      modifies this`tasks, this`clients
      ensures Valid() && tasks == old(tasks)
      ensures Stores() == AfterReapply(world, old(Stores()), order, wires)
      ensures report == Report(world, old(Stores()), order, wires)
      ensures forall s | s in report.applied :: Served(world, Stores(), clients, s)
    {
      AppliedRowsAreServed(world, Stores(), order, wires);
      RowsStay(world, Stores(), order, wires);
      ghost var st, others := Stores(), tasks;
      BeginReapply(p, order);
      report := ApplyReport([], [], []);
      for n := 0 to |order|
        invariant Reached(st, others, p, order, wires, n, report)
      {
        report := ReapplyNext(st, others, p, order, wires, n, report);
      }
      assert order[..|order|] == order && wires[..|order|] == wires;
      ReadNetwork(p);
      PutAndTaken(others, p, NeedsNetwork([], report));
    }

    /** The request `p` of a re-apply that began with the stores `st` and the requests `others`, after
        `n` of its rows. */
    ghost predicate Reached(st: State, others: map<Pid, Task>, p: Pid, order: seq<Slug>, wires: seq<Wire>, n: nat,
                            report: ApplyReport)
      reads this
      requires n <= |order| == |wires|
    {
      && Valid() && ListsRows(order, st.rows)
      && Stores() == AfterReapply(world, st, order[..n], wires[..n]) && rows == st.rows
      && tasks == others[p := NeedsNetwork(Snapshot(st.rows, order)[n..], report)]
      && report == Report(world, st, order[..n], wires[..n])
    }

    method ReapplyNext(ghost st: State, ghost others: map<Pid, Task>, p: Pid, order: seq<Slug>, wires: seq<Wire>,
                       n: nat, sofar: ApplyReport) returns (report: ApplyReport)
      requires n < |order| == |wires| && Reached(st, others, p, order, wires, n, sofar)
      modifies this`tasks, this`clients
      ensures Reached(st, others, p, order, wires, n + 1, report)
    {
      ghost var prior := Stores();
      ReportNext(world, st, order, wires, n);
      SnapshotSplits(st.rows, order, n);
      var item := Listed(order[n], rows[order[n]]);
      ghost var rest := Snapshot(st.rows, order)[n + 1..];
      report := ReapplyOne(p, item, rest, sofar, wires[n]);
      assert Stores() == AfterReapplyOne(world, prior, order[n], wires[n]);
      RowsStay(world, st, order[..n + 1], wires[..n + 1]);
      PutTwice(others, p, NeedsNetwork([item] + rest, sofar), NeedsNetwork(rest, report));
    }

    /** One row of a re-apply. */
    method ReapplyOne(p: Pid, item: Listed, ghost rest: seq<Listed>, sofar: ApplyReport, wire: Wire)
      returns (report: ApplyReport)
      requires Valid() && p in tasks && tasks[p] == NeedsNetwork([item] + rest, sofar)
      requires item.slug in rows && item.row == rows[item.slug]
      modifies this`tasks, this`clients
      ensures Valid() && Stores() == AfterReapplyOne(world, old(Stores()), item.slug, wire)
      ensures report == Reported(sofar, item.slug, old(VerdictOn(world, Stores(), item.slug, wire)))
      ensures tasks == old(tasks)[p := NeedsNetwork(rest, report)]
    {
      ghost var others := tasks;
      PrepareRow(p, item, rest, sofar);
      if tasks[p].NeedsList? {
        ghost var payload := Resolve(world, Stores(), item.slug, item.row).payload;
        Push(p, item.slug, payload, Restoring(rest, sofar), wire);
        PutTwice(others, p, NeedsList(item.slug, payload, Restoring(rest, sofar)), tasks[p]);
      }
      report := tasks[p].report;
    }

    /** A row of a re-apply up to its payload, if it comes to one. */
    method PrepareRow(p: Pid, item: Listed, ghost rest: seq<Listed>, sofar: ApplyReport)
      requires Valid() && p in tasks && tasks[p] == NeedsNetwork([item] + rest, sofar)
      modifies this`tasks
      ensures Valid()
      ensures tasks == old(tasks)[p := match Resolve(world, Stores(), item.slug, item.row)
                                       case Skipped => NeedsNetwork(rest, Reported(sofar, item.slug, Absent))
                                       case Unresolved => NeedsNetwork(rest, Reported(sofar, item.slug, Failed))
                                       case Ready(payload) => NeedsList(item.slug, payload, Restoring(rest, sofar))]
    {
      ghost var others := tasks;
      assert ([item] + rest)[1..] == rest;
      ReadNetwork(p);
      if item.slug !in networks { return; }
      ghost var net := networks[item.slug];
      assert networks[item.slug := net] == networks;
      var _ := ReadLevel(p);
      PutTwice(others, p, NeedsRowLevel(item, net, rest, sofar), tasks[p]);
    }
  }

  /** The requests after a push of request `p`. */
  function PushedTasks(tasks: map<Pid, Task>, p: Pid, slug: Slug, purpose: Purpose, accepted: bool): map<Pid, Task> {
    match purpose
    case Saving(row) => if accepted then tasks[p := Saves(slug, row)] else tasks - {p}
    case Restoring(rest, report) =>
      tasks[p := NeedsNetwork(rest, Reported(report, slug, if accepted then Pushed else Failed))]
  }

  lemma PushedTwice(tasks: map<Pid, Task>, p: Pid, t: Task, slug: Slug, purpose: Purpose, accepted: bool)
    ensures PushedTasks(tasks[p := t], p, slug, purpose, accepted) == PushedTasks(tasks, p, slug, purpose, accepted)
  {
    assert tasks[p := t] - {p} == tasks - {p};
  }

  lemma SnapshotSplits(rows: map<Slug, Row>, order: seq<Slug>, n: nat)
    requires n < |order| && forall s | s in order :: s in rows
    ensures order[n] in order
    ensures Snapshot(rows, order)[n..] == [Listed(order[n], rows[order[n]])] + Snapshot(rows, order)[n + 1..]
  {
  }

  lemma PutTwice(tasks: map<Pid, Task>, p: Pid, t: Task, u: Task)
    ensures tasks[p := t][p := u] == tasks[p := u]
  {
  }

  lemma PutAndTaken(tasks: map<Pid, Task>, p: Pid, t: Task)
    requires p !in tasks
    ensures tasks[p := t] - {p} == tasks && tasks - {p} == tasks
  {
  }

  lemma {:induction false} DeleteAbsent(clients: seq<Client>, name: string)
    requires IndexOf(clients, name).None?
    ensures Delete(clients, name) == clients
  {
    if clients != [] { DeleteAbsent(clients[1..], name); }
  }
}
