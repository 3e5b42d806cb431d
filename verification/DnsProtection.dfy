/**
 The DNS protection manager (backend/app/dns/manager.py): one row per protected network in the
 database, one managed persistent client per row in AdGuard Home, and the three requests that
 keep the two stores in step. A request to AdGuard may be refused, fail before it takes effect,
 or take effect and lose its answer; a database write after it may fail too.
 */
module DnsProtection {
  import opened Common
  import opened AdGuardClients

  datatype Network = Network(displayName: string, cidr: string)

  datatype Level = Level(
    defaultProvider: string, allowed: seq<string>,
    requireDot: bool, euOnly: bool, requireDnssec: bool,
    filtering: bool, parental: bool, safeBrowsing: bool, safeSearch: bool, blockedServices: seq<string>)

  datatype Provider = Provider(
    dotHostname: string, dotPort: string, dohUrl: string, ipv4Primary: string, ipv4Secondary: string,
    euBased: bool, dnssec: bool)

  /** A stored protection; an empty provider stands for the level's default. */
  datatype Row = Row(level: string, provider: string, clientName: string)

  /** What happens to a conversation with AdGuard: `Down` fails before the list changes, `Lost`
      changes the list and then reports an error. */
  datatype Wire = Fine | Down | Lost

  datatype Failure = NetworkNotFound | UnknownLevel | ProviderRefused | AdGuardError | DatabaseError

  /** What does not change: the provider catalogue, and the CIDR that belongs to each slug. */
  datatype World = World(cidrs: map<Slug, string>, catalog: map<string, Provider>)

  datatype State = State(
    networks: map<Slug, Network>, levels: map<string, Level>, rows: map<Slug, Row>, clients: seq<Client>)

  // ---------------------------- payloads ---------------------------- //

  /** `_build_upstreams`: encrypted transports first. */
  function Upstreams(p: Provider): seq<string> {
    (if p.dotHostname != "" then ["tls://" + p.dotHostname + ":" + p.dotPort] else [])
    + (if p.dohUrl != "" then [p.dohUrl] else [])
    + (if p.ipv4Primary != "" then [p.ipv4Primary] else [])
    + (if p.ipv4Secondary != "" then [p.ipv4Secondary] else [])
  }

  function Payload(clientName: string, cidr: string, l: Level, p: Provider): Client {
    Client(clientName, [cidr],
           Settings(l.filtering, l.parental, l.safeBrowsing, l.safeSearch, l.blockedServices, Upstreams(p)))
  }

  /** `validate_provider_for_level` finds nothing wrong. */
  predicate ProviderFits(catalog: map<string, Provider>, l: Level, provider: string) {
    && provider in catalog
    && (l.allowed == [] || provider in l.allowed)
    && (l.requireDot ==> catalog[provider].dotHostname != "")
    && (l.euOnly ==> catalog[provider].euBased)
    && (l.requireDnssec ==> catalog[provider].dnssec)
  }

  function Effective(provider: string, l: Level): string { if provider != "" then provider else l.defaultProvider }

  /** The payload of `set_protection`, or why it gives up before talking to AdGuard. */
  function Requested(w: World, st: State, slug: Slug, level: string, provider: string): Result<Client, Failure> {
    if slug !in st.networks then Err(NetworkNotFound)
    else if level !in st.levels then Err(UnknownLevel)
    else if !ProviderFits(w.catalog, st.levels[level], Effective(provider, st.levels[level])) then Err(ProviderRefused)
    else
      var net := st.networks[slug];
      Ok(Payload(MakeName(slug, net.displayName), net.cidr, st.levels[level],
                 w.catalog[Effective(provider, st.levels[level])]))
  }

  /** What `reapply_all` makes of one row. */
  datatype Resolution = Skipped | Unresolved | Ready(payload: Client)

  function Resolve(w: World, st: State, slug: Slug, row: Row): Resolution {
    if slug !in st.networks then Skipped
    else if row.level !in st.levels then Unresolved
    else if Effective(row.provider, st.levels[row.level]) !in w.catalog then Unresolved
    else
      var net := st.networks[slug];
      Ready(Payload(if row.clientName != "" then row.clientName else MakeName(slug, net.displayName), net.cidr,
                    st.levels[row.level], w.catalog[Effective(row.provider, st.levels[row.level])]))
  }

  // ---------------------------- what a client is to do ---------------------------- //

  /** The provider's endpoints that there are, each at its place: over TLS, over HTTPS, then the two plain
      addresses, so that every encrypted one is tried before every plain one. */
  predicate EndpointsInOrder(upstreams: seq<string>, p: Provider) {
    var tls := if p.dotHostname == "" then 0 else 1;
    var https := if p.dohUrl == "" then 0 else 1;
    var first := if p.ipv4Primary == "" then 0 else 1;
    var second := if p.ipv4Secondary == "" then 0 else 1;
    && |upstreams| == tls + https + first + second
    && (p.dotHostname != "" ==> upstreams[0] == "tls://" + p.dotHostname + ":" + p.dotPort)
    && (p.dohUrl != "" ==> upstreams[tls] == p.dohUrl)
    && (p.ipv4Primary != "" ==> upstreams[tls + https] == p.ipv4Primary)
    && (p.ipv4Secondary != "" ==> upstreams[tls + https + first] == p.ipv4Secondary)
  }

  /** The client filters as the level says and asks the provider. */
  predicate Serves(c: Client, l: Level, p: Provider) {
    && c.settings.filtering == l.filtering && c.settings.parental == l.parental
    && c.settings.safeBrowsing == l.safeBrowsing && c.settings.safeSearch == l.safeSearch
    && c.settings.blockedServices == l.blockedServices
    && EndpointsInOrder(c.settings.upstreams, p)
  }

  /** The client stands for network `slug`: its CIDR, and the stored name or the one printed from its
      display name. */
  predicate StandsFor(c: Client, slug: Slug, net: Network, stored: string) {
    && c.ids == [net.cidr]
    && c.name == if stored != "" then stored else "[slate-ctrl-net] " + net.displayName + " (" + slug + ")"
  }

  /** The payload of a set serves the level asked for, through the provider asked for or else the level's
      own, which the catalogue has and the level admits. */
  lemma RequestedServes(w: World, st: State, slug: Slug, level: string, provider: string)
    ensures match Requested(w, st, slug, level, provider)
            case Err(NetworkNotFound) => slug !in st.networks
            case Err(UnknownLevel) => slug in st.networks && level !in st.levels
            case Err(ProviderRefused) =>
              && slug in st.networks && level in st.levels
              && var l := st.levels[level];
                 var name := if provider == "" then l.defaultProvider else provider;
                 || name !in w.catalog
                 || (l.allowed != [] && name !in l.allowed)
                 || (l.requireDot && w.catalog[name].dotHostname == "")
                 || (l.euOnly && !w.catalog[name].euBased)
                 || (l.requireDnssec && !w.catalog[name].dnssec)
            case Err(_) => false
            case Ok(payload) =>
              && slug in st.networks && level in st.levels
              && var l := st.levels[level];
                 var name := if provider == "" then l.defaultProvider else provider;
                 && name in w.catalog && Serves(payload, l, w.catalog[name])
                 && StandsFor(payload, slug, st.networks[slug], "")
                 && (l.allowed == [] || name in l.allowed)
                 && (l.requireDot ==> w.catalog[name].dotHostname != "")
                 && (l.euOnly ==> w.catalog[name].euBased)
                 && (l.requireDnssec ==> w.catalog[name].dnssec)
  {
  }

  /** The payload of a re-applied row serves the level of the row, through the provider of the row or else
      the level's own, under the name stored in the row if there is one. */
  lemma ResolvedServes(w: World, st: State, slug: Slug, row: Row)
    ensures match Resolve(w, st, slug, row)
            case Skipped => slug !in st.networks
            case Unresolved =>
              && slug in st.networks
              && (|| row.level !in st.levels
                  || (if row.provider == "" then st.levels[row.level].defaultProvider else row.provider) !in w.catalog)
            case Ready(payload) =>
              && slug in st.networks && row.level in st.levels
              && var l := st.levels[row.level];
                 var name := if row.provider == "" then l.defaultProvider else row.provider;
                 && name in w.catalog && Serves(payload, l, w.catalog[name])
                 && StandsFor(payload, slug, st.networks[slug], row.clientName)
  {
  }

  // ---------------------------- requests ---------------------------- //

  function Delivered(clients: seq<Client>, payload: Client, wire: Wire): seq<Client>
    requires payload.ids != []
  {
    if wire.Down? then clients
    else match Apply(clients, payload)
      case None => clients
      case Some(after) => after
  }

  predicate Accepted(clients: seq<Client>, payload: Client, wire: Wire)
    requires payload.ids != []
  {
    wire.Fine? && Apply(clients, payload).Some?
  }

  function SetResult(w: World, st: State, slug: Slug, level: string, provider: string, wire: Wire,
                     dbOk: bool): Result<Row, Failure> {
    match Requested(w, st, slug, level, provider)
    case Err(why) => Err(why)
    case Ok(payload) =>
      if !Accepted(st.clients, payload, wire) then Err(AdGuardError)
      else if !dbOk then Err(DatabaseError)
      else Ok(Row(level, provider, payload.name))
  }

  function AfterSet(w: World, st: State, slug: Slug, level: string, provider: string, wire: Wire, dbOk: bool): State {
    match Requested(w, st, slug, level, provider)
    case Err(_) => st
    case Ok(payload) =>
      st.(clients := Delivered(st.clients, payload, wire),
          rows := if Accepted(st.clients, payload, wire) && dbOk
                  then st.rows[slug := Row(level, provider, payload.name)]
                  else st.rows)
  }

  function AfterRemove(st: State, slug: Slug, wire: Wire, dbOk: bool): State {
    if slug !in st.rows then st
    else
      st.(clients := if st.rows[slug].clientName == "" || wire.Down? then st.clients
                     else Delete(st.clients, st.rows[slug].clientName),
          rows := if dbOk then st.rows - {slug} else st.rows)
  }

  function AfterReapplyOne(w: World, st: State, slug: Slug, wire: Wire): State {
    if slug !in st.rows then st
    else match Resolve(w, st, slug, st.rows[slug])
      case Ready(payload) => st.(clients := Delivered(st.clients, payload, wire))
      case _ => st
  }

  function AfterReapply(w: World, st: State, order: seq<Slug>, wires: seq<Wire>): State
    requires |order| == |wires|
  {
    if order == [] then st
    else
      var n := |order| - 1;
      AfterReapplyOne(w, AfterReapply(w, st, order[..n], wires[..n]), order[n], wires[n])
  }

  /** What `reapply_all` reports of one row. */
  datatype Verdict = Pushed | Absent | Failed

  function VerdictOn(w: World, st: State, slug: Slug, wire: Wire): Verdict
    requires slug in st.rows
  {
    match Resolve(w, st, slug, st.rows[slug])
    case Skipped => Absent
    case Unresolved => Failed
    case Ready(payload) => if Accepted(st.clients, payload, wire) then Pushed else Failed
  }

  datatype ApplyReport = ApplyReport(applied: seq<Slug>, skipped: seq<Slug>, errors: seq<Slug>)

  function Reported(report: ApplyReport, slug: Slug, verdict: Verdict): ApplyReport {
    match verdict
    case Pushed => report.(applied := report.applied + [slug])
    case Absent => report.(skipped := report.skipped + [slug])
    case Failed => report.(errors := report.errors + [slug])
  }

  /** The report of `reapply_all` over the rows in `order`. */
  function Report(w: World, st: State, order: seq<Slug>, wires: seq<Wire>): ApplyReport
    requires |order| == |wires| && forall s | s in order :: s in st.rows
  {
    if order == [] then ApplyReport([], [], [])
    else
      var n := |order| - 1;
      var prior := AfterReapply(w, st, order[..n], wires[..n]);
      assert order[n] in order;
      RowsStay(w, st, order[..n], wires[..n]);
      Reported(Report(w, st, order[..n], wires[..n]), order[n], VerdictOn(w, prior, order[n], wires[n]))
  }

  lemma {:induction false} RowsStay(w: World, st: State, order: seq<Slug>, wires: seq<Wire>)
    requires |order| == |wires|
    ensures AfterReapply(w, st, order, wires) == st.(clients := AfterReapply(w, st, order, wires).clients)
  {
    if order != [] {
      RowsStay(w, st, order[..|order| - 1], wires[..|order| - 1]);
    }
  }

  /** One more row of a re-apply. */
  lemma ReportNext(w: World, st: State, order: seq<Slug>, wires: seq<Wire>, n: nat)
    requires n < |order| == |wires| && forall s | s in order :: s in st.rows
    ensures var prior := AfterReapply(w, st, order[..n], wires[..n]);
            && order[n] in prior.rows && prior.rows == st.rows
            && AfterReapply(w, st, order[..n + 1], wires[..n + 1]) == AfterReapplyOne(w, prior, order[n], wires[n])
            && Report(w, st, order[..n + 1], wires[..n + 1])
               == Reported(Report(w, st, order[..n], wires[..n]), order[n], VerdictOn(w, prior, order[n], wires[n]))
  {
    RowsStay(w, st, order[..n], wires[..n]);
    assert order[n] in order;
    assert order[..n + 1][..n] == order[..n] && wires[..n + 1][..n] == wires[..n];
  }

  // ---------------------------- invariants ---------------------------- //

  /** Network edits keep CIDRs. */
  ghost predicate NetworksFit(w: World, networks: map<Slug, Network>) {
    forall s | s in networks :: s in w.cidrs && networks[s].cidr == w.cidrs[s]
  }

  /** The operator's edits leave the managed clients alone, and AdGuard refuses them when two clients
      would collide. */
  ghost predicate OperatorMay(before: seq<Client>, after: seq<Client>) {
    && (forall i, j | 0 <= i < j < |after| :: !Collide(after[i], after[j]))
    && (forall c | Managed(c) :: c in after <==> c in before)
  }

  /** An order in which the database can list its rows. */
  ghost predicate ListsRows(order: seq<Slug>, rows: map<Slug, Row>) {
    NoDup(order) && forall s :: s in order <==> s in rows
  }

  ghost predicate Inv(w: World, st: State) {
    && Directory(w.cidrs) && NetworksFit(w, st.networks) && ListInv(st.clients, w.cidrs)
    && forall s | s in st.rows :: s in w.cidrs && (st.rows[s].clientName == "" || NameOf(st.rows[s].clientName, s))
  }

  lemma RequestedIsOwned(w: World, st: State, slug: Slug, level: string, provider: string)
    requires Inv(w, st) && Requested(w, st, slug, level, provider).Ok?
    ensures Owned(Requested(w, st, slug, level, provider).value, w.cidrs, slug)
  {
    NameOfIff(MakeName(slug, st.networks[slug].displayName), slug);
  }

  lemma ReadyIsOwned(w: World, st: State, slug: Slug)
    requires Inv(w, st) && slug in st.rows && Resolve(w, st, slug, st.rows[slug]).Ready?
    ensures Owned(Resolve(w, st, slug, st.rows[slug]).payload, w.cidrs, slug)
  {
    NameOfIff(MakeName(slug, st.networks[slug].displayName), slug);
  }

  lemma DeliveredEffect(clients: seq<Client>, cidrs: map<Slug, string>, s: Slug, payload: Client, wire: Wire)
    requires Directory(cidrs) && ListInv(clients, cidrs) && Owned(payload, cidrs, s)
    ensures Accepted(clients, payload, wire) <==> wire.Fine? && !OperatorHolds(clients, cidrs[s])
    ensures if wire.Down? || OperatorHolds(clients, cidrs[s]) then Delivered(clients, payload, wire) == clients
            else Applied(clients, Delivered(clients, payload, wire), cidrs, s, payload)
  {
    ApplyEffect(clients, cidrs, s, payload);
  }

  lemma SetKeeps(w: World, st: State, slug: Slug, level: string, provider: string, wire: Wire, dbOk: bool)
    requires Inv(w, st)
    ensures var after := AfterSet(w, st, slug, level, provider, wire, dbOk);
            Inv(w, after) && Operators(after.clients) == Operators(st.clients)
  {
    match Requested(w, st, slug, level, provider) {
      case Err(_) =>
      case Ok(payload) =>
        RequestedIsOwned(w, st, slug, level, provider);
        DeliveredEffect(st.clients, w.cidrs, slug, payload, wire);
    }
  }

  lemma ReapplyOneKeeps(w: World, st: State, slug: Slug, wire: Wire)
    requires Inv(w, st)
    ensures var after := AfterReapplyOne(w, st, slug, wire);
            Inv(w, after) && Operators(after.clients) == Operators(st.clients) && after == st.(clients := after.clients)
  {
    if slug in st.rows && Resolve(w, st, slug, st.rows[slug]).Ready? {
      ReadyIsOwned(w, st, slug);
      DeliveredEffect(st.clients, w.cidrs, slug, Resolve(w, st, slug, st.rows[slug]).payload, wire);
    }
  }

  lemma {:induction false} ReapplyKeeps(w: World, st: State, order: seq<Slug>, wires: seq<Wire>)
    requires Inv(w, st) && |order| == |wires|
    ensures var after := AfterReapply(w, st, order, wires);
            Inv(w, after) && Operators(after.clients) == Operators(st.clients) && after == st.(clients := after.clients)
  {
    if order != [] {
      var n := |order| - 1;
      ReapplyKeeps(w, st, order[..n], wires[..n]);
      ReapplyOneKeeps(w, AfterReapply(w, st, order[..n], wires[..n]), order[n], wires[n]);
    }
  }

  lemma {:induction false} OperatorsMembers(clients: seq<Client>)
    ensures forall c :: c in Operators(clients) <==> c in clients && !Managed(c)
    ensures Operators(Operators(clients)) == Operators(clients)
  {
    if clients != [] {
      var rest := Operators(clients[1..]);
      OperatorsMembers(clients[1..]);
      if Managed(clients[0]) {
        assert Operators(clients) == rest;
      } else {
        assert Operators(clients) == [clients[0]] + rest;
        assert ([clients[0]] + rest)[1..] == rest;
      }
    }
  }

  lemma {:induction false} OperatorsApart(clients: seq<Client>)
    requires forall i, j | 0 <= i < j < |clients| :: !Collide(clients[i], clients[j])
    ensures var ops := Operators(clients); forall i, j | 0 <= i < j < |ops| :: !Collide(ops[i], ops[j])
  {
    if clients != [] {
      var rest := clients[1..];
      forall i, j | 0 <= i < j < |rest| ensures !Collide(rest[i], rest[j]) {
        assert rest[i] == clients[i + 1] && rest[j] == clients[j + 1];
      }
      OperatorsApart(rest);
      OperatorsMembers(rest);
      var ops := Operators(rest);
      forall k | 0 <= k < |ops| ensures !Collide(clients[0], ops[k]) {
        assert ops[k] in rest;
        var m :| 0 <= m < |rest| && rest[m] == ops[k];
        assert clients[m + 1] == rest[m];
      }
    }
  }

  // ---------------------------- rows and their clients ---------------------------- //

  /** Some managed client of slug `s` routes its network. */
  ghost predicate Covered(w: World, st: State, s: Slug) {
    exists c :: c in st.clients && Owned(c, w.cidrs, s)
  }

  /** A network has at most one managed client. */
  lemma SoleClient(w: World, st: State, s: Slug, c: Client, d: Client)
    requires Inv(w, st) && c in st.clients && d in st.clients && Owned(c, w.cidrs, s) && Owned(d, w.cidrs, s)
    ensures c == d
  {
    var i :| 0 <= i < |st.clients| && st.clients[i] == c;
    OwnerStandsAlone(st.clients, w.cidrs, s, i);
  }

  /** The clients of every other network are as before. */
  ghost predicate Elsewhere(w: World, before: seq<Client>, after: seq<Client>, s: Slug) {
    forall c, t | t != s && Owned(c, w.cidrs, t) :: c in after <==> c in before
  }

  lemma OwnersDiffer(w: World, c: Client, s: Slug, t: Slug)
    requires Directory(w.cidrs) && Owned(c, w.cidrs, s) && Owned(c, w.cidrs, t)
    ensures s == t
  {
    NameDeterminesSlug(c.name, s, t);
  }

  lemma AppliedElsewhere(w: World, before: seq<Client>, after: seq<Client>, s: Slug, payload: Client)
    requires Directory(w.cidrs) && Applied(before, after, w.cidrs, s, payload) && Owned(payload, w.cidrs, s)
    ensures Elsewhere(w, before, after, s)
  {
    forall c, t | t != s && Owned(c, w.cidrs, t) ensures c in after <==> c in before {
      if Owned(c, w.cidrs, s) {
        OwnersDiffer(w, c, s, t);
      }
    }
  }

  lemma DeleteElsewhere(w: World, clients: seq<Client>, s: Slug, name: string)
    requires Directory(w.cidrs) && ListInv(clients, w.cidrs) && s in w.cidrs && NameOf(name, s)
    ensures Elsewhere(w, clients, Delete(clients, name), s)
  {
    DeleteEffect(clients, w.cidrs, name);
    forall c, t | t != s && Owned(c, w.cidrs, t) ensures c.name != name {
      if c.name == name {
        NameDeterminesSlug(name, s, t);
      }
    }
  }

  /** Every operation on one slug leaves the clients of the others alone. */
  lemma RequestsStayHome(w: World, st: State, slug: Slug, level: string, provider: string, wire: Wire, dbOk: bool)
    requires Inv(w, st)
    ensures Elsewhere(w, st.clients, AfterSet(w, st, slug, level, provider, wire, dbOk).clients, slug)
    ensures Elsewhere(w, st.clients, AfterRemove(st, slug, wire, dbOk).clients, slug)
    ensures Elsewhere(w, st.clients, AfterReapplyOne(w, st, slug, wire).clients, slug)
  {
    if Requested(w, st, slug, level, provider).Ok? {
      var payload := Requested(w, st, slug, level, provider).value;
      RequestedIsOwned(w, st, slug, level, provider);
      DeliveredStaysHome(w, st.clients, slug, payload, wire);
    }
    if slug in st.rows {
      if st.rows[slug].clientName != "" {
        DeleteElsewhere(w, st.clients, slug, st.rows[slug].clientName);
      }
      if Resolve(w, st, slug, st.rows[slug]).Ready? {
        ReadyIsOwned(w, st, slug);
        DeliveredStaysHome(w, st.clients, slug, Resolve(w, st, slug, st.rows[slug]).payload, wire);
      }
    }
  }

  lemma DeliveredStaysHome(w: World, clients: seq<Client>, s: Slug, payload: Client, wire: Wire)
    requires Directory(w.cidrs) && ListInv(clients, w.cidrs) && Owned(payload, w.cidrs, s)
    ensures Elsewhere(w, clients, Delivered(clients, payload, wire), s)
  {
    DeliveredEffect(clients, w.cidrs, s, payload, wire);
    if !wire.Down? && !OperatorHolds(clients, w.cidrs[s]) {
      AppliedElsewhere(w, clients, Delivered(clients, payload, wire), s, payload);
    }
  }
}
