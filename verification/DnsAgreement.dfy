/**
 When the two stores of the DNS protection manager agree on a network, whatever requests interleave
 (backend/app/dns/manager.py:232-359): the exact condition, in terms of the writes that requests
 have carried out, and what it says of requests that overlap.
 */
module DnsAgreement {
  import opened Common
  import opened AdGuardClients
  import opened DnsProtection
  import opened DnsReconciliation
  import opened DnsInterleaving

  /** A write carried out for one network: its client put under a name, deleted by name, or lost with
      all of AdGuard; its row saved with a client name, or dropped. */
  datatype Mark = Nothing | Put(name: string) | Gone(name: string) | Wiped | Saved(name: string) | Dropped

  /** The write for network `s` that a step carries out. A push counts when AdGuard accepted it,
      whether or not the answer came back. */
  function MarkOf(f: Flow, e: Event, s: Slug): Mark {
    if e.Wipe? then Wiped
    else if e.Post? && e.p in f.tasks then
      (match f.tasks[e.p]
       case Posts(slug, payload, existing, _) =>
         if slug == s && Lands(f.st.clients, payload, existing, e.wire) then Put(payload.name) else Nothing
       case Deletes(slug, name) => if slug == s && !e.wire.Down? then Gone(name) else Nothing
       case _ => Nothing)
    else if e.Write? && e.p in f.tasks && e.dbOk then
      (match f.tasks[e.p]
       case Saves(slug, row) => if slug == s then Saved(row.clientName) else Nothing
       case Drops(slug) => if slug == s then Dropped else Nothing
       case _ => Nothing)
    else Nothing
  }

  function Marks(flows: seq<Flow>, events: seq<Event>, k: nat, s: Slug): seq<Mark>
    requires k <= |events| <= |flows|
  {
    if k == 0 then [] else Marks(flows, events, k - 1, s) + [MarkOf(flows[k - 1], events[k - 1], s)]
  }

  /** The name of the network's client after some writes; deleting another name does nothing. */
  function ClientAfter(name: Option<string>, m: Mark): Option<string> {
    match m
    case Put(n) => Some(n)
    case Gone(n) => if name == Some(n) then None else name
    case Wiped => None
    case _ => name
  }

  function ClientSide(name: Option<string>, marks: seq<Mark>): Option<string> {
    if marks == [] then name else ClientAfter(ClientSide(name, marks[..|marks| - 1]), marks[|marks| - 1])
  }

  /** The client name in the network's row after some writes. */
  function RowAfter(name: Option<string>, m: Mark): Option<string> {
    match m
    case Saved(n) => Some(n)
    case Dropped => None
    case _ => name
  }

  function RowSide(name: Option<string>, marks: seq<Mark>): Option<string> {
    if marks == [] then name else RowAfter(RowSide(name, marks[..|marks| - 1]), marks[|marks| - 1])
  }

  function RowName(st: State, s: Slug): Option<string> {
    if s in st.rows then Some(st.rows[s].clientName) else None
  }

  /** `name` is the name of the network's managed client, if it has one. */
  ghost predicate HasName(w: World, clients: seq<Client>, s: Slug, name: Option<string>) {
    match name
    case None => forall c | c in clients :: !Owned(c, w.cidrs, s)
    case Some(n) => exists c :: c in clients && Owned(c, w.cidrs, s) && c.name == n
  }

  lemma AgreeIffNames(w: World, st: State, s: Slug, name: Option<string>)
    requires Inv(w, st) && HasName(w, st.clients, s, name)
    ensures Agree(w, st, s) <==> RowName(st, s) == name
    ensures Covered(w, st, s) <==> name.Some?
  {
    if name.Some? {
      var c :| c in st.clients && Owned(c, w.cidrs, s) && c.name == name.value;
      forall d | d in st.clients && Owned(d, w.cidrs, s) ensures d == c {
        SoleClient(w, st, s, c, d);
      }
    }
  }

  /** Clients of other networks, coming and going, do not change this one's name. */
  lemma NameElsewhere(w: World, before: seq<Client>, after: seq<Client>, t: Slug, s: Slug, name: Option<string>)
    requires HasName(w, before, s, name) && Elsewhere(w, before, after, t) && t != s
    ensures HasName(w, after, s, name)
  {
  }

  lemma PushNames(w: World, st: State, t: Slug, payload: Client, existing: Option<string>, wire: Wire,
                  s: Slug, name: Option<string>)
    requires Inv(w, st) && Owned(payload, w.cidrs, t) && (existing.Some? ==> NameOf(existing.value, t))
    requires HasName(w, st.clients, s, name)
    ensures var landed := t == s && Lands(st.clients, payload, existing, wire);
            HasName(w, PushedTo(st.clients, payload, existing, wire), s, if landed then Some(payload.name) else name)
  {
    PushKeepsList(w, st, t, payload, existing, wire);
    if t != s {
      NameElsewhere(w, st.clients, PushedTo(st.clients, payload, existing, wire), t, s, name);
    }
  }

  lemma DeleteNames(w: World, st: State, t: Slug, gone: string, wire: Wire, s: Slug, name: Option<string>)
    requires Inv(w, st) && t in w.cidrs && NameOf(gone, t) && HasName(w, st.clients, s, name)
    ensures var after := DeletedFrom(st.clients, gone, wire);
            HasName(w, after, s, if t == s && !wire.Down? && name == Some(gone) then None else name)
  {
    DeleteKeepsList(w, st, t, gone, wire);
    if t != s {
      NameElsewhere(w, st.clients, DeletedFrom(st.clients, gone, wire), t, s, name);
    } else if name.Some? {
      var c :| c in st.clients && Owned(c, w.cidrs, s) && c.name == name.value;
      forall d | d in st.clients && Owned(d, w.cidrs, s) ensures d == c {
        SoleClient(w, st, s, c, d);
      }
    }
  }

  lemma PostNames(w: World, f: Flow, e: Event, next: Flow, s: Slug, name: Option<string>)
    requires FlowInv(w, f) && Follows(w, f, e, next) && e.Post?
    requires HasName(w, f.st.clients, s, name)
    ensures HasName(w, next.st.clients, s, ClientAfter(name, MarkOf(f, e, s))) && next.st.rows == f.st.rows
  {
    PostChanges(w, f, e, next);
    assert TaskFits(w, f.tasks[e.p]);
    match f.tasks[e.p]
    case Posts(t, payload, existing, _) => PushNames(w, f.st, t, payload, existing, e.wire, s, name);
    case Deletes(t, gone) => DeleteNames(w, f.st, t, gone, e.wire, s, name);
  }

  lemma WriteNames(w: World, f: Flow, e: Event, next: Flow, s: Slug, name: Option<string>)
    requires Follows(w, f, e, next) && e.Write?
    ensures next.st.clients == f.st.clients && ClientAfter(name, MarkOf(f, e, s)) == name
    ensures RowName(next.st, s) == RowAfter(RowName(f.st, s), MarkOf(f, e, s))
  {
    WriteChanges(w, f, e, next);
  }

  lemma OutsideNames(w: World, f: Flow, e: Event, next: Flow, s: Slug, name: Option<string>)
    requires Follows(w, f, e, next) && (e.Wipe? || e.OperatorEdits?)
    requires HasName(w, f.st.clients, s, name)
    ensures HasName(w, next.st.clients, s, ClientAfter(name, MarkOf(f, e, s))) && next.st.rows == f.st.rows
  {
    OutsideChanges(w, f, e, next);
    OperatorsMembers(f.st.clients);
    if e.OperatorEdits? { OperatorNames(w, f.st.clients, next.st.clients, s, name); }
  }

  lemma OperatorNames(w: World, before: seq<Client>, after: seq<Client>, s: Slug, name: Option<string>)
    requires HasName(w, before, s, name) && forall c | Managed(c) :: c in after <==> c in before
    ensures HasName(w, after, s, name)
  {
  }

  /** One step moves each side exactly as its write says. */
  lemma StepNames(w: World, f: Flow, e: Event, next: Flow, s: Slug, name: Option<string>)
    requires FlowInv(w, f) && Follows(w, f, e, next) && HasName(w, f.st.clients, s, name)
    ensures HasName(w, next.st.clients, s, ClientAfter(name, MarkOf(f, e, s)))
    ensures RowName(next.st, s) == RowAfter(RowName(f.st, s), MarkOf(f, e, s))
  {
    if Reads(e) {
      ReadsChangeNothing(w, f, e, next);
    } else if e.Post? {
      PostNames(w, f, e, next, s, name);
      assert RowAfter(RowName(f.st, s), MarkOf(f, e, s)) == RowName(f.st, s);
    } else if e.Write? {
      WriteNames(w, f, e, next, s, name);
    } else {
      OutsideNames(w, f, e, next, s, name);
    }
  }

  /** Starting from agreement, one step of any request keeps it exactly when it writes nothing for the
      network or writes what the other side has. */
  lemma StepAgreesIff(w: World, f: Flow, e: Event, next: Flow, s: Slug)
    requires FlowInv(w, f) && Follows(w, f, e, next) && Agree(w, f.st, s)
    ensures Agree(w, next.st, s) <==>
            match MarkOf(f, e, s)
            case Put(n) => RowName(f.st, s) == Some(n)
            case Gone(n) => RowName(f.st, s) != Some(n)
            case Saved(n) => RowName(f.st, s) == Some(n)
            case Wiped => s !in f.st.rows
            case Dropped => s !in f.st.rows
            case Nothing => true
  {
    var name := RowName(f.st, s);
    assert HasName(w, f.st.clients, s, name);
    StepNames(w, f, e, next, s, name);
    StepKeeps(w, f, e, next);
    AgreeIffNames(w, next.st, s, ClientAfter(name, MarkOf(f, e, s)));
  }

  /** From a client named `name` and a row with client name `row`, the writes have led to the stores. */
  ghost predicate SidesAre(w: World, st: State, s: Slug, name: Option<string>, row: Option<string>, marks: seq<Mark>) {
    HasName(w, st.clients, s, ClientSide(name, marks)) && RowName(st, s) == RowSide(row, marks)
  }

  lemma StepSides(w: World, f: Flow, e: Event, next: Flow, s: Slug,
                  name: Option<string>, row: Option<string>, marks: seq<Mark>)
    requires FlowInv(w, f) && Follows(w, f, e, next)
    requires SidesAre(w, f.st, s, name, row, marks)
    ensures SidesAre(w, next.st, s, name, row, marks + [MarkOf(f, e, s)])
  {
    StepNames(w, f, e, next, s, ClientSide(name, marks));
    SidesNext(name, marks, MarkOf(f, e, s));
    SidesNext(row, marks, MarkOf(f, e, s));
  }

  /** So over a whole run each side is what the writes carried out so far make of it. */
  lemma {:induction false} SidesFollowMarks(w: World, flows: seq<Flow>, events: seq<Event>, k: nat,
                                            s: Slug, name: Option<string>)
    requires Run(w, flows, events) && k < |flows| && HasName(w, flows[0].st.clients, s, name)
    ensures SidesAre(w, flows[k].st, s, name, RowName(flows[0].st, s), Marks(flows, events, k, s))
  {
    if k > 0 {
      SidesFollowMarks(w, flows, events, k - 1, s, name);
      RunKeeps(w, flows, events, k - 1);
      StepSides(w, flows[k - 1], events[k - 1], flows[k], s, name, RowName(flows[0].st, s),
                Marks(flows, events, k - 1, s));
    }
  }

  lemma SidesNext(name: Option<string>, marks: seq<Mark>, m: Mark)
    ensures ClientSide(name, marks + [m]) == ClientAfter(ClientSide(name, marks), m)
    ensures RowSide(name, marks + [m]) == RowAfter(RowSide(name, marks), m)
  {
    assert (marks + [m])[..|marks|] == marks;
  }

  /** In every interleaving, from stores that agree on a network, they agree on it after any number of
      steps exactly when the writes carried out since then leave client and row with one name. */
  lemma AgreeIff(w: World, flows: seq<Flow>, events: seq<Event>, k: nat, s: Slug)
    requires Run(w, flows, events) && k < |flows| && Agree(w, flows[0].st, s)
    ensures var name, marks := RowName(flows[0].st, s), Marks(flows, events, k, s);
            && (Agree(w, flows[k].st, s) <==> ClientSide(name, marks) == RowSide(name, marks))
            && (Covered(w, flows[k].st, s) <==> ClientSide(name, marks).Some?)
            && (s in flows[k].st.rows <==> RowSide(name, marks).Some?)
  {
    var name := RowName(flows[0].st, s);
    assert HasName(w, flows[0].st.clients, s, name);
    SidesFollowMarks(w, flows, events, k, s, name);
    RunKeeps(w, flows, events, k);
    AgreeIffNames(w, flows[k].st, s, ClientSide(name, Marks(flows, events, k, s)));
  }
}
