/**
 How closely the two stores of the DNS protection manager agree: what one request does to that when
 nothing runs in between, and that one successful `reapply_all` brings AdGuard back in step after it
 lost every managed client (backend/app/dns/manager.py:232-359).
 */
module DnsReconciliation {
  import opened Common
  import opened AdGuardClients
  import opened DnsProtection

  /** The client of row `s` carries the name stored in it. */
  ghost predicate InStep(w: World, st: State, s: Slug)
    requires s in st.rows
  {
    exists c :: c in st.clients && Owned(c, w.cidrs, s) && c.name == st.rows[s].clientName
  }

  /** Slug `s` has a row exactly when it has a managed client, and then under the stored name. */
  ghost predicate Agree(w: World, st: State, s: Slug) {
    && (s in st.rows <==> Covered(w, st, s))
    && (s in st.rows ==> InStep(w, st, s))
  }

  ghost predicate Tidy(w: World, st: State) { forall s :: Agree(w, st, s) }

  /** Rows and managed clients then correspond one to one. */
  lemma TidyIsBijection(w: World, st: State, c: Client)
    requires Inv(w, st) && Tidy(w, st) && c in st.clients && Managed(c)
    ensures exists s :: s in st.rows && Owned(c, w.cidrs, s) && c.name == st.rows[s].clientName
                        && forall t | t in st.rows && Owned(c, w.cidrs, t) :: t == s
  {
    var s :| Owned(c, w.cidrs, s);
    assert Agree(w, st, s) && Covered(w, st, s);
    var d :| d in st.clients && Owned(d, w.cidrs, s) && d.name == st.rows[s].clientName;
    SoleClient(w, st, s, c, d);
    forall t | t in st.rows && Owned(c, w.cidrs, t) ensures t == s {
      OwnersDiffer(w, c, s, t);
    }
  }

  // ---------------------------- undisturbed requests ---------------------------- //

  lemma AgreeElsewhere(w: World, before: State, after: State, s: Slug, t: Slug)
    requires Elsewhere(w, before.clients, after.clients, s) && t != s && Agree(w, before, t)
    requires (t in after.rows <==> t in before.rows) && (t in after.rows ==> after.rows[t] == before.rows[t])
    ensures Agree(w, after, t)
  {
  }

  lemma TidyElsewhere(w: World, before: State, after: State, s: Slug)
    requires Tidy(w, before) && Elsewhere(w, before.clients, after.clients, s)
    requires forall t | t != s ::
               (t in after.rows <==> t in before.rows) && (t in after.rows ==> after.rows[t] == before.rows[t])
    ensures Tidy(w, after) <==> Agree(w, after, s)
  {
    forall t | t != s ensures Agree(w, after, t) {
      AgreeElsewhere(w, before, after, s, t);
    }
  }

  /** A push that AdGuard carries out without the row being saved: its answer is lost, or the
      database write fails; it does no harm when the row already has the name of the client. */
  ghost predicate HalfSet(w: World, st: State, slug: Slug, level: string, provider: string, wire: Wire, dbOk: bool) {
    match Requested(w, st, slug, level, provider)
    case Err(_) => false
    case Ok(payload) =>
      && !wire.Down? && Apply(st.clients, payload).Some? && !(wire.Fine? && dbOk)
      && !(slug in st.rows && st.rows[slug].clientName == payload.name)
  }

  lemma SetTidyIff(w: World, st: State, slug: Slug, level: string, provider: string, wire: Wire, dbOk: bool)
    requires Inv(w, st) && Tidy(w, st)
    ensures Tidy(w, AfterSet(w, st, slug, level, provider, wire, dbOk))
            <==> !HalfSet(w, st, slug, level, provider, wire, dbOk)
  {
    var after := AfterSet(w, st, slug, level, provider, wire, dbOk);
    if Requested(w, st, slug, level, provider).Ok? {
      var payload := Requested(w, st, slug, level, provider).value;
      SetKeeps(w, st, slug, level, provider, wire, dbOk);
      RequestedIsOwned(w, st, slug, level, provider);
      ApplyEffect(st.clients, w.cidrs, slug, payload);
      RequestsStayHome(w, st, slug, level, provider, wire, dbOk);
      TidyElsewhere(w, st, after, slug);
      if !wire.Down? && Apply(st.clients, payload).Some? {
        assert payload in after.clients && Owned(payload, w.cidrs, slug);
        forall c | c in after.clients && Owned(c, w.cidrs, slug) ensures c == payload {
          SoleClient(w, after, slug, c, payload);
        }
      } else {
        assert after == st;
      }
    }
  }

  lemma RemoveAgreesIff(w: World, st: State, slug: Slug, wire: Wire, dbOk: bool)
    requires Inv(w, st) && Agree(w, st, slug) && slug in st.rows
    ensures Agree(w, AfterRemove(st, slug, wire, dbOk), slug) <==> (dbOk <==> !wire.Down?)
  {
    var after := AfterRemove(st, slug, wire, dbOk);
    var own :| own in st.clients && Owned(own, w.cidrs, slug) && own.name == st.rows[slug].clientName;
    DeleteEffect(st.clients, w.cidrs, own.name);
    assert Covered(w, after, slug) <==> wire.Down? by {
      forall c | c in after.clients && Owned(c, w.cidrs, slug) ensures c == own {
        SoleClient(w, st, slug, c, own);
      }
      assert own.name != "";
      assert wire.Down? ==> own in after.clients;
    }
  }

  lemma RemoveTidyIff(w: World, st: State, slug: Slug, wire: Wire, dbOk: bool)
    requires Inv(w, st) && Tidy(w, st)
    ensures Tidy(w, AfterRemove(st, slug, wire, dbOk)) <==> slug !in st.rows || (dbOk <==> !wire.Down?)
  {
    if slug in st.rows {
      assert Agree(w, st, slug);
      RemoveAgreesIff(w, st, slug, wire, dbOk);
      RequestsStayHome(w, st, slug, "", "", wire, dbOk);
      TidyElsewhere(w, st, AfterRemove(st, slug, wire, dbOk), slug);
    }
  }

  lemma ReapplyOneTidy(w: World, st: State, slug: Slug, wire: Wire)
    requires Inv(w, st) && Tidy(w, st)
    ensures Tidy(w, AfterReapplyOne(w, st, slug, wire))
  {
    var after := AfterReapplyOne(w, st, slug, wire);
    assert Agree(w, st, slug);
    if slug in st.rows && Resolve(w, st, slug, st.rows[slug]).Ready? {
      var payload := Resolve(w, st, slug, st.rows[slug]).payload;
      ReadyIsOwned(w, st, slug);
      DeliveredEffect(st.clients, w.cidrs, slug, payload, wire);
      RequestsStayHome(w, st, slug, "", "", wire, true);
      TidyElsewhere(w, st, after, slug);
      assert st.rows[slug].clientName != "";
      assert payload.name == st.rows[slug].clientName;
      if after.clients != st.clients {
        assert payload in after.clients;
      }
    }
  }

  lemma {:induction false} ReapplyTidy(w: World, st: State, order: seq<Slug>, wires: seq<Wire>)
    requires Inv(w, st) && Tidy(w, st) && |order| == |wires|
    ensures Tidy(w, AfterReapply(w, st, order, wires))
  {
    if order != [] {
      var n := |order| - 1;
      ReapplyTidy(w, st, order[..n], wires[..n]);
      ReapplyKeeps(w, st, order[..n], wires[..n]);
      ReapplyOneTidy(w, AfterReapply(w, st, order[..n], wires[..n]), order[n], wires[n]);
    }
  }

  // ---------------------------- recovery ---------------------------- //

  /** AdGuard answers every request. */
  predicate AllFine(wires: seq<Wire>) { forall k | 0 <= k < |wires| :: wires[k].Fine? }

  /** Row `s` can be pushed: its network, level and provider are known. */
  predicate Wanted(w: World, st: State, s: Slug, payload: Client) {
    s in st.rows && Resolve(w, st, s, st.rows[s]) == Ready(payload)
  }

  /** Row `s` cannot be pushed even when AdGuard answers: its level or provider is gone, or an
      operator's client holds its CIDR. */
  predicate Blocked(w: World, st: State, s: Slug) {
    && s in st.rows
    && match Resolve(w, st, s, st.rows[s])
       case Skipped => false
       case Unresolved => true
       case Ready(payload) => exists c :: c in Operators(st.clients) && payload.ids[0] in c.ids
  }

  lemma BlockedIff(w: World, st: State, s: Slug)
    requires Inv(w, st) && s in st.rows
    ensures VerdictOn(w, st, s, Fine).Failed? <==> Blocked(w, st, s)
  {
    if Resolve(w, st, s, st.rows[s]).Ready? {
      ReadyIsOwned(w, st, s);
      ApplyEffect(st.clients, w.cidrs, s, Resolve(w, st, s, st.rows[s]).payload);
      OperatorsMembers(st.clients);
    }
  }

  /** Pushes change neither what rows resolve to nor which of them are blocked. */
  lemma SameWants(w: World, st: State, after: State, s: Slug)
    requires after == st.(clients := after.clients) && Operators(after.clients) == Operators(st.clients)
    ensures Blocked(w, after, s) <==> Blocked(w, st, s)
    ensures s in st.rows ==> Resolve(w, after, s, st.rows[s]) == Resolve(w, st, s, st.rows[s])
  {
  }

  lemma LastIsBlocked(w: World, st: State, order: seq<Slug>, wires: seq<Wire>)
    requires Inv(w, st) && 1 <= |order| == |wires| && order[|order| - 1] in st.rows
    ensures var n := |order| - 1; var prior := AfterReapply(w, st, order[..n], wires[..n]);
            prior.rows == st.rows && (VerdictOn(w, prior, order[n], Fine).Failed? <==> Blocked(w, st, order[n]))
  {
    var n := |order| - 1;
    ReapplyKeeps(w, st, order[..n], wires[..n]);
    BlockedIff(w, AfterReapply(w, st, order[..n], wires[..n]), order[n]);
    SameWants(w, st, AfterReapply(w, st, order[..n], wires[..n]), order[n]);
  }

  /** With AdGuard answering, the report lists as errors exactly the rows that are blocked. */
  lemma {:induction false} ErrorsAreBlocked(w: World, st: State, order: seq<Slug>, wires: seq<Wire>, s: Slug)
    requires Inv(w, st) && |order| == |wires| && AllFine(wires) && (forall t | t in order :: t in st.rows)
    ensures s in Report(w, st, order, wires).errors <==> s in order && Blocked(w, st, s)
  {
    if order != [] {
      var n := |order| - 1;
      var prior := AfterReapply(w, st, order[..n], wires[..n]);
      assert order == order[..n] + [order[n]];
      ErrorsAreBlocked(w, st, order[..n], wires[..n], s);
      LastIsBlocked(w, st, order, wires);
    }
  }

  /** Every row is reported once: pushed, failed, or skipped because its network is gone. */
  lemma {:induction false} ReportPartitions(w: World, st: State, order: seq<Slug>, wires: seq<Wire>)
    requires |order| == |wires| && forall s | s in order :: s in st.rows
    ensures var r := Report(w, st, order, wires);
            && multiset(r.applied) + multiset(r.skipped) + multiset(r.errors) == multiset(order)
            && forall s :: s in r.skipped <==> s in order && s !in st.networks
  {
    if order != [] {
      var n := |order| - 1;
      assert order == order[..n] + [order[n]];
      ReportPartitions(w, st, order[..n], wires[..n]);
      RowsStay(w, st, order[..n], wires[..n]);
    }
  }

  /** Every row of the order that can be pushed has its payload in the list afterwards. */
  ghost predicate Restored(w: World, st: State, order: seq<Slug>, clients: seq<Client>) {
    forall k, payload | 0 <= k < |order| && Wanted(w, st, order[k], payload) && !Blocked(w, st, order[k]) ::
        payload in clients
  }

  /** A row pushed with AdGuard answering has its payload in the list, and if it was there nothing changes. */
  lemma PushOne(w: World, st: State, s: Slug, payload: Client)
    requires Inv(w, st) && Wanted(w, st, s, payload)
    ensures var after := AfterReapplyOne(w, st, s, Fine);
            && Owned(payload, w.cidrs, s)
            && (Blocked(w, st, s) ==> after == st)
            && (!Blocked(w, st, s) ==> payload in after.clients)
            && (payload in st.clients ==> after == st)
            && Elsewhere(w, st.clients, after.clients, s)
  {
    ReadyIsOwned(w, st, s);
    BlockedIff(w, st, s);
    ApplyEffect(st.clients, w.cidrs, s, payload);
    RequestsStayHome(w, st, s, "", "", Fine, true);
  }

  lemma {:induction false} ReapplyRestores(w: World, st: State, order: seq<Slug>, wires: seq<Wire>)
    requires Inv(w, st) && |order| == |wires| && AllFine(wires) && NoDup(order)
    ensures Restored(w, st, order, AfterReapply(w, st, order, wires).clients)
  {
    if order != [] {
      var n := |order| - 1;
      var prior := AfterReapply(w, st, order[..n], wires[..n]);
      var after := AfterReapply(w, st, order, wires);
      ReapplyRestores(w, st, order[..n], wires[..n]);
      ReapplyKeeps(w, st, order[..n], wires[..n]);
      forall k, payload | 0 <= k < |order| && Wanted(w, st, order[k], payload) && !Blocked(w, st, order[k])
        ensures payload in after.clients
      {
        SameWants(w, st, prior, order[k]);
        if k == n {
          PushOne(w, prior, order[n], payload);
        } else {
          assert order[..n][k] == order[k];
          ReadyIsOwned(w, st, order[k]);
          RequestsStayHome(w, prior, order[n], "", "", wires[n], true);
        }
      }
    }
  }

  /** Where every payload is already in the list, pushing them all again changes nothing. */
  lemma {:induction false} ReapplyIsIdle(w: World, st: State, order: seq<Slug>, wires: seq<Wire>)
    requires Inv(w, st) && |order| == |wires| && AllFine(wires) && Restored(w, st, order, st.clients)
    ensures AfterReapply(w, st, order, wires) == st
  {
    if order != [] {
      var n := |order| - 1;
      assert Restored(w, st, order[..n], st.clients) by {
        assert forall k | 0 <= k < n :: order[..n][k] == order[k];
      }
      ReapplyIsIdle(w, st, order[..n], wires[..n]);
      if order[n] in st.rows && Resolve(w, st, order[n], st.rows[order[n]]).Ready? {
        PushOne(w, st, order[n], Resolve(w, st, order[n], st.rows[order[n]]).payload);
      }
    }
  }

  /** A second run of `reapply_all`, in any order of the rows, changes nothing. */
  lemma ReapplyTwice(w: World, st: State, order: seq<Slug>, again: seq<Slug>, wires: seq<Wire>)
    requires Inv(w, st) && ListsRows(order, st.rows) && ListsRows(again, st.rows)
    requires |order| == |again| == |wires| && AllFine(wires)
    ensures var once := AfterReapply(w, st, order, wires); AfterReapply(w, once, again, wires) == once
  {
    var once := AfterReapply(w, st, order, wires);
    ReapplyKeeps(w, st, order, wires);
    ReapplyRestores(w, st, order, wires);
    forall k, payload | 0 <= k < |again| && Wanted(w, once, again[k], payload) && !Blocked(w, once, again[k])
      ensures payload in once.clients
    {
      SameWants(w, st, once, again[k]);
      assert again[k] in again;
      var i :| 0 <= i < |order| && order[i] == again[k];
      assert Wanted(w, st, order[i], payload);
    }
    ReapplyIsIdle(w, once, again, wires);
  }

  /** The network of row `s` has a client that serves the row. */
  ghost predicate Served(w: World, st: State, clients: seq<Client>, s: Slug) {
    && s in st.rows && s in st.networks && st.rows[s].level in st.levels
    && var row, l := st.rows[s], st.levels[st.rows[s].level];
       var name := if row.provider == "" then l.defaultProvider else row.provider;
       && name in w.catalog
       && exists c :: c in clients && StandsFor(c, s, st.networks[s], row.clientName) && Serves(c, l, w.catalog[name])
  }

  lemma {:induction false} AppliedStay(w: World, st: State, order: seq<Slug>, wires: seq<Wire>, s: Slug)
    requires Inv(w, st) && |order| == |wires| && NoDup(order) && forall t | t in order :: t in st.rows
    requires s in Report(w, st, order, wires).applied
    ensures s in order && Resolve(w, st, s, st.rows[s]).Ready?
    ensures Resolve(w, st, s, st.rows[s]).payload in AfterReapply(w, st, order, wires).clients
  {
    var n := |order| - 1;
    var prior := AfterReapply(w, st, order[..n], wires[..n]);
    assert order == order[..n] + [order[n]];
    ReapplyKeeps(w, st, order[..n], wires[..n]);
    if s in Report(w, st, order[..n], wires[..n]).applied {
      AppliedStay(w, st, order[..n], wires[..n], s);
      assert s != order[n];
      ReadyIsOwned(w, st, s);
      RequestsStayHome(w, prior, order[n], "", "", wires[n], true);
    } else {
      SameWants(w, st, prior, s);
      PushOne(w, prior, s, Resolve(w, st, s, st.rows[s]).payload);
      BlockedIff(w, prior, s);
    }
  }

  /** Whatever fails in a re-apply, every row that it reports as applied has at its end a client that
      serves it: the settings of its level, the endpoints of its provider, its CIDR and its name. */
  lemma AppliedRowsAreServed(w: World, st: State, order: seq<Slug>, wires: seq<Wire>)
    requires Inv(w, st) && |order| == |wires| && ListsRows(order, st.rows)
    ensures forall s | s in Report(w, st, order, wires).applied ::
              Served(w, st, AfterReapply(w, st, order, wires).clients, s)
  {
    forall s | s in Report(w, st, order, wires).applied
      ensures Served(w, st, AfterReapply(w, st, order, wires).clients, s)
    {
      AppliedStay(w, st, order, wires, s);
      ResolvedServes(w, st, s, st.rows[s]);
    }
  }

  /** After an accepted set the network's client serves the level and provider asked for, and the row
      says so. */
  lemma AcceptedSetIsServed(w: World, st: State, slug: Slug, level: string, provider: string, wire: Wire, dbOk: bool)
    requires Inv(w, st) && SetResult(w, st, slug, level, provider, wire, dbOk).Ok?
    ensures var after := AfterSet(w, st, slug, level, provider, wire, dbOk);
            && after == st.(clients := after.clients, rows := after.rows)
            && slug in after.rows && after.rows[slug].level == level && after.rows[slug].provider == provider
            && (forall t | t != slug :: (t in after.rows <==> t in st.rows)
                                        && (t in st.rows ==> after.rows[t] == st.rows[t]))
            && slug in st.networks
            && after.rows[slug].clientName == "[slate-ctrl-net] " + st.networks[slug].displayName + " (" + slug + ")"
            && Served(w, after, after.clients, slug)
  {
    RequestedServes(w, st, slug, level, provider);
    var payload := Requested(w, st, slug, level, provider).value;
    RequestedIsOwned(w, st, slug, level, provider);
    DeliveredEffect(st.clients, w.cidrs, slug, payload, wire);
  }

  lemma {:induction false} OnlyPayloadsAppear(w: World, st: State, order: seq<Slug>, wires: seq<Wire>, c: Client)
    requires Inv(w, st) && |order| == |wires| && Managed(c)
    requires c in AfterReapply(w, st, order, wires).clients && c !in st.clients
    ensures exists s :: s in order && Wanted(w, st, s, c)
  {
    if order != [] {
      var n := |order| - 1;
      var prior := AfterReapply(w, st, order[..n], wires[..n]);
      ReapplyKeeps(w, st, order[..n], wires[..n]);
      if c in prior.clients {
        OnlyPayloadsAppear(w, st, order[..n], wires[..n], c);
        var s :| s in order[..n] && Wanted(w, st, s, c);
        assert s in order;
      } else {
        assert order[n] in order;
        SameWants(w, st, prior, order[n]);
        OnlyPayloadAppears(w, prior, order[n], wires[n], c);
      }
    }
  }

  lemma OnlyPayloadAppears(w: World, st: State, s: Slug, wire: Wire, c: Client)
    requires Inv(w, st) && Managed(c) && c in AfterReapplyOne(w, st, s, wire).clients && c !in st.clients
    ensures Wanted(w, st, s, c)
  {
    var payload := Resolve(w, st, s, st.rows[s]).payload;
    var after := AfterReapplyOne(w, st, s, wire);
    ReadyIsOwned(w, st, s);
    ReapplyOneKeeps(w, st, s, wire);
    DeliveredEffect(st.clients, w.cidrs, s, payload, wire);
    if Owned(c, w.cidrs, s) {
      SoleClient(w, after, s, c, payload);
    }
  }

  /** When AdGuard has lost every managed client, a `reapply_all` that reports no error leaves, as
      managed clients, exactly the payloads of the rows that have a network. */
  lemma RecoveryIsExact(w: World, st: State, order: seq<Slug>, wires: seq<Wire>, c: Client)
    requires Inv(w, st) && ListsRows(order, st.rows) && |order| == |wires| && AllFine(wires)
    requires (forall d | d in st.clients :: !Managed(d)) && Report(w, st, order, wires).errors == []
    ensures Managed(c) ==> (c in AfterReapply(w, st, order, wires).clients <==> exists s :: Wanted(w, st, s, c))
    ensures Operators(AfterReapply(w, st, order, wires).clients) == st.clients
  {
    ReapplyKeeps(w, st, order, wires);
    ReapplyRestores(w, st, order, wires);
    AllOperators(st.clients);
    forall s | Wanted(w, st, s, c) ensures c in AfterReapply(w, st, order, wires).clients {
      ErrorsAreBlocked(w, st, order, wires, s);
      assert s in order;
      var k :| 0 <= k < |order| && order[k] == s;
    }
    if Managed(c) && c in AfterReapply(w, st, order, wires).clients {
      OnlyPayloadsAppear(w, st, order, wires, c);
    }
  }

  lemma {:induction false} AllOperators(clients: seq<Client>)
    requires forall c | c in clients :: !Managed(c)
    ensures Operators(clients) == clients
  {
    if clients != [] {
      AllOperators(clients[1..]);
    }
  }
}
