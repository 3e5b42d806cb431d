/**
 AdGuard Home's persistent clients as the DNS protection manager uses them
 (backend/app/dns/manager.py:363-366, 460-542): an ordered list that refuses a second client with
 the same name or a shared id, and the look-up, apply and delete that the manager runs on it.
 */
module AdGuardClients {
  import opened Common

  type Slug = string

  datatype Settings = Settings(
    filtering: bool, parental: bool, safeBrowsing: bool, safeSearch: bool,
    blockedServices: seq<string>, upstreams: seq<string>)

  datatype Client = Client(name: string, ids: seq<string>, settings: Settings)

  const PREFIX := "[slate-ctrl-net] "

  /** `_make_client_name`. */
  function MakeName(slug: Slug, displayName: string): string { PREFIX + displayName + " (" + slug + ")" }

  predicate Managed(c: Client) { PREFIX <= c.name }

  /** `name` is what `_make_client_name` gives for `slug` and some display name. */
  predicate NameOf(name: string, slug: Slug) {
    var tail := " (" + slug + ")";
    |PREFIX| + |tail| <= |name| && PREFIX <= name && name[|name| - |tail|..] == tail
  }

  lemma NameOfIff(name: string, slug: Slug)
    ensures NameOf(name, slug) <==> exists displayName :: name == MakeName(slug, displayName)
  {
    var tail := " (" + slug + ")";
    if NameOf(name, slug) {
      var displayName := name[|PREFIX|..|name| - |tail|];
      assert name == PREFIX + displayName + tail;
      assert name == MakeName(slug, displayName);
    }
    forall displayName | name == MakeName(slug, displayName) ensures NameOf(name, slug) {
      assert name == PREFIX + displayName + tail;
    }
  }

  /** The slug's opening parenthesis is the last one of the name. */
  lemma LastParenthesis(name: string, s: Slug)
    requires NameOf(name, s) && '(' !in s
    ensures |s| + 2 <= |name| && name[|name| - |s| - 2] == '('
    ensures forall k | |name| - |s| - 2 < k < |name| :: name[k] != '('
    ensures name[|name| - |s| - 1..|name| - 1] == s
  {
    var start := |name| - |s| - 3;
    var tail := name[start..];
    assert tail == " (" + s + ")";
    assert tail[2..2 + |s|] == s;
    forall k | start + 1 < k < |name| ensures name[k] != '(' {
      assert name[k] == tail[k - start];
      if k - start < 2 + |s| { assert tail[k - start] in s; }
    }
    assert tail[1] == name[start + 1];
  }

  /** The printed name determines the slug, as long as slugs have no opening parenthesis. */
  lemma NameDeterminesSlug(name: string, s: Slug, t: Slug)
    requires NameOf(name, s) && NameOf(name, t) && '(' !in s && '(' !in t
    ensures s == t
  {
    LastParenthesis(name, s);
    LastParenthesis(name, t);
  }

  /** With one, it need not: two networks can print the same name. */
  lemma ParenthesisConfusesNames()
    ensures MakeName("a (b", "d") == MakeName("b", "d (a")
  {
    assert MakeName("a (b", "d") == PREFIX + "d (a (b)";
  }

  // ---------------------------- the list ---------------------------- //

  predicate Collide(c: Client, d: Client) {
    c.name == d.name || exists id :: id in c.ids && id in d.ids
  }

  function IndexOf(clients: seq<Client>, name: string): Option<nat> {
    if clients == [] then None
    else if clients[0].name == name then Some(0)
    else match IndexOf(clients[1..], name)
      case None => None
      case Some(i) => Some(i + 1)
  }

  /** POST /control/clients/add. */
  function Add(clients: seq<Client>, data: Client): Option<seq<Client>> {
    if exists c :: c in clients && Collide(c, data) then None else Some(clients + [data])
  }

  /** POST /control/clients/update; the data may carry a new name. */
  function Update(clients: seq<Client>, name: string, data: Client): Option<seq<Client>> {
    match IndexOf(clients, name)
    case None => None
    case Some(i) =>
      if i >= |clients| || exists j :: 0 <= j < |clients| && j != i && Collide(clients[j], data) then None
      else Some(clients[i := data])
  }

  /** POST /control/clients/delete. */
  function Delete(clients: seq<Client>, name: string): seq<Client> {
    if clients == [] then []
    else if clients[0].name == name then clients[1..]
    else [clients[0]] + Delete(clients[1..], name)
  }

  predicate Matches(c: Client, name: string, cidr: string) { Managed(c) && (c.name == name || cidr in c.ids) }

  /** `_find_managed_client`: the name of the first managed client with this name or CIDR. */
  function FindManaged(clients: seq<Client>, name: string, cidr: string): Option<string> {
    if clients == [] then None
    else if Matches(clients[0], name, cidr) then Some(clients[0].name)
    else FindManaged(clients[1..], name, cidr)
  }

  /** `_apply_adguard_client`; None is AdGuard refusing the request. */
  function Apply(clients: seq<Client>, payload: Client): Option<seq<Client>>
    requires payload.ids != []
  {
    Posted(clients, payload, FindManaged(clients, payload.name, payload.ids[0]))
  }

  /** The request that follows the look-up: update the client found, or add one. */
  function Posted(clients: seq<Client>, payload: Client, existing: Option<string>): Option<seq<Client>> {
    match existing
    case Some(name) => Update(clients, name, payload)
    case None => Add(clients, payload)
  }

  function Operators(clients: seq<Client>): seq<Client> {
    if clients == [] then []
    else (if Managed(clients[0]) then [] else [clients[0]]) + Operators(clients[1..])
  }

  // ---------------------------- what the manager keeps ---------------------------- //

  /** The CIDR of every network: pairwise distinct, under slugs of the form the API accepts. */
  ghost predicate Directory(cidrs: map<Slug, string>) {
    && (forall s, t | s in cidrs && t in cidrs && cidrs[s] == cidrs[t] :: s == t)
    && (forall s | s in cidrs :: '(' !in s)
  }

  predicate Owned(c: Client, cidrs: map<Slug, string>, s: Slug) {
    s in cidrs && c.ids == [cidrs[s]] && NameOf(c.name, s)
  }

  ghost predicate ListInv(clients: seq<Client>, cidrs: map<Slug, string>) {
    && (forall i, j | 0 <= i < j < |clients| :: !Collide(clients[i], clients[j]))
    && (forall c | c in clients && Managed(c) :: exists s :: Owned(c, cidrs, s))
  }

  predicate OperatorHolds(clients: seq<Client>, cidr: string) {
    exists c :: c in clients && !Managed(c) && cidr in c.ids
  }

  lemma MatchIsOwn(c: Client, cidrs: map<Slug, string>, s: Slug, name: string)
    requires Directory(cidrs) && s in cidrs && NameOf(name, s)
    requires Managed(c) && exists t :: Owned(c, cidrs, t)
    ensures Matches(c, name, cidrs[s]) <==> c.ids == [cidrs[s]]
    ensures Matches(c, name, cidrs[s]) ==> Owned(c, cidrs, s)
  {
    var t :| Owned(c, cidrs, t);
    if c.name == name {
      NameDeterminesSlug(name, s, t);
    }
  }

  lemma {:induction false} FindManagedFirst(clients: seq<Client>, name: string, cidr: string)
    ensures match FindManaged(clients, name, cidr)
            case None => forall c | c in clients :: !Matches(c, name, cidr)
            case Some(n) => exists i :: 0 <= i < |clients| && clients[i].name == n && Matches(clients[i], name, cidr)
                                        && forall j | 0 <= j < i :: !Matches(clients[j], name, cidr)
  {
    if clients != [] {
      FindManagedFirst(clients[1..], name, cidr);
      if !Matches(clients[0], name, cidr) && FindManaged(clients[1..], name, cidr).Some? {
        var i :| 0 <= i < |clients[1..]| && clients[1..][i].name == FindManaged(clients[1..], name, cidr).value
                 && Matches(clients[1..][i], name, cidr)
                 && forall j | 0 <= j < i :: !Matches(clients[1..][j], name, cidr);
        assert clients[i + 1] == clients[1..][i];
        assert forall j | 1 <= j < i + 1 :: clients[j] == clients[1..][j - 1];
      }
    }
  }

  lemma {:induction false} IndexOfUnique(clients: seq<Client>, i: nat)
    requires i < |clients| && forall j | 0 <= j < i :: clients[j].name != clients[i].name
    ensures IndexOf(clients, clients[i].name) == Some(i)
  {
    if i > 0 {
      assert clients[1..][i - 1] == clients[i];
      IndexOfUnique(clients[1..], i - 1);
    }
  }

  lemma {:induction false} OperatorsUpdate(clients: seq<Client>, i: nat, data: Client)
    requires i < |clients| && Managed(clients[i]) && Managed(data)
    ensures Operators(clients[i := data]) == Operators(clients)
  {
    if i > 0 {
      OperatorsUpdate(clients[1..], i - 1, data);
      assert clients[i := data][1..] == clients[1..][i - 1 := data];
    } else {
      assert clients[0 := data][1..] == clients[1..];
    }
  }

  lemma {:induction false} OperatorsAdd(clients: seq<Client>, data: Client)
    requires Managed(data)
    ensures Operators(clients + [data]) == Operators(clients)
  {
    if clients != [] {
      OperatorsAdd(clients[1..], data);
      assert (clients + [data])[1..] == clients[1..] + [data];
    }
  }

  /** What a client list is after the payload of slug `s` has been applied to it. */
  ghost predicate Applied(before: seq<Client>, after: seq<Client>, cidrs: map<Slug, string>, s: Slug, payload: Client) {
    && ListInv(after, cidrs) && payload in after && Operators(after) == Operators(before)
    && (forall c | Managed(c) && c != payload && !Owned(c, cidrs, s) :: c in after <==> c in before)
    && (payload in before ==> after == before)
  }

  /** Applying the payload of a network is refused exactly when an operator's client holds its
      CIDR; otherwise it becomes the network's only managed client, and nothing else changes. */
  lemma ApplyEffect(clients: seq<Client>, cidrs: map<Slug, string>, s: Slug, payload: Client)
    requires Directory(cidrs) && ListInv(clients, cidrs) && Owned(payload, cidrs, s)
    ensures Apply(clients, payload) == None <==> OperatorHolds(clients, cidrs[s])
    ensures Apply(clients, payload).Some? ==> Applied(clients, Apply(clients, payload).value, cidrs, s, payload)
  {
    var cidr := cidrs[s];
    FindManagedFirst(clients, payload.name, cidr);
    match FindManaged(clients, payload.name, cidr) {
      case Some(n) =>
        var i :| 0 <= i < |clients| && clients[i].name == n && Matches(clients[i], payload.name, cidr);
        MatchIsOwn(clients[i], cidrs, s, payload.name);
        UpdateEffect(clients, cidrs, s, payload, i);
      case None =>
        AddEffect(clients, cidrs, s, payload);
    }
  }

  /** A managed client that stands for `s` shares its CIDR with no other client. */
  lemma OwnerStandsAlone(clients: seq<Client>, cidrs: map<Slug, string>, s: Slug, i: nat)
    requires Directory(cidrs) && ListInv(clients, cidrs) && i < |clients| && Owned(clients[i], cidrs, s)
    ensures forall j | 0 <= j < |clients| && j != i :: cidrs[s] !in clients[j].ids && clients[j].name != clients[i].name
    ensures Managed(clients[i]) ==> !OperatorHolds(clients, cidrs[s])
  {
    assert cidrs[s] in clients[i].ids;
    forall j | 0 <= j < |clients| && j != i ensures cidrs[s] !in clients[j].ids && clients[j].name != clients[i].name {
      assert !Collide(clients[if j < i then j else i], clients[if j < i then i else j]);
    }
  }

  lemma UpdateKeepsInv(clients: seq<Client>, cidrs: map<Slug, string>, s: Slug, payload: Client, i: nat)
    requires Directory(cidrs) && ListInv(clients, cidrs) && Owned(payload, cidrs, s)
    requires i < |clients| && Owned(clients[i], cidrs, s)
    requires forall j | 0 <= j < |clients| && j != i :: !Collide(clients[j], payload)
    ensures ListInv(clients[i := payload], cidrs)
  {
    var after := clients[i := payload];
    forall c | c in after && Managed(c) ensures exists t :: Owned(c, cidrs, t) {
      if c == payload { assert Owned(c, cidrs, s); }
    }
    forall a, b | 0 <= a < b < |after| ensures !Collide(after[a], after[b]) {
      assert !Collide(clients[a], clients[b]);
    }
  }

  lemma NoCollision(clients: seq<Client>, cidrs: map<Slug, string>, s: Slug, payload: Client, i: nat)
    requires Directory(cidrs) && ListInv(clients, cidrs) && Owned(payload, cidrs, s)
    requires i < |clients| && Owned(clients[i], cidrs, s)
    ensures forall j | 0 <= j < |clients| && j != i :: !Collide(clients[j], payload)
  {
    OwnerStandsAlone(clients, cidrs, s, i);
    forall j | 0 <= j < |clients| && j != i ensures !Collide(clients[j], payload) {
      if Managed(clients[j]) {
        MatchIsOwn(clients[j], cidrs, s, payload.name);
      }
    }
  }

  lemma UpdateEffect(clients: seq<Client>, cidrs: map<Slug, string>, s: Slug, payload: Client, i: nat)
    requires Directory(cidrs) && ListInv(clients, cidrs) && Owned(payload, cidrs, s)
    requires i < |clients| && Managed(clients[i]) && Owned(clients[i], cidrs, s)
    ensures Update(clients, clients[i].name, payload) == Some(clients[i := payload])
    ensures Applied(clients, clients[i := payload], cidrs, s, payload) && !OperatorHolds(clients, cidrs[s])
  {
    OwnerStandsAlone(clients, cidrs, s, i);
    IndexOfUnique(clients, i);
    NoCollision(clients, cidrs, s, payload, i);
    UpdateKeepsInv(clients, cidrs, s, payload, i);
    OperatorsUpdate(clients, i, payload);
    var after := clients[i := payload];
    assert payload == after[i];
    forall c | Managed(c) && c != payload && !Owned(c, cidrs, s) ensures c in after <==> c in clients {
      if c in clients {
        var j :| 0 <= j < |clients| && clients[j] == c;
        assert after[j] == c;
      }
    }
    if payload in clients {
      var j :| 0 <= j < |clients| && clients[j] == payload;
      assert cidrs[s] in payload.ids;
      assert after == clients;
    }
  }

  lemma AddKeeps(clients: seq<Client>, cidrs: map<Slug, string>, s: Slug, payload: Client)
    requires Directory(cidrs) && ListInv(clients, cidrs) && Owned(payload, cidrs, s)
    requires Add(clients, payload).Some?
    ensures Applied(clients, clients + [payload], cidrs, s, payload)
  {
    var after := clients + [payload];
    if payload in clients { assert Collide(payload, payload); }
    OperatorsAdd(clients, payload);
    forall c | c in after && Managed(c) ensures exists t :: Owned(c, cidrs, t) {
      if c == payload { assert Owned(c, cidrs, s); }
    }
    forall a, b | 0 <= a < b < |after| ensures !Collide(after[a], after[b]) {
      if b < |clients| { assert !Collide(clients[a], clients[b]); } else { assert clients[a] in clients; }
    }
  }

  lemma AddEffect(clients: seq<Client>, cidrs: map<Slug, string>, s: Slug, payload: Client)
    requires Directory(cidrs) && ListInv(clients, cidrs) && Owned(payload, cidrs, s)
    requires forall c | c in clients :: !Matches(c, payload.name, cidrs[s])
    ensures Add(clients, payload) == None <==> OperatorHolds(clients, cidrs[s])
    ensures Add(clients, payload).Some? ==> Applied(clients, clients + [payload], cidrs, s, payload)
  {
    forall c | c in clients ensures Collide(c, payload) <==> !Managed(c) && cidrs[s] in c.ids {
      assert c.name == payload.name ==> Managed(c);
      if cidrs[s] in c.ids { assert cidrs[s] in payload.ids; }
    }
    if Add(clients, payload).Some? { AddKeeps(clients, cidrs, s, payload); }
  }

  lemma {:induction false} IndexOfFinds(clients: seq<Client>, name: string)
    ensures match IndexOf(clients, name)
            case None => forall c | c in clients :: c.name != name
            case Some(i) => i < |clients| && clients[i].name == name
  {
    if clients != [] { IndexOfFinds(clients[1..], name); }
  }

  lemma PostedHolds(clients: seq<Client>, payload: Client, existing: Option<string>)
    ensures match Posted(clients, payload, existing)
            case None => true
            case Some(after) => payload in after
  {
    if existing.Some? && Update(clients, existing.value, payload).Some? {
      var i := IndexOf(clients, existing.value).value;
      assert clients[i := payload][i] == payload;
    }
  }

  /** Whatever has happened to the list since the look-up, a request that AdGuard accepts makes the
      payload the network's only managed client and changes nothing else. */
  lemma PostedEffect(clients: seq<Client>, cidrs: map<Slug, string>, s: Slug, payload: Client, existing: Option<string>)
    requires Directory(cidrs) && ListInv(clients, cidrs) && Owned(payload, cidrs, s)
    requires existing.Some? ==> NameOf(existing.value, s)
    ensures match Posted(clients, payload, existing)
            case None => true
            case Some(after) => Applied(clients, after, cidrs, s, payload)
  {
    if existing.Some? {
      IndexOfFinds(clients, existing.value);
      if IndexOf(clients, existing.value).Some? {
        var i := IndexOf(clients, existing.value).value;
        assert clients[i] in clients && Managed(clients[i]);
        var t :| Owned(clients[i], cidrs, t);
        NameDeterminesSlug(existing.value, s, t);
        UpdateEffect(clients, cidrs, s, payload, i);
      }
    } else if Add(clients, payload).Some? {
      AddKeeps(clients, cidrs, s, payload);
    }
  }

  lemma {:induction false} DeleteEffect(clients: seq<Client>, cidrs: map<Slug, string>, name: string)
    requires ListInv(clients, cidrs) && PREFIX <= name
    ensures var after := Delete(clients, name);
            && ListInv(after, cidrs) && Operators(after) == Operators(clients)
            && (forall c :: c in after <==> c in clients && c.name != name)
  {
    if clients != [] {
      var rest := clients[1..];
      assert ListInv(rest, cidrs) by {
        forall i, j | 0 <= i < j < |rest| ensures !Collide(rest[i], rest[j]) {
          assert rest[i] == clients[i + 1] && rest[j] == clients[j + 1];
        }
      }
      assert forall c | c in rest :: !Collide(clients[0], c) by {
        forall k | 0 <= k < |rest| ensures !Collide(clients[0], rest[k]) {
          assert rest[k] == clients[k + 1];
        }
      }
      if clients[0].name != name {
        DeleteEffect(rest, cidrs, name);
        var after := Delete(rest, name);
        var all := [clients[0]] + after;
        forall i, j | 0 <= i < j < |all| ensures !Collide(all[i], all[j]) {
          if i == 0 { assert after[j - 1] in rest; }
        }
      }
    }
  }
}
