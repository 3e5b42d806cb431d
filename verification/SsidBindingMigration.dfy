/**
 Moving the SSID-to-network binding from `wifi_ssids` to the profiles' SSID references, and back
 (backend/alembic/versions/a1d7f3b52e89_ssid_network_binding_to_profile.py). Payloads are JSON
 values, not their text.
 */
module SsidBindingMigration {
  import opened Common

  const SLUG := "slug"
  const NETWORK := "network_slug"
  const LAN := "lan"

  /** One entry of a profile's `ssids` list; entries that are not objects are skipped. */
  datatype Ref = Skipped | Object(fields: map<string, string>) {
    function Get(name: string): string { if Object? && name in fields then fields[name] else "" }
  }

  /** A payload that does not load, or whose `ssids` is not a list, has no refs to visit. */
  datatype Payload = Unread | Refs(refs: seq<Ref>)

  /** wifi_ssids with its `network_slug` column, or after the column is dropped. */
  datatype Table = Bound(nets: map<string, string>) | Bare(slugs: set<string>)

  function Or(s: string, default: string): string { if s == "" then default else s }

  /** `slug_to_net.get(slug, "lan")`. */
  function NetOf(table: Table, slug: string): string {
    if table.Bound? && slug in table.nets then Or(table.nets[slug], LAN) else LAN
  }

  function Bind(table: Table, ref: Ref): Ref {
    if ref.Object? && NETWORK !in ref.fields then Object(ref.fields[NETWORK := NetOf(table, ref.Get(SLUG))])
    else ref
  }

  function Unbind(ref: Ref): Ref { if ref.Object? then Object(ref.fields - {NETWORK}) else ref }

  function BindRefs(table: Table, p: Payload): Payload {
    if p.Refs? then Refs(seq(|p.refs|, i requires 0 <= i < |p.refs| => Bind(table, p.refs[i]))) else p
  }

  function UnbindRefs(p: Payload): Payload {
    if p.Refs? then Refs(seq(|p.refs|, i requires 0 <= i < |p.refs| => Unbind(p.refs[i]))) else p
  }

  function BindAll(table: Table, ps: seq<Payload>): seq<Payload> {
    seq(|ps|, i requires 0 <= i < |ps| => BindRefs(table, ps[i]))
  }

  function UnbindAll(ps: seq<Payload>): seq<Payload> {
    seq(|ps|, i requires 0 <= i < |ps| => UnbindRefs(ps[i]))
  }

  function AllRefs(ps: seq<Payload>): seq<Ref> {
    if ps == [] then []
    else AllRefs(ps[..|ps| - 1]) + if ps[|ps| - 1].Refs? then ps[|ps| - 1].refs else []
  }

  predicate BindsSlug(ref: Ref, slug: string) {
    slug != "" && ref.Get(SLUG) == slug && ref.Get(NETWORK) != ""
  }

  /** The binding of the first reference that mentions `slug`. */
  function FirstBinding(refs: seq<Ref>, slug: string): Option<string> {
    if refs == [] then None
    else match FirstBinding(refs[..|refs| - 1], slug)
      case Some(net) => Some(net)
      case None => if BindsSlug(refs[|refs| - 1], slug) then Some(refs[|refs| - 1].Get(NETWORK)) else None
  }

  datatype Db = Db(table: Table, profiles: seq<Payload>)

  function SlugsOf(table: Table): set<string> { if table.Bound? then table.nets.Keys else table.slugs }

  function Upgraded(db: Db): Db {
    Db(Bare(SlugsOf(db.table)), BindAll(db.table, db.profiles))
  }

  function Downgraded(db: Db): Db {
    Db(Bound(RestoredNets(SlugsOf(db.table), AllRefs(db.profiles))), UnbindAll(db.profiles))
  }

  function RestoredNets(slugs: set<string>, refs: seq<Ref>): map<string, string> {
    map s | s in slugs :: match FirstBinding(refs, s) case Some(net) => net case None => LAN
  }

  // ---------------------------- the round trip ---------------------------- //

  predicate Mentions(ref: Ref, slug: string) { slug != "" && ref.Object? && ref.Get(SLUG) == slug }

  predicate Referenced(db: Db, slug: string) {
    exists i :: 0 <= i < |AllRefs(db.profiles)| && Mentions(AllRefs(db.profiles)[i], slug)
  }

  /** No reference carries a binding yet, and every SSID has one that the migration can carry. */
  predicate Portable(db: Db)
    requires db.table.Bound?
  {
    && (forall r | r in AllRefs(db.profiles) :: r.Object? ==> NETWORK !in r.fields)
    && (forall s | s in db.table.nets ::
          db.table.nets[s] != "" && (db.table.nets[s] == LAN || Referenced(db, s)))
  }

  lemma {:induction false} RefsOfBound(table: Table, ps: seq<Payload>)
    ensures |AllRefs(BindAll(table, ps))| == |AllRefs(ps)|
    ensures forall i | 0 <= i < |AllRefs(ps)| :: AllRefs(BindAll(table, ps))[i] == Bind(table, AllRefs(ps)[i])
  {
    if ps != [] {
      RefsOfBound(table, ps[..|ps| - 1]);
      assert BindAll(table, ps)[..|ps| - 1] == BindAll(table, ps[..|ps| - 1]);
    }
  }

  /** The payloads come back exactly when no reference carried a binding. */
  lemma {:induction false} PayloadsBackIff(table: Table, ps: seq<Payload>)
    ensures UnbindAll(BindAll(table, ps)) == ps <==> forall r | r in AllRefs(ps) :: r.Object? ==> NETWORK !in r.fields
  {
    var back := UnbindAll(BindAll(table, ps));
    if ps != [] {
      var n := |ps| - 1;
      PayloadsBackIff(table, ps[..n]);
      assert back[..n] == UnbindAll(BindAll(table, ps[..n]));
      assert back == back[..n] + [back[n]] && ps == ps[..n] + [ps[n]];
      assert back == ps <==> back[..n] == ps[..n] && back[n] == ps[n];
      PayloadBackIff(table, ps[n]);
      assert back[n] == UnbindRefs(BindRefs(table, ps[n]));
    } else {
      assert back == [];
    }
  }

  lemma PayloadBackIff(table: Table, p: Payload)
    ensures UnbindRefs(BindRefs(table, p)) == p <==>
            (p.Refs? ==> forall r | r in p.refs :: r.Object? ==> NETWORK !in r.fields)
  {
    if p.Refs? {
      var back := UnbindRefs(BindRefs(table, p)).refs;
      forall i | 0 <= i < |p.refs|
        ensures back[i] == p.refs[i] <==> (p.refs[i].Object? ==> NETWORK !in p.refs[i].fields)
      {
        UnbindBind(table, p.refs[i]);
      }
      assert back == p.refs <==> forall i | 0 <= i < |p.refs| :: back[i] == p.refs[i];
    }
  }

  /** After the upgrade a slug's first binding is its own network, if anything mentions it. */
  lemma {:induction false} FirstBindingOfUpgraded(table: Table, refs: seq<Ref>, slug: string)
    requires forall r | r in refs :: r.Object? && Mentions(r, slug) ==> r.Get(NETWORK) == NetOf(table, slug)
    ensures FirstBinding(refs, slug) ==
            if exists i :: 0 <= i < |refs| && Mentions(refs[i], slug) then Some(NetOf(table, slug)) else None
  {
    if refs != [] {
      var n := |refs| - 1;
      var front := refs[..n];
      FirstBindingOfUpgraded(table, front, slug);
      assert refs[n] in refs && forall i | 0 <= i < n :: front[i] == refs[i];
      if i :| 0 <= i < n && Mentions(front[i], slug) {
        assert Mentions(refs[i], slug);
      } else {
        assert forall i | 0 <= i < n :: !Mentions(refs[i], slug);
      }
    }
  }

  lemma BackToTheTable(db: Db, slug: string)
    requires db.table.Bound? && slug in db.table.nets
    requires forall r | r in AllRefs(db.profiles) :: r.Object? ==> NETWORK !in r.fields
    ensures Downgraded(Upgraded(db)).table.nets[slug] ==
            if Referenced(db, slug) then Or(db.table.nets[slug], LAN) else LAN
  {
    var refs := AllRefs(db.profiles);
    var bound := AllRefs(Upgraded(db).profiles);
    RefsOfBound(db.table, db.profiles);
    assert forall i | 0 <= i < |refs| ::
        bound[i] == Bind(db.table, refs[i]) && Mentions(bound[i], slug) == Mentions(refs[i], slug);
    FirstBindingOfUpgraded(db.table, bound, slug);
    if Referenced(db, slug) {
      var i :| 0 <= i < |refs| && Mentions(refs[i], slug);
      assert Mentions(bound[i], slug);
    }
  }

  /** Downgrade after upgrade restores everything exactly for the portable databases. */
  lemma RoundTripIff(db: Db)
    requires db.table.Bound?
    ensures Downgraded(Upgraded(db)) == db <==> Portable(db)
  {
    var back := Downgraded(Upgraded(db));
    var refs := AllRefs(db.profiles);
    PayloadsBackIff(db.table, db.profiles);
    if forall r | r in refs :: r.Object? ==> NETWORK !in r.fields {
      forall s | s in db.table.nets
        ensures back.table.nets[s] == db.table.nets[s] <==>
                (db.table.nets[s] != "" && (db.table.nets[s] == LAN || Referenced(db, s)))
      {
        BackToTheTable(db, s);
      }
      assert back.table.nets == db.table.nets
          <==> forall s | s in db.table.nets :: back.table.nets[s] == db.table.nets[s];
    }
  }

  lemma UnbindBind(table: Table, ref: Ref)
    ensures Unbind(Bind(table, ref)) == ref <==> (ref.Object? ==> NETWORK !in ref.fields)
  {
    if ref.Object? {
      assert (ref.fields[NETWORK := NetOf(table, ref.Get(SLUG))]) - {NETWORK} == ref.fields - {NETWORK};
      if NETWORK !in ref.fields {
        assert ref.fields - {NETWORK} == ref.fields;
      }
    }
  }

  // ---------------------------- each reference and each SSID ---------------------------- //

  /** A reference without a binding gets its SSID's own network, or "lan" when the table has no network
      for it; every other reference, and everything else in it, stays. */
  predicate BoundFrom(nets: map<string, string>, before: Ref, after: Ref) {
    if before.Skipped? || "network_slug" in before.fields then after == before
    else
      && after.Object? && after.fields.Keys == before.fields.Keys + {"network_slug"}
      && (forall f | f in before.fields :: after.fields[f] == before.fields[f])
      && var slug := if "slug" in before.fields then before.fields["slug"] else "";
         after.fields["network_slug"] == if slug in nets && nets[slug] != "" then nets[slug] else "lan"
  }

  /** A reference loses its binding and nothing else. */
  predicate Stripped(before: Ref, after: Ref) {
    if before.Skipped? then after == before
    else
      && after.Object? && after.fields.Keys == before.fields.Keys - {"network_slug"}
      && forall f | f in after.fields :: after.fields[f] == before.fields[f]
  }

  /** Payloads with the same references, one for one, where there are any to visit. */
  predicate SameShape(before: seq<Payload>, after: seq<Payload>) {
    |after| == |before|
    && forall k | 0 <= k < |after| ::
         if before[k].Unread? then after[k] == before[k]
         else after[k].Refs? && |after[k].refs| == |before[k].refs|
  }

  predicate EachBound(nets: map<string, string>, before: seq<Payload>, after: seq<Payload>) {
    && SameShape(before, after)
    && forall k, j | 0 <= k < |after| && after[k].Refs? && before[k].Refs? && 0 <= j < |after[k].refs| ::
         BoundFrom(nets, before[k].refs[j], after[k].refs[j])
  }

  predicate EachStripped(before: seq<Payload>, after: seq<Payload>) {
    && SameShape(before, after)
    && forall k, j | 0 <= k < |after| && after[k].Refs? && before[k].Refs? && 0 <= j < |after[k].refs| ::
         Stripped(before[k].refs[j], after[k].refs[j])
  }

  /** The reference gives SSID `slug` a network. */
  predicate Gives(ref: Ref, slug: string) {
    ref.Object? && slug != "" && "slug" in ref.fields && ref.fields["slug"] == slug
    && "network_slug" in ref.fields && ref.fields["network_slug"] != ""
  }

  /** The network of an SSID is that of the first reference, over all profiles in order, that gives it
      one, and "lan" without such a reference. */
  ghost predicate FirstGiven(refs: seq<Ref>, slug: string, net: string) {
    if exists i :: 0 <= i < |refs| && Gives(refs[i], slug)
    then exists i :: 0 <= i < |refs| && Gives(refs[i], slug) && net == refs[i].fields["network_slug"]
                     && forall j | 0 <= j < i :: !Gives(refs[j], slug)
    else net == "lan"
  }

  lemma {:induction false} FirstBindingIsFirst(refs: seq<Ref>, slug: string)
    ensures FirstGiven(refs, slug, match FirstBinding(refs, slug) case Some(net) => net case None => "lan")
    ensures FirstBinding(refs, slug).Some? <==> exists i :: 0 <= i < |refs| && Gives(refs[i], slug)
  {
    if refs != [] {
      var n := |refs| - 1;
      var front := refs[..n];
      FirstBindingIsFirst(front, slug);
      assert forall i | 0 <= i < n :: front[i] == refs[i];
      assert BindsSlug(refs[n], slug) <==> Gives(refs[n], slug);
      if i :| 0 <= i < n && Gives(front[i], slug) && FirstBinding(front, slug).Some?
              && FirstBinding(front, slug).value == front[i].fields["network_slug"]
              && forall j | 0 <= j < i :: !Gives(front[j], slug) {
        assert Gives(refs[i], slug) && forall j | 0 <= j < i :: !Gives(refs[j], slug);
      } else {
        assert forall i | 0 <= i < n :: !Gives(refs[i], slug) by {
          forall i | 0 <= i < n ensures !Gives(refs[i], slug) { assert refs[i] == front[i]; }
        }
      }
    }
  }

  lemma UpgradeBindsEach(db: Db)
    ensures EachBound(if db.table.Bound? then db.table.nets else map[], db.profiles, Upgraded(db).profiles)
  {
  }

  lemma DowngradeStripsEach(db: Db)
    ensures EachStripped(db.profiles, Downgraded(db).profiles)
    ensures var nets := Downgraded(db).table.nets;
            nets.Keys == SlugsOf(db.table) && forall s | s in nets :: FirstGiven(AllRefs(db.profiles), s, nets[s])
  {
    forall s | s in SlugsOf(db.table) ensures FirstGiven(AllRefs(db.profiles), s, Downgraded(db).table.nets[s]) {
      FirstBindingIsFirst(AllRefs(db.profiles), s);
    }
  }

  // ---------------------------- the migration ---------------------------- //

  class Database {
    var table: Table
    var profiles: seq<Payload>

    function State(): Db
      reads this
    {
      Db(table, profiles)
    }

    method Upgrade()
      modifies this
      ensures State() == Upgraded(old(State()))
      ensures EachBound(if old(table).Bound? then old(table).nets else map[], old(profiles), profiles)
    {
      ghost var start := State();
      var slugToNet: map<string, string> := map[];
      if table.Bound? {
        slugToNet := map s | s in table.nets :: Or(table.nets[s], LAN);
      }
      for i := 0 to |profiles|
        invariant table == old(table) && |profiles| == |old(profiles)|
        invariant forall k | 0 <= k < |profiles| ::
                    profiles[k] == if k < i then BindRefs(old(table), old(profiles)[k]) else old(profiles)[k]
      {
        match profiles[i]
        case Unread =>
        case Refs(was) =>
          var refs := was;
          var changed := false;
          for j := 0 to |refs|
            invariant |refs| == |was| && (!changed ==> refs == was)
            invariant forall k | 0 <= k < |refs| :: refs[k] == if k < j then Bind(old(table), was[k]) else was[k]
          {
            match refs[j]
            case Skipped =>
            case Object(fields) =>
              if NETWORK !in fields {
                var slug := if SLUG in fields then fields[SLUG] else "";
                refs := refs[j := Object(fields[NETWORK := if slug in slugToNet then slugToNet[slug] else LAN])];
                changed := true;
              }
          }
          assert refs == BindRefs(old(table), Refs(was)).refs;
          if changed {
            profiles := profiles[i := Refs(refs)];
          }
      }
      table := Bare(SlugsOf(table));
      UpgradeBindsEach(start);
    }

    method Downgrade()
      modifies this
      ensures State() == Downgraded(old(State()))
      ensures EachStripped(old(profiles), profiles)
      ensures table.nets.Keys == SlugsOf(old(table))
      ensures forall s | s in table.nets :: FirstGiven(AllRefs(old(profiles)), s, table.nets[s])
    {
      ghost var start := State();
      var slugs := SlugsOf(table);
      var restored: map<string, string> := map[];
      ghost var before := profiles;
      for i := 0 to |profiles|
        invariant table == old(table) && StrippedUpTo(profiles, before, i)
        invariant Collected(restored, AllRefs(before[..i]))
      {
        AllRefsNext(before, i);
        match profiles[i]
        case Unread =>
        case Refs(refs) =>
          var stripped;
          stripped, restored := StripRefs(refs, restored, AllRefs(before[..i]));
          if stripped != refs {
            profiles := profiles[i := Refs(stripped)];
          }
      }
      assert before[..|profiles|] == before;
      assert profiles == UnbindAll(before);
      var nets := map s | s in slugs :: if s in restored then restored[s] else LAN;
      RestoredTable(restored, AllRefs(before), slugs, nets);
      table := Bound(nets);
      DowngradeStripsEach(start);
    }
  }

  lemma AllRefsNext(ps: seq<Payload>, i: nat)
    requires i < |ps|
    ensures AllRefs(ps[..i + 1]) == match ps[i]
            case Unread => AllRefs(ps[..i])
            case Refs(refs) => AllRefs(ps[..i]) + refs
  {
    assert ps[..i + 1][..i] == ps[..i];
  }

  lemma RestoredTable(restored: map<string, string>, seen: seq<Ref>, slugs: set<string>, nets: map<string, string>)
    requires Collected(restored, seen)
    requires nets.Keys == slugs && forall s | s in slugs :: nets[s] == if s in restored then restored[s] else LAN
    ensures nets == RestoredNets(slugs, seen)
  {
  }

  predicate StrippedUpTo(profiles: seq<Payload>, before: seq<Payload>, n: nat) {
    |profiles| == |before| && forall k | 0 <= k < |profiles| ::
      profiles[k] == if k < n then UnbindRefs(before[k]) else before[k]
  }

  /** `restored` maps every slug bound by some reference of `seen` to its first binding. */
  ghost predicate Collected(restored: map<string, string>, seen: seq<Ref>) {
    forall s :: FirstBinding(seen, s) == if s in restored then Some(restored[s]) else None
  }

  lemma CollectedMore(restored: map<string, string>, seen: seq<Ref>, ref: Ref)
    requires Collected(restored, seen)
    ensures var slug := ref.Get(SLUG);
            Collected(if BindsSlug(ref, slug) && slug !in restored
                      then restored[slug := ref.Get(NETWORK)] else restored,
                      seen + [ref])
  {
    assert (seen + [ref])[..|seen|] == seen;
  }

  /** The inner loop of downgrade(). */
  method StripRefs(was: seq<Ref>, collected: map<string, string>, ghost seen: seq<Ref>)
    returns (refs: seq<Ref>, restored: map<string, string>)
    requires Collected(collected, seen)
    ensures refs == UnbindRefs(Refs(was)).refs && Collected(restored, seen + was)
  {
    refs, restored := was, collected;
    assert seen + was[..0] == seen;
    for j := 0 to |refs|
      invariant |refs| == |was| && Collected(restored, seen + was[..j])
      invariant forall k | 0 <= k < |refs| :: refs[k] == if k < j then Unbind(was[k]) else was[k]
    {
      assert seen + was[..j + 1] == seen + was[..j] + [was[j]];
      CollectedMore(restored, seen + was[..j], was[j]);
      match refs[j]
      case Skipped =>
      case Object(fields) =>
        var slug := if SLUG in fields then fields[SLUG] else "";
        if slug != "" && slug !in restored && NETWORK in fields && fields[NETWORK] != "" {
          restored := restored[slug := fields[NETWORK]];
        }
        refs := refs[j := Object(fields - {NETWORK})];
    }
    assert seen + was[..|was|] == seen + was;
  }
}
