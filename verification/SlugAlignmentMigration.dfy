/**
 The slug alignment migration (backend/alembic/versions/281b831b96da_cyberpunk_slug_alignment.py):
 networks and SSIDs are renamed, one SSID moves to a new network, and the references to both follow.
 Rows are kept in table order; only the columns the migration reads or writes are modelled.
 */
module SlugAlignmentMigration {
  import opened Common

  datatype Ssid = Ssid(slug: string, network: string)

  type Renames = seq<(string, string)>  // (old, new), in dictionary order

  const SHADOWRUN := "shadowrun"

  const NETWORK_RENAME: Renames := [
    ("lan", "neuralcore"), ("kids", "grid"), ("work", "blackice"), ("dmz", "chromelounge")
  ]

  const SSID_RENAME: Renames := [
    ("lan-main", "neuralcore"), ("kids-tablet", "grid"), ("work-mission", "blackice"),
    ("dmz-guest", "chromelounge"), ("dmz-osint", "shadowrun")
  ]

  /** Old names are distinct, new names are distinct, and no new name is an old one. */
  predicate Proper(rs: Renames) { DistinctOld(rs) && DistinctNew(rs) && OldIsNotNew(rs) }

  predicate DistinctOld(rs: Renames) { forall i, j | 0 <= i < j < |rs| :: rs[i].0 != rs[j].0 }

  predicate DistinctNew(rs: Renames) { forall i, j | 0 <= i < j < |rs| :: rs[i].1 != rs[j].1 }

  predicate OldIsNotNew(rs: Renames) { forall i, j | 0 <= i < |rs| && 0 <= j < |rs| :: rs[i].0 != rs[j].1 }

  lemma NetworkRenameIsProper()
    ensures Proper(NETWORK_RENAME)
    ensures forall r | r in NETWORK_RENAME :: SHADOWRUN != r.0 && SHADOWRUN != r.1
  {
    NetworkNamesAreDistinct();
    NetworkOldIsNotNew();
  }

  lemma NetworkNamesAreDistinct()
    ensures DistinctOld(NETWORK_RENAME) && DistinctNew(NETWORK_RENAME)
  {
  }

  lemma NetworkOldIsNotNew()
    ensures OldIsNotNew(NETWORK_RENAME)
  {
  }

  lemma SsidRenameIsProper()
    ensures Proper(SSID_RENAME)
  {
    SsidNamesAreDistinct();
    SsidOldIsNotNew();
  }

  lemma SsidNamesAreDistinct()
    ensures DistinctOld(SSID_RENAME) && DistinctNew(SSID_RENAME)
  {
  }

  lemma SsidOldIsNotNew()
    ensures OldIsNotNew(SSID_RENAME)
  {
  }

  /** What a name becomes under all renames of the list at once. */
  function Rename(rs: Renames, x: string): string {
    if rs == [] then x
    else if rs[|rs| - 1].0 == x then rs[|rs| - 1].1
    else Rename(rs[..|rs| - 1], x)
  }

  /** The renames that the table loops do not skip. */
  function Admitted(rs: Renames, existing: seq<string>): Renames {
    if rs == [] then []
    else
      var r := rs[|rs| - 1];
      Admitted(rs[..|rs| - 1], existing) + if r.0 in existing && r.1 !in existing then [r] else []
  }

  lemma {:induction false} RenameCases(rs: Renames, x: string)
    ensures Rename(rs, x) == x || exists i :: 0 <= i < |rs| && rs[i].0 == x && Rename(rs, x) == rs[i].1
    ensures (forall i | 0 <= i < |rs| :: rs[i].0 != x) ==> Rename(rs, x) == x
  {
    if rs != [] && rs[|rs| - 1].0 != x {
      RenameCases(rs[..|rs| - 1], x);
    }
  }

  lemma {:induction false} RenameOf(rs: Renames, i: nat)
    requires Proper(rs) && i < |rs|
    ensures Rename(rs, rs[i].0) == rs[i].1
  {
    if i < |rs| - 1 {
      RenameOf(rs[..|rs| - 1], i);
    }
  }

  /** One more statement of a proper list takes the table one rename further. */
  lemma RenameNext(rs: Renames, i: nat, x: string)
    requires Proper(rs) && i < |rs|
    ensures (if Rename(rs[..i], x) == rs[i].0 then rs[i].1 else Rename(rs[..i], x)) == Rename(rs[..i + 1], x)
  {
    RenameCases(rs[..i], x);
    assert rs[..i + 1][..i] == rs[..i];
  }

  lemma {:induction false} AdmittedMembers(rs: Renames, existing: seq<string>)
    ensures forall r :: r in Admitted(rs, existing) <==> r in rs && r.0 in existing && r.1 !in existing
  {
    if rs != [] {
      AdmittedMembers(rs[..|rs| - 1], existing);
      assert rs == rs[..|rs| - 1] + [rs[|rs| - 1]];
    }
  }

  lemma {:induction false} AdmittedIsProper(rs: Renames, existing: seq<string>)
    requires Proper(rs)
    ensures Proper(Admitted(rs, existing))
  {
    if rs != [] {
      var n := |rs| - 1;
      var front := Admitted(rs[..n], existing);
      AdmittedIsProper(rs[..n], existing);
      AdmittedMembers(rs[..n], existing);
      LastIsApart(rs);
      if rs[n].0 in existing && rs[n].1 !in existing {
        ProperAppend(front, rs[n]);
        assert Admitted(rs, existing) == front + [rs[n]];
      } else {
        assert Admitted(rs, existing) == front;
      }
    }
  }

  predicate Apart(q: (string, string), r: (string, string)) {
    q.0 != r.0 && q.1 != r.1 && q.0 != r.1 && q.1 != r.0
  }

  lemma LastIsApart(rs: Renames)
    requires Proper(rs) && rs != []
    ensures var r := rs[|rs| - 1]; r.0 != r.1 && forall q | q in rs[..|rs| - 1] :: Apart(q, r)
  {
  }

  lemma ProperAppend(rs: Renames, r: (string, string))
    requires Proper(rs) && r.0 != r.1 && forall q | q in rs :: Apart(q, r)
    ensures Proper(rs + [r])
  {
    forall i | 0 <= i < |rs| ensures Apart(rs[i], r) {
    }
  }

  /** Where a name ends up in a table: it moves exactly when its new name was free. */
  lemma AdmittedRename(rs: Renames, existing: seq<string>, x: string)
    requires Proper(rs) && x in existing
    ensures Rename(Admitted(rs, existing), x) == if Rename(rs, x) in existing then x else Rename(rs, x)
  {
    var admitted := Admitted(rs, existing);
    AdmittedIsProper(rs, existing);
    AdmittedMembers(rs, existing);
    RenameCases(rs, x);
    RenameCases(admitted, x);
    if Rename(rs, x) !in existing {
      var i :| 0 <= i < |rs| && rs[i].0 == x && Rename(rs, x) == rs[i].1;
      assert rs[i] in admitted;
      var j :| 0 <= j < |admitted| && admitted[j] == rs[i];
      RenameOf(admitted, j);
    } else if Rename(admitted, x) != x {
      var j :| 0 <= j < |admitted| && admitted[j].0 == x && Rename(admitted, x) == admitted[j].1;
      var k :| 0 <= k < |rs| && rs[k] == admitted[j];
      RenameOf(rs, k);
    }
  }

  /** Renaming distinct names, none of them to a name already there, leaves them distinct. */
  lemma AdmittedRenameInjective(rs: Renames, existing: seq<string>, x: string, y: string)
    requires Proper(rs) && x != y
    requires x in existing || forall r | r in rs :: x != r.0 && x != r.1
    requires y in existing || forall r | r in rs :: y != r.0 && y != r.1
    ensures Rename(Admitted(rs, existing), x) != Rename(Admitted(rs, existing), y)
  {
    var admitted := Admitted(rs, existing);
    AdmittedIsProper(rs, existing);
    AdmittedMembers(rs, existing);
    RenameCases(admitted, x);
    RenameCases(admitted, y);
    if Rename(admitted, x) != x {
      var i :| 0 <= i < |admitted| && admitted[i].0 == x && Rename(admitted, x) == admitted[i].1;
      assert admitted[i] in admitted;
    }
    if Rename(admitted, y) != y {
      var j :| 0 <= j < |admitted| && admitted[j].0 == y && Rename(admitted, y) == admitted[j].1;
      assert admitted[j] in admitted;
    }
  }

  // ---------------------------- the six steps ---------------------------- //

  type Entry = Option<string>  // the slug of one entry of a profile's `ssids`, if it has one

  datatype Db = Db(networks: seq<string>, ssids: seq<Ssid>, profiles: seq<seq<Entry>>)

  function SlugsOf(ssids: seq<Ssid>): seq<string> {
    seq(|ssids|, i requires 0 <= i < |ssids| => ssids[i].slug)
  }

  function RenameAll(rs: Renames, names: seq<string>): seq<string> {
    seq(|names|, i requires 0 <= i < |names| => Rename(rs, names[i]))
  }

  function WithShadowrun(networks: seq<string>): seq<string> {
    if SHADOWRUN in networks then networks else networks + [SHADOWRUN]
  }

  /** Steps 2 and 3 for one SSID row. */
  function NewNetwork(s: Ssid): string {
    Rename(NETWORK_RENAME, if s.slug == "dmz-osint" && s.network == "dmz" then SHADOWRUN else s.network)
  }

  function NewEntry(e: Entry): Entry { if e.Some? then Some(Rename(SSID_RENAME, e.value)) else None }

  function NewProfile(entries: seq<Entry>): seq<Entry> {
    seq(|entries|, i requires 0 <= i < |entries| => NewEntry(entries[i]))
  }

  function Upgraded(db: Db): Db {
    Db(RenameAll(Admitted(NETWORK_RENAME, db.networks), WithShadowrun(db.networks)),
       seq(|db.ssids|, i requires 0 <= i < |db.ssids| =>
             Ssid(Rename(Admitted(SSID_RENAME, SlugsOf(db.ssids)), db.ssids[i].slug), NewNetwork(db.ssids[i]))),
       seq(|db.profiles|, i requires 0 <= i < |db.profiles| => NewProfile(db.profiles[i])))
  }

  predicate Valid(db: Db) { NoDup(db.networks) && NoDup(SlugsOf(db.ssids)) }

  lemma SlugsStayUnique(db: Db)
    requires Valid(db)
    ensures Valid(Upgraded(db))
  {
    NetworkRenameIsProper();
    SsidRenameIsProper();
    var nets := WithShadowrun(db.networks);
    forall i, j | 0 <= i < j < |nets|
      ensures Rename(Admitted(NETWORK_RENAME, db.networks), nets[i])
              != Rename(Admitted(NETWORK_RENAME, db.networks), nets[j])
    {
      AdmittedRenameInjective(NETWORK_RENAME, db.networks, nets[i], nets[j]);
    }
    var slugs := SlugsOf(db.ssids);
    assert SlugsOf(Upgraded(db).ssids) == RenameAll(Admitted(SSID_RENAME, slugs), slugs);
    forall i, j | 0 <= i < j < |slugs|
      ensures Rename(Admitted(SSID_RENAME, slugs), slugs[i]) != Rename(Admitted(SSID_RENAME, slugs), slugs[j])
    {
      AdmittedRenameInjective(SSID_RENAME, slugs, slugs[i], slugs[j]);
    }
  }

  /** A rename carries a reference to a name that exists afterwards. */
  lemma ReferenceFollows(rs: Renames, names: seq<string>, extra: seq<string>, x: string)
    requires Proper(rs) && x in names
    ensures Rename(rs, x) in RenameAll(Admitted(rs, names), names + extra)
  {
    AdmittedRename(rs, names, x);
    var after := RenameAll(Admitted(rs, names), names + extra);
    if Rename(rs, x) !in names {
      var i :| 0 <= i < |names| && names[i] == x;
      assert after[i] == Rename(rs, x);
    } else {
      var i :| 0 <= i < |names| && names[i] == Rename(rs, x);
      NewNameStays(rs, names, x);
      assert after[i] == names[i];
    }
  }

  lemma NewNameStays(rs: Renames, names: seq<string>, x: string)
    requires Proper(rs) && Rename(rs, x) in names && x in names
    ensures Rename(Admitted(rs, names), Rename(rs, x)) == Rename(rs, x)
  {
    RenameCases(rs, x);
    if Rename(rs, x) != x {
      RenameCases(rs, Rename(rs, x));
      AdmittedRename(rs, names, Rename(rs, x));
    } else {
      AdmittedRename(rs, names, x);
    }
  }

  /** Every reference that resolved before still resolves: SSID to network, profile to SSID. */
  lemma ReferencesStayWhole(db: Db)
    ensures forall i | 0 <= i < |db.ssids| && db.ssids[i].network in db.networks ::
              Upgraded(db).ssids[i].network in Upgraded(db).networks
    ensures forall i, j | 0 <= i < |db.profiles| && 0 <= j < |db.profiles[i]|
                          && db.profiles[i][j].Some? && db.profiles[i][j].value in SlugsOf(db.ssids) ::
              Upgraded(db).profiles[i][j].Some? && Upgraded(db).profiles[i][j].value in SlugsOf(Upgraded(db).ssids)
  {
    NetworkRenameIsProper();
    SsidRenameIsProper();
    var nets, slugs := db.networks, SlugsOf(db.ssids);
    var extra := if SHADOWRUN in nets then [] else [SHADOWRUN];
    assert WithShadowrun(nets) == nets + extra;
    forall i | 0 <= i < |db.ssids| && db.ssids[i].network in nets
      ensures Upgraded(db).ssids[i].network in Upgraded(db).networks
    {
      if db.ssids[i].slug == "dmz-osint" && db.ssids[i].network == "dmz" {
        ShadowrunStays(nets);
      } else {
        ReferenceFollows(NETWORK_RENAME, nets, extra, db.ssids[i].network);
      }
    }
    assert SlugsOf(Upgraded(db).ssids) == RenameAll(Admitted(SSID_RENAME, slugs), slugs);
    forall i, j | 0 <= i < |db.profiles| && 0 <= j < |db.profiles[i]|
                  && db.profiles[i][j].Some? && db.profiles[i][j].value in slugs
      ensures Upgraded(db).profiles[i][j].Some? && Upgraded(db).profiles[i][j].value in SlugsOf(Upgraded(db).ssids)
    {
      ReferenceFollows(SSID_RENAME, slugs, [], db.profiles[i][j].value);
      assert slugs + [] == slugs;
    }
  }

  lemma ShadowrunStays(nets: seq<string>)
    ensures Rename(NETWORK_RENAME, SHADOWRUN) == SHADOWRUN
    ensures SHADOWRUN in RenameAll(Admitted(NETWORK_RENAME, nets), WithShadowrun(nets))
  {
    NetworkRenameIsProper();
    RenameCases(NETWORK_RENAME, SHADOWRUN);
    AdmittedMembers(NETWORK_RENAME, nets);
    RenameCases(Admitted(NETWORK_RENAME, nets), SHADOWRUN);
    var i :| 0 <= i < |WithShadowrun(nets)| && WithShadowrun(nets)[i] == SHADOWRUN;
    assert RenameAll(Admitted(NETWORK_RENAME, nets), WithShadowrun(nets))[i] == SHADOWRUN;
  }

  /** An SSID other than the one that moves still points at the same network row, exactly unless
      its network was to be renamed to a name that another row already had. */
  lemma SameNetworkRowIff(db: Db, i: nat, j: nat)
    requires Valid(db) && i < |db.ssids| && j < |db.networks| && db.ssids[i].network == db.networks[j]
    requires !(db.ssids[i].slug == "dmz-osint" && db.ssids[i].network == "dmz")
    ensures Upgraded(db).ssids[i].network == Upgraded(db).networks[j] <==>
            Rename(NETWORK_RENAME, db.networks[j]) == db.networks[j]
            || Rename(NETWORK_RENAME, db.networks[j]) !in db.networks
  {
    NetworkRenameIsProper();
    AdmittedRename(NETWORK_RENAME, db.networks, db.networks[j]);
  }

  /** A profile entry still names the same SSID row, exactly unless its SSID was to be renamed to a slug
      that another row already had; then it names that row. */
  lemma SameSsidRowIff(db: Db, p: nat, e: nat, j: nat)
    requires Valid(db) && p < |db.profiles| && e < |db.profiles[p]| && j < |db.ssids|
    requires db.profiles[p][e] == Some(db.ssids[j].slug)
    ensures var after := Upgraded(db);
            && (after.profiles[p][e] == Some(after.ssids[j].slug) <==>
                  Rename(SSID_RENAME, db.ssids[j].slug) == db.ssids[j].slug
                  || Rename(SSID_RENAME, db.ssids[j].slug) !in SlugsOf(db.ssids))
            && (forall m | 0 <= m < |db.ssids| && db.ssids[m].slug == Rename(SSID_RENAME, db.ssids[j].slug) ::
                  after.profiles[p][e] == Some(after.ssids[m].slug))
  {
    SsidRenameIsProper();
    var slugs, slug := SlugsOf(db.ssids), db.ssids[j].slug;
    assert slugs[j] == slug;
    AdmittedRename(SSID_RENAME, slugs, slug);
    forall m | 0 <= m < |db.ssids| && db.ssids[m].slug == Rename(SSID_RENAME, slug)
      ensures Rename(Admitted(SSID_RENAME, slugs), db.ssids[m].slug) == Rename(SSID_RENAME, slug)
    {
      assert slugs[m] == Rename(SSID_RENAME, slug);
      NewNameStays(SSID_RENAME, slugs, slug);
    }
  }

  /** Both exceptions can arise: with an old and a new name side by side, the SSID ends on the other
      network row and the profile entry on the other SSID row. */
  lemma TakenNamesMoveReferences() returns (db: Db)
    ensures |db.networks| == 2 && |db.ssids| == 2 && |db.profiles| == 1 && |db.profiles[0]| == 1
    ensures |WithShadowrun(db.networks)| >= 2
    ensures Valid(db) && db.ssids[0].network == db.networks[0] && db.profiles[0][0] == Some(db.ssids[0].slug)
    ensures var after := Upgraded(db);
            && after.ssids[0].network != after.networks[0] && after.ssids[0].network == after.networks[1]
            && after.profiles[0][0] != Some(after.ssids[0].slug) && after.profiles[0][0] == Some(after.ssids[1].slug)
  {
    db := Db(["lan", "neuralcore"], [Ssid("lan-main", "lan"), Ssid("neuralcore", "neuralcore")], [[Some("lan-main")]]);
    assert SlugsOf(db.ssids) == ["lan-main", "neuralcore"];
    NetworkRenameIsProper();
    SsidRenameIsProper();
    RenameOf(NETWORK_RENAME, 0);
    RenameOf(SSID_RENAME, 0);
    SameNetworkRowIff(db, 0, 0);
    SameSsidRowIff(db, 0, 0, 0);
    NewNameStays(NETWORK_RENAME, db.networks, "lan");
  }

  /** The alignment itself: each SSID that is renamed, on the network it was shipped with, ends with one
      slug for itself and its network, and the one shared by two SSIDs is split. */
  lemma ShippedSsidsAlign()
    ensures NewNetwork(Ssid("lan-main", "lan")) == "neuralcore" == Rename(SSID_RENAME, "lan-main")
    ensures NewNetwork(Ssid("kids-tablet", "kids")) == "grid" == Rename(SSID_RENAME, "kids-tablet")
    ensures NewNetwork(Ssid("work-mission", "work")) == "blackice" == Rename(SSID_RENAME, "work-mission")
    ensures NewNetwork(Ssid("dmz-guest", "dmz")) == "chromelounge" == Rename(SSID_RENAME, "dmz-guest")
    ensures NewNetwork(Ssid("dmz-osint", "dmz")) == "shadowrun" == Rename(SSID_RENAME, "dmz-osint")
  {
    NetworkRenameIsProper();
    SsidRenameIsProper();
    RenameOf(NETWORK_RENAME, 0);
    RenameOf(NETWORK_RENAME, 1);
    RenameOf(NETWORK_RENAME, 2);
    RenameOf(NETWORK_RENAME, 3);
    RenameCases(NETWORK_RENAME, SHADOWRUN);
    RenameOf(SSID_RENAME, 0);
    RenameOf(SSID_RENAME, 1);
    RenameOf(SSID_RENAME, 2);
    RenameOf(SSID_RENAME, 3);
    RenameOf(SSID_RENAME, 4);
  }

  /** In every database, exactly the SSID `dmz-osint`, and only off `dmz`, moves to `shadowrun`, which is
      there to move to; an SSID on another network that is not renamed stays on it. */
  lemma OnlyOsintMoves(db: Db, i: nat)
    requires i < |db.ssids| && db.ssids[i].network != "shadowrun"
    ensures Upgraded(db).ssids[i].network == "shadowrun" <==>
            db.ssids[i].slug == "dmz-osint" && db.ssids[i].network == "dmz"
    ensures "shadowrun" in Upgraded(db).networks
    ensures (forall r | r in NETWORK_RENAME :: r.0 != db.ssids[i].network) ==>
              Upgraded(db).ssids[i].network == db.ssids[i].network
  {
    NetworkRenameIsProper();
    RenameCases(NETWORK_RENAME, db.ssids[i].network);
    ShadowrunStays(db.networks);
    forall r | r in NETWORK_RENAME ensures r.1 != "shadowrun" {
    }
    if Rename(NETWORK_RENAME, db.ssids[i].network) != db.ssids[i].network {
      var j :| 0 <= j < |NETWORK_RENAME| && Rename(NETWORK_RENAME, db.ssids[i].network) == NETWORK_RENAME[j].1;
      assert NETWORK_RENAME[j] in NETWORK_RENAME;
    }
  }

  // ---------------------------- the migration ---------------------------- //

  class Database {
    var networks: seq<string>
    var ssids: seq<Ssid>
    var profiles: seq<seq<Entry>>

    function State(): Db
      reads this
    {
      Db(networks, ssids, profiles)
    }

    /** UPDATE networks SET slug=:new WHERE slug=:old; `to` must be free, or UNIQUE refuses. */
    method UpdateNetworks(from: string, to: string)
      requires NoDup(networks) && to !in networks
      modifies this`networks
      ensures NoDup(networks) && networks == Replaced(old(networks), from, to)
    {
      var was := networks;
      networks := seq(|was|, i requires 0 <= i < |was| => if was[i] == from then to else was[i]);
    }

    /** UPDATE wifi_ssids SET slug=:new WHERE slug=:old, under UNIQUE as well. */
    method UpdateSsidSlugs(from: string, to: string)
      requires NoDup(SlugsOf(ssids)) && to !in SlugsOf(ssids)
      modifies this`ssids
      ensures NoDup(SlugsOf(ssids)) && SlugsOf(ssids) == Replaced(SlugsOf(old(ssids)), from, to)
      ensures |ssids| == |old(ssids)| && forall i | 0 <= i < |ssids| :: ssids[i].network == old(ssids)[i].network
    {
      var was := ssids;
      ssids := seq(|was|, i requires 0 <= i < |was| => if was[i].slug == from then was[i].(slug := to) else was[i]);
      assert SlugsOf(ssids) == Replaced(SlugsOf(was), from, to);
    }

    /** Steps 2 and 3. */
    method MoveReferences()
      modifies this`ssids
      ensures |ssids| == |old(ssids)|
      ensures forall i | 0 <= i < |ssids| :: ssids[i] == old(ssids)[i].(network := NewNetwork(old(ssids)[i]))
    {
      var was := ssids;
      ssids := seq(|was|, i requires 0 <= i < |was| =>
        if was[i].slug == "dmz-osint" && was[i].network == "dmz" then was[i].(network := SHADOWRUN) else was[i]);
      ghost var moved := ssids;
      NetworkRenameIsProper();
      for n := 0 to |NETWORK_RENAME|
        invariant |ssids| == |was|
        invariant forall i | 0 <= i < |ssids| ::
                  ssids[i] == moved[i].(network := Rename(NETWORK_RENAME[..n], moved[i].network))
      {
        var (from, to) := NETWORK_RENAME[n];
        forall i | 0 <= i < |ssids|
          ensures (if ssids[i].network == from then to else ssids[i].network)
                  == Rename(NETWORK_RENAME[..n + 1], moved[i].network)
        {
          RenameNext(NETWORK_RENAME, n, moved[i].network);
        }
        var now := ssids;
        ssids := seq(|now|, i requires 0 <= i < |now| =>
                              if now[i].network == from then now[i].(network := to) else now[i]);
      }
      assert NETWORK_RENAME[..|NETWORK_RENAME|] == NETWORK_RENAME;
    }

    /** Step 4. */
    method RenameNetworks(existing: seq<string>)
      requires NoDup(networks) && networks == WithShadowrun(existing)
      modifies this`networks
      ensures NoDup(networks) && networks == RenameAll(Admitted(NETWORK_RENAME, existing), WithShadowrun(existing))
    {
      NetworkRenameIsProper();
      ghost var was := networks;
      assert RenameAll([], was) == was;
      for n := 0 to |NETWORK_RENAME|
        invariant NoDup(networks) && networks == RenameAll(Admitted(NETWORK_RENAME[..n], existing), was)
      {
        var (from, to) := NETWORK_RENAME[n];
        AdmitNext(NETWORK_RENAME, n, existing, was);
        if from in existing && to !in existing {
          UpdateNetworks(from, to);
        }
      }
      assert NETWORK_RENAME[..|NETWORK_RENAME|] == NETWORK_RENAME;
    }

    /** Step 5. */
    method RenameSsids(existing: seq<string>)
      requires NoDup(existing) && SlugsOf(ssids) == existing
      modifies this`ssids
      ensures |ssids| == |old(ssids)| && SlugsOf(ssids) == RenameAll(Admitted(SSID_RENAME, existing), existing)
      ensures forall i | 0 <= i < |ssids| :: ssids[i].network == old(ssids)[i].network
    {
      SsidRenameIsProper();
      assert RenameAll([], existing) == existing;
      for n := 0 to |SSID_RENAME|
        invariant NoDup(SlugsOf(ssids)) && SlugsOf(ssids) == RenameAll(Admitted(SSID_RENAME[..n], existing), existing)
        invariant |ssids| == |old(ssids)| && forall i | 0 <= i < |ssids| :: ssids[i].network == old(ssids)[i].network
      {
        var (from, to) := SSID_RENAME[n];
        AdmitNext(SSID_RENAME, n, existing, existing);
        if from in existing && to !in existing {
          UpdateSsidSlugs(from, to);
        }
      }
      assert SSID_RENAME[..|SSID_RENAME|] == SSID_RENAME;
    }

    /** Step 6. */
    method UpdateProfiles()
      modifies this`profiles
      ensures |profiles| == |old(profiles)| && forall p | 0 <= p < |profiles| ::
              profiles[p] == NewProfile(old(profiles)[p])
    {
      for p := 0 to |profiles|
        invariant |profiles| == |old(profiles)|
        invariant forall q | 0 <= q < |profiles| ::
                    profiles[q] == if q < p then NewProfile(old(profiles)[q]) else old(profiles)[q]
      {
        var was := profiles[p];
        var entries := was;
        for e := 0 to |entries|
          invariant |entries| == |was|
          invariant forall k | 0 <= k < |was| :: entries[k] == if k < e then NewEntry(was[k]) else was[k]
        {
          if entries[e].Some? {
            entries := entries[e := Some(Rename(SSID_RENAME, entries[e].value))];
          }
        }
        assert entries == NewProfile(was);
        profiles := profiles[p := entries];
      }
    }

    method Upgrade()
      requires Valid(State())
      modifies this
      ensures State() == Upgraded(old(State())) && Valid(State())
    {
      SlugsStayUnique(State());
      var existingNets, existingSsids := networks, SlugsOf(ssids);
      if SHADOWRUN !in existingNets {
        networks := networks + [SHADOWRUN];
      }
      MoveReferences();
      assert SlugsOf(ssids) == existingSsids;
      RenameNetworks(existingNets);
      RenameSsids(existingSsids);
      UpdateProfiles();
      forall i | 0 <= i < |ssids| ensures ssids[i] == Upgraded(old(State())).ssids[i] {
        assert ssids[i].slug == SlugsOf(ssids)[i];
      }
    }
  }

  function Replaced(names: seq<string>, from: string, to: string): seq<string> {
    seq(|names|, i requires 0 <= i < |names| => if names[i] == from then to else names[i])
  }

  /** One turn of a renaming loop over a table: the new name is still free, and the statement
      takes the table one admitted rename further. */
  lemma AdmitNext(rs: Renames, n: nat, existing: seq<string>, names: seq<string>)
    requires Proper(rs) && n < |rs|
    requires forall x | x in names :: x in existing || forall r | r in rs :: x != r.1
    ensures var before := RenameAll(Admitted(rs[..n], existing), names);
            var after := RenameAll(Admitted(rs[..n + 1], existing), names);
            if rs[n].0 in existing && rs[n].1 !in existing
            then rs[n].1 !in before && after == Replaced(before, rs[n].0, rs[n].1)
            else after == before
  {
    assert rs[..n + 1][..n] == rs[..n];
    var front := Admitted(rs[..n], existing);
    AdmittedMembers(rs[..n], existing);
    if rs[n].0 in existing && rs[n].1 !in existing {
      var longer := front + [rs[n]];
      AdmittedIsProper(rs[..n + 1], existing);
      assert longer == Admitted(rs[..n + 1], existing);
      forall i | 0 <= i < |names|
        ensures Rename(front, names[i]) != rs[n].1
        ensures (if Rename(front, names[i]) == rs[n].0 then rs[n].1 else Rename(front, names[i]))
                == Rename(longer, names[i])
      {
        RenameNext(longer, |front|, names[i]);
        assert longer[..|front|] == front && longer[..|front| + 1] == longer;
        RenameCases(front, names[i]);
        assert rs[n] in rs;
        assert forall r | r in front :: r.1 != rs[n].1 by {
          forall r | r in front ensures r.1 != rs[n].1 {
            assert r in rs[..n];
          }
        }
      }
    } else {
      assert front + [] == front;
    }
  }
}
