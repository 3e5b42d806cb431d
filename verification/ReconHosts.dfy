/**
 The host list of a reconnaissance scan: the fusion of ARP and ping results
 (backend/app/recon/discovery.py:198-228), the gateway and the Slate added to it
 (backend/app/recon/runner.py:155-168), and the table it replaces rows of
 (backend/app/recon/store.py:106-143).
 */
module ReconHosts {
  import opened Common
  import opened ReconNetworks

  datatype Source = Arp | Ping | Both | Meta

  datatype Entry = Entry(ip: Ip, mac: string)

  datatype Host = Host(ip: Ip, mac: string, source: Source)

  // ---------------------------- what the list should be ---------------------------- //

  /** The MAC of the last entry for an address. */
  function LastMac(entries: seq<Entry>, ip: Ip): Option<string> {
    if entries == [] then None
    else if entries[|entries| - 1].ip == ip then Some(entries[|entries| - 1].mac)
    else LastMac(entries[..|entries| - 1], ip)
  }

  /** A MAC of the second pass fills in a missing or an empty one. */
  function Filled(prev: Option<string>, second: seq<Entry>, ip: Ip): Option<string> {
    if second == [] then prev
    else
      var h, before := second[|second| - 1], Filled(prev, second[..|second| - 1], ip);
      if h.ip == ip && (before == None || before == Some("")) then Some(h.mac) else before
  }

  function Known(first: seq<Entry>, second: seq<Entry>, ip: Ip): Option<string> {
    Filled(LastMac(first, ip), second, ip)
  }

  predicate Mentions(entries: seq<Entry>, ip: Ip) { exists e :: e in entries && e.ip == ip }

  function Expected(first: seq<Entry>, pinged: seq<Ip>, second: seq<Entry>, ip: Ip): Option<Host> {
    match Known(first, second, ip)
    case Some(mac) => Some(Host(ip, mac, if ip in pinged then Both else Arp))
    case None => if ip in pinged then Some(Host(ip, "", Ping)) else None
  }

  function WithExtras(found: Option<Host>, gateway: Option<Ip>, slate: Ip, ip: Ip): Option<Host> {
    if found.Some? then found
    else if ip == slate || Some(ip) == gateway then Some(Host(ip, "", Meta))
    else None
  }

  predicate Ascending(hosts: seq<Host>) { forall i, j | 0 <= i < j < |hosts| :: hosts[i].ip.value < hosts[j].ip.value }

  ghost predicate IsFused(first: seq<Entry>, pinged: seq<Ip>, second: seq<Entry>, out: seq<Host>) {
    Ascending(out) && forall h :: h in out <==> Expected(first, pinged, second, h.ip) == Some(h)
  }

  ghost predicate IsHostList(first: seq<Entry>, pinged: seq<Ip>, second: seq<Entry>, gateway: Option<Ip>, slate: Ip,
                             out: seq<Host>) {
    Ascending(out)
    && forall h :: h in out <==> WithExtras(Expected(first, pinged, second, h.ip), gateway, slate, h.ip) == Some(h)
  }

  // ---------------------------- what that means ---------------------------- //

  /** Entry `i` is the last one for the address. */
  predicate LastEntry(entries: seq<Entry>, ip: Ip, i: int) {
    0 <= i < |entries| && entries[i].ip == ip && forall j | i < j < |entries| :: entries[j].ip != ip
  }

  lemma {:induction false} LastMacIs(entries: seq<Entry>, ip: Ip)
    ensures LastMac(entries, ip).Some? <==> Mentions(entries, ip)
    ensures LastMac(entries, ip).Some? ==>
              exists i :: LastEntry(entries, ip, i) && LastMac(entries, ip) == Some(entries[i].mac)
  {
    if entries != [] {
      var n := |entries| - 1;
      LastMacIs(entries[..n], ip);
      assert entries == entries[..n] + [entries[n]];
      if entries[n].ip == ip {
        assert LastEntry(entries, ip, n);
      } else if i :| LastEntry(entries[..n], ip, i) && LastMac(entries[..n], ip) == Some(entries[..n][i].mac) {
        assert LastEntry(entries, ip, i);
      }
    }
  }

  /** The second pass never replaces a MAC. */
  lemma {:induction false} FilledKeeps(prev: Option<string>, second: seq<Entry>, ip: Ip)
    ensures prev.Some? && prev.value != "" ==> Filled(prev, second, ip) == prev
    ensures Filled(prev, second, ip).Some? <==> prev.Some? || Mentions(second, ip)
  {
    if second != [] {
      var before, h := second[..|second| - 1], second[|second| - 1];
      FilledKeeps(prev, before, ip);
      assert second == before + [h];
    }
  }

  /** Entry `j` is the first one for the address that has a MAC. */
  predicate FirstWithMac(second: seq<Entry>, ip: Ip, j: int) {
    0 <= j < |second| && second[j].ip == ip && second[j].mac != ""
    && forall i | 0 <= i < j && second[i].ip == ip :: second[i].mac == ""
  }

  /** Where the first pass has no MAC, the second one supplies the first it has. */
  lemma {:induction false} FilledSupplies(prev: Option<string>, second: seq<Entry>, ip: Ip, j: int)
    requires (prev.None? || prev == Some("")) && FirstWithMac(second, ip, j)
    ensures Filled(prev, second, ip) == Some(second[j].mac)
  {
    var n := |second| - 1;
    if j < n {
      assert FirstWithMac(second[..n], ip, j);
      FilledSupplies(prev, second[..n], ip, j);
    } else {
      FilledEmpty(prev, second[..n], ip);
    }
  }

  lemma {:induction false} FilledEmpty(prev: Option<string>, second: seq<Entry>, ip: Ip)
    requires prev.None? || prev == Some("")
    requires forall i | 0 <= i < |second| && second[i].ip == ip :: second[i].mac == ""
    ensures Filled(prev, second, ip) == None || Filled(prev, second, ip) == Some("")
  {
    if second != [] {
      FilledEmpty(prev, second[..|second| - 1], ip);
    }
  }

  /** The first pass does not mention the address, or ends on an entry without a MAC. */
  predicate LacksMac(first: seq<Entry>, ip: Ip) { LastMac(first, ip) == None || LastMac(first, ip) == Some("") }

  /** The addresses of the list are those of all sources together, the tag of each says exactly where
      it was seen, a MAC read before the sweep is never overwritten, and one that the first pass
      lacks is the first that the second pass has. */
  lemma HostListIsUnion(first: seq<Entry>, pinged: seq<Ip>, second: seq<Entry>, gateway: Option<Ip>, slate: Ip,
                        out: seq<Host>, ip: Ip)
    requires IsHostList(first, pinged, second, gateway, slate, out)
    ensures var arp := Mentions(first, ip) || Mentions(second, ip);
            && ((exists h :: h in out && h.ip == ip) <==> arp || ip in pinged || ip == slate || Some(ip) == gateway)
            && forall h | h in out && h.ip == ip ::
                 && (h.source == Both <==> arp && ip in pinged) && (h.source == Arp <==> arp && ip !in pinged)
                 && (h.source == Ping <==> !arp && ip in pinged) && (h.source == Meta <==> !arp && ip !in pinged)
                 && (!arp ==> h.mac == "")
                 && (LastMac(first, ip).Some? && LastMac(first, ip).value != "" ==> Some(h.mac) == LastMac(first, ip))
                 && (forall j | LacksMac(first, ip) && FirstWithMac(second, ip, j) :: h.mac == second[j].mac)
  {
    LastMacIs(first, ip);
    FilledKeeps(LastMac(first, ip), second, ip);
    forall j | LacksMac(first, ip) && FirstWithMac(second, ip, j)
      ensures Known(first, second, ip) == Some(second[j].mac)
    {
      FilledSupplies(LastMac(first, ip), second, ip, j);
    }
    var found := WithExtras(Expected(first, pinged, second, ip), gateway, slate, ip);
    if found.Some? {
      assert found.value.ip == ip;
      assert found.value in out;
    }
  }

  // ---------------------------- sorting ---------------------------- //

  function Insert(h: Host, sorted: seq<Host>): seq<Host> {
    if sorted == [] || h.ip.value < sorted[0].ip.value then [h] + sorted
    else [sorted[0]] + Insert(h, sorted[1..])
  }

  /** The hosts in order of their addresses, as their octets compare too (`OctetOrder`). */
  function SortByIp(hosts: seq<Host>): seq<Host> {
    if hosts == [] then [] else Insert(hosts[|hosts| - 1], SortByIp(hosts[..|hosts| - 1]))
  }

  predicate DistinctIps(hosts: seq<Host>) { forall i, j | 0 <= i < j < |hosts| :: hosts[i].ip != hosts[j].ip }

  lemma {:induction false} InsertIs(h: Host, sorted: seq<Host>)
    requires Ascending(sorted) && forall x | x in sorted :: x.ip != h.ip
    ensures Ascending(Insert(h, sorted)) && forall x :: x in Insert(h, sorted) <==> x == h || x in sorted
  {
    if sorted != [] && h.ip.value >= sorted[0].ip.value {
      assert h.ip != sorted[0].ip;
      InsertIs(h, sorted[1..]);
      assert forall x | x in Insert(h, sorted[1..]) :: sorted[0].ip.value < x.ip.value;
    }
  }

  lemma LastIsApart(hosts: seq<Host>)
    requires hosts != [] && DistinctIps(hosts)
    ensures forall x | x in hosts[..|hosts| - 1] :: x.ip != hosts[|hosts| - 1].ip
    ensures DistinctIps(hosts[..|hosts| - 1])
    ensures forall x :: x in hosts <==> x in hosts[..|hosts| - 1] || x == hosts[|hosts| - 1]
  {
    var n := |hosts| - 1;
    assert hosts == hosts[..n] + [hosts[n]];
    assert forall i | 0 <= i < n :: hosts[..n][i] == hosts[i];
  }

  lemma {:induction false} SortIs(hosts: seq<Host>)
    requires DistinctIps(hosts)
    ensures Ascending(SortByIp(hosts)) && forall x :: x in SortByIp(hosts) <==> x in hosts
  {
    if hosts != [] {
      var n := |hosts| - 1;
      LastIsApart(hosts);
      SortIs(hosts[..n]);
      InsertIs(hosts[n], SortByIp(hosts[..n]));
    }
  }

  // ---------------------------- fuse ---------------------------- //

  /** `by_ip` holds what is known of each address. */
  ghost predicate Holds(byIp: map<Ip, string>, first: seq<Entry>, second: seq<Entry>) {
    forall ip :: Known(first, second, ip) == if ip in byIp then Some(byIp[ip]) else None
  }

  method ReadFirst(first: seq<Entry>) returns (byIp: map<Ip, string>)
    ensures Holds(byIp, first, [])
  {
    byIp := map[];
    for i := 0 to |first|
      invariant Holds(byIp, first[..i], [])
    {
      assert first[..i + 1][..i] == first[..i];
      byIp := byIp[first[i].ip := first[i].mac];
    }
    assert first[..|first|] == first;
  }

  method ReadSecond(byIp: map<Ip, string>, ghost first: seq<Entry>, second: seq<Entry>) returns (after: map<Ip, string>)
    requires Holds(byIp, first, [])
    ensures Holds(after, first, second)
  {
    after := byIp;
    for i := 0 to |second|
      invariant Holds(after, first, second[..i])
    {
      assert second[..i + 1][..i] == second[..i];
      var h := second[i];
      assert Known(first, second[..i], h.ip) == if h.ip in after then Some(after[h.ip]) else None;
      if h.ip !in after || after[h.ip] == "" {
        after := after[h.ip := h.mac];
      }
    }
    assert second[..|second|] == second;
  }

  /** `out` has, once each, the hosts of the addresses in `ips`. */
  ghost predicate Collected(out: seq<Host>, ips: set<Ip>, first: seq<Entry>, pinged: seq<Ip>, second: seq<Entry>) {
    DistinctIps(out) && forall h :: h in out <==> h.ip in ips && Expected(first, pinged, second, h.ip) == Some(h)
  }

  lemma CollectOne(out: seq<Host>, ips: set<Ip>, first: seq<Entry>, pinged: seq<Ip>, second: seq<Entry>, h: Host)
    requires Collected(out, ips, first, pinged, second) && h.ip !in ips
             && Expected(first, pinged, second, h.ip) == Some(h)
    ensures Collected(out + [h], ips + {h.ip}, first, pinged, second)
  {
    forall x ensures x in out + [h] <==> x.ip in ips + {h.ip} && Expected(first, pinged, second, x.ip) == Some(x) {
    }
    forall i, j | 0 <= i < j < |out + [h]| ensures (out + [h])[i].ip != (out + [h])[j].ip {
      if j == |out| { assert out[i] in out; }
    }
  }

  method Fuse(first: seq<Entry>, pinged: seq<Ip>, second: seq<Entry>) returns (out: seq<Host>)
    ensures IsFused(first, pinged, second, out)
  {
    var byIp := ReadFirst(first);
    byIp := ReadSecond(byIp, first, second);
    out := [];
    var todo, done: set<Ip> := byIp.Keys, {};
    while todo != {}
      invariant todo + done == byIp.Keys && todo !! done
      invariant Collected(out, done, first, pinged, second)
      decreases todo
    {
      var ip :| ip in todo;
      var h := Host(ip, byIp[ip], if ip in pinged then Both else Arp);
      CollectOne(out, done, first, pinged, second, h);
      out := out + [h];
      todo, done := todo - {ip}, done + {ip};
    }
    todo := set ip | ip in pinged;
    while todo != {}
      invariant done == byIp.Keys + (set ip | ip in pinged && ip !in todo)
      invariant forall ip | ip in todo :: ip in pinged
      invariant Collected(out, done, first, pinged, second)
      decreases todo
    {
      var ip :| ip in todo;
      todo := todo - {ip};
      if ip !in byIp {
        CollectOne(out, done, first, pinged, second, Host(ip, "", Ping));
        out := out + [Host(ip, "", Ping)];
      }
      done := done + {ip};
    }
    SortIs(out);
    out := SortByIp(out);
  }

  // ---------------------------- the table ---------------------------- //

  datatype HostRow = HostRow(
    scan: int, interface: string, ip: Ip, mac: string, source: Source, isGateway: bool, isSelf: bool)

  function ToRow(scan: int, interface: string, gateway: Option<Ip>, slate: Ip, h: Host): HostRow {
    HostRow(scan, interface, h.ip, Cut(h.mac, 17), h.source, Some(h.ip) == gateway, h.ip == slate)
  }

  function ToRows(scan: int, interface: string, gateway: Option<Ip>, slate: Ip, hosts: seq<Host>): seq<HostRow> {
    if hosts == [] then []
    else
      var n := |hosts| - 1;
      ToRows(scan, interface, gateway, slate, hosts[..n]) + [ToRow(scan, interface, gateway, slate, hosts[n])]
  }

  /** What the row of a host says: the first 17 characters of its MAC, and exactly at the gateway's and
      the Slate's own address that it is theirs. */
  predicate WrittenAs(r: HostRow, scan: int, interface: string, gateway: Option<Ip>, slate: Ip, h: Host) {
    && r.scan == scan && r.interface == interface && r.ip == h.ip && r.source == h.source
    && r.mac <= h.mac && |r.mac| == Min(17, |h.mac|)
    && (r.isGateway <==> gateway.Some? && gateway.value == h.ip) && (r.isSelf <==> slate == h.ip)
  }

  lemma RowsAreWritten(rows: seq<HostRow>, scan: int, interface: string, gateway: Option<Ip>, slate: Ip,
                       hosts: seq<Host>)
    ensures var table := Kept(rows, scan, interface) + ToRows(scan, interface, gateway, slate, hosts);
            && (forall h | h in hosts :: exists r :: r in table && WrittenAs(r, scan, interface, gateway, slate, h))
            && (forall r | r in table && r.scan == scan && r.interface == interface ::
                  exists h :: h in hosts && WrittenAs(r, scan, interface, gateway, slate, h))
  {
    var added := ToRows(scan, interface, gateway, slate, hosts);
    KeptIs(rows, scan, interface);
    forall h | h in hosts ensures exists r :: r in added && WrittenAs(r, scan, interface, gateway, slate, h) {
      HostIsWritten(scan, interface, gateway, slate, hosts, h);
    }
    forall r | r in added ensures exists h :: h in hosts && WrittenAs(r, scan, interface, gateway, slate, h) {
      RowIsOfHost(scan, interface, gateway, slate, hosts, r);
    }
  }

  lemma HostIsWritten(scan: int, interface: string, gateway: Option<Ip>, slate: Ip, hosts: seq<Host>, h: Host)
    requires h in hosts
    ensures exists r :: r in ToRows(scan, interface, gateway, slate, hosts)
                        && WrittenAs(r, scan, interface, gateway, slate, h)
  {
    var added := ToRows(scan, interface, gateway, slate, hosts);
    ToRowsAre(scan, interface, gateway, slate, hosts);
    var i :| 0 <= i < |hosts| && hosts[i] == h;
    assert added[i] in added && WrittenAs(added[i], scan, interface, gateway, slate, h);
  }

  lemma RowIsOfHost(scan: int, interface: string, gateway: Option<Ip>, slate: Ip, hosts: seq<Host>, r: HostRow)
    requires r in ToRows(scan, interface, gateway, slate, hosts)
    ensures exists h :: h in hosts && WrittenAs(r, scan, interface, gateway, slate, h)
  {
    var added := ToRows(scan, interface, gateway, slate, hosts);
    ToRowsAre(scan, interface, gateway, slate, hosts);
    var i :| 0 <= i < |added| && added[i] == r;
    assert hosts[i] in hosts && WrittenAs(r, scan, interface, gateway, slate, hosts[i]);
  }

  /** The rows left by `DELETE ... WHERE scan_id = ... AND interface = ...`. */
  function Kept(rows: seq<HostRow>, scan: int, interface: string): seq<HostRow> {
    if rows == [] then []
    else Kept(rows[..|rows| - 1], scan, interface)
         + (if rows[|rows| - 1].scan == scan && rows[|rows| - 1].interface == interface then [] else [rows[|rows| - 1]])
  }

  predicate SameKey(a: HostRow, b: HostRow) { a.scan == b.scan && a.interface == b.interface && a.ip == b.ip }

  predicate UniqueKeys(rows: seq<HostRow>) { forall i, j | 0 <= i < j < |rows| :: !SameKey(rows[i], rows[j]) }

  lemma {:induction false} KeptIs(rows: seq<HostRow>, scan: int, interface: string)
    ensures forall r :: r in Kept(rows, scan, interface) <==> r in rows && !(r.scan == scan && r.interface == interface)
  {
    if rows != [] {
      var n := |rows| - 1;
      KeptIs(rows[..n], scan, interface);
      assert rows == rows[..n] + [rows[n]];
    }
  }

  /** No row of the first list has the key of one of the second. */
  predicate Apart(a: seq<HostRow>, b: seq<HostRow>) { forall x, y | x in a && y in b :: !SameKey(x, y) }

  lemma UniqueAppend(a: seq<HostRow>, b: seq<HostRow>)
    ensures UniqueKeys(a + b) <==> UniqueKeys(a) && UniqueKeys(b) && Apart(a, b)
  {
    var all := a + b;
    if UniqueKeys(all) {
      assert forall i | 0 <= i < |a| :: all[i] == a[i];
      assert forall i | 0 <= i < |b| :: all[|a| + i] == b[i];
    }
    if UniqueKeys(a) && UniqueKeys(b) && Apart(a, b) {
      forall i, j | 0 <= i < j < |all| ensures !SameKey(all[i], all[j]) {
        if i < |a| <= j {
          assert a[i] in a && b[j - |a|] in b;
        }
      }
    }
  }

  lemma {:induction false} KeptUnique(rows: seq<HostRow>, scan: int, interface: string)
    requires UniqueKeys(rows)
    ensures UniqueKeys(Kept(rows, scan, interface))
  {
    if rows != [] {
      var n := |rows| - 1;
      var last := if rows[n].scan == scan && rows[n].interface == interface then [] else [rows[n]];
      assert rows == rows[..n] + [rows[n]];
      UniqueAppend(rows[..n], [rows[n]]);
      KeptUnique(rows[..n], scan, interface);
      KeptIs(rows[..n], scan, interface);
      UniqueAppend(Kept(rows[..n], scan, interface), last);
    }
  }

  lemma {:induction false} ToRowsAre(scan: int, interface: string, gateway: Option<Ip>, slate: Ip, hosts: seq<Host>)
    ensures var rows := ToRows(scan, interface, gateway, slate, hosts);
            |rows| == |hosts| && forall i | 0 <= i < |hosts| ::
                rows[i] == ToRow(scan, interface, gateway, slate, hosts[i])
  {
    if hosts != [] {
      ToRowsAre(scan, interface, gateway, slate, hosts[..|hosts| - 1]);
    }
  }

  /** Replacing the rows of one interface keeps the key unique exactly when no address is listed twice. */
  lemma ReplaceIsUniqueIff(rows: seq<HostRow>, scan: int, interface: string, gateway: Option<Ip>, slate: Ip,
                           hosts: seq<Host>)
    requires UniqueKeys(rows)
    ensures UniqueKeys(Kept(rows, scan, interface) + ToRows(scan, interface, gateway, slate, hosts))
            <==> DistinctIps(hosts)
  {
    var kept, added := Kept(rows, scan, interface), ToRows(scan, interface, gateway, slate, hosts);
    KeptIs(rows, scan, interface);
    KeptUnique(rows, scan, interface);
    ToRowsAre(scan, interface, gateway, slate, hosts);
    UniqueAppend(kept, added);
    assert UniqueKeys(added) <==> DistinctIps(hosts) by {
      forall i, j | 0 <= i < j < |hosts| ensures SameKey(added[i], added[j]) <==> hosts[i].ip == hosts[j].ip {
      }
    }
  }

  class ReconStore {
    var hosts: seq<HostRow>

    ghost predicate Valid() reads this { UniqueKeys(hosts) }

    constructor ()
      ensures Valid() && hosts == []
    {
      hosts := [];
    }

    /** Replaces the rows of one interface of one scan; false, with nothing changed, when the
        insertions break the unique key. */
    method UpsertHosts(scan: int, interface: string, list: seq<Host>, gateway: Option<Ip>, slate: Ip) returns (ok: bool)
      requires Valid()
      modifies this
      ensures Valid() && (ok <==> DistinctIps(list))
      ensures ok ==> hosts == Kept(old(hosts), scan, interface) + ToRows(scan, interface, gateway, slate, list)
      ensures !ok ==> hosts == old(hosts)
    {
      var table := Kept(hosts, scan, interface);
      for i := 0 to |list|
        invariant table == Kept(hosts, scan, interface) + ToRows(scan, interface, gateway, slate, list[..i])
        invariant hosts == old(hosts)
      {
        assert list[..i + 1][..i] == list[..i];
        table := table + [ToRow(scan, interface, gateway, slate, list[i])];
      }
      assert list[..|list|] == list;
      ReplaceIsUniqueIff(hosts, scan, interface, gateway, slate, list);
      ok := UniqueKeys(table);
      if ok { hosts := table; }
    }

    /** The discovery part of `_run_one_interface`: the write it ends with always succeeds. */
    method RunOneInterface(scan: int, interface: string, first: seq<Entry>, pinged: seq<Ip>, second: seq<Entry>,
                           gateway: Option<Ip>, slate: Ip) returns (fused: seq<Host>)
      requires Valid()
      modifies this
      ensures Valid() && IsHostList(first, pinged, second, gateway, slate, fused)
      ensures forall h | h in fused :: exists r :: r in hosts && WrittenAs(r, scan, interface, gateway, slate, h)
      ensures forall r | r in hosts && r.scan == scan && r.interface == interface ::
                exists h :: h in fused && WrittenAs(r, scan, interface, gateway, slate, h)
      ensures hosts == Kept(old(hosts), scan, interface) + ToRows(scan, interface, gateway, slate, fused)
    {
      fused := Fuse(first, pinged, second);
      fused := AddExtras(fused, first, pinged, second, gateway, slate);
      var ok := UpsertHosts(scan, interface, fused, gateway, slate);
      assert ok;
      RowsAreWritten(old(hosts), scan, interface, gateway, slate, fused);
    }
  }

  method AddExtras(found: seq<Host>, ghost first: seq<Entry>, ghost pinged: seq<Ip>, ghost second: seq<Entry>,
                   gateway: Option<Ip>, slate: Ip) returns (out: seq<Host>)
    requires IsFused(first, pinged, second, found)
    ensures IsHostList(first, pinged, second, gateway, slate, out)
  {
    out := found;
    var todo := (if gateway.Some? then {gateway.value} else {}) + {slate};
    ghost var done: set<Ip> := {};
    ghost var all := todo;
    while todo != {}
      invariant todo + done == all && todo !! done && DistinctIps(out)
      invariant forall h ::
                  h in out <==> h in found || (h == Host(h.ip, "", Meta) && h.ip in done && !Lists(found, h.ip))
      decreases todo
    {
      var ip :| ip in todo;
      if !Lists(found, ip) {
        forall i | 0 <= i < |out| ensures out[i].ip != ip {
          assert out[i] in out;
        }
        out := out + [Host(ip, "", Meta)];
      }
      todo, done := todo - {ip}, done + {ip};
    }
    forall h ensures h in out <==> WithExtras(Expected(first, pinged, second, h.ip), gateway, slate, h.ip) == Some(h) {
      ListsIff(first, pinged, second, found, h.ip);
    }
    SortIs(out);
    out := SortByIp(out);
  }

  predicate Lists(hosts: seq<Host>, ip: Ip) { exists h :: h in hosts && h.ip == ip }

  lemma ListsIff(first: seq<Entry>, pinged: seq<Ip>, second: seq<Entry>, found: seq<Host>, ip: Ip)
    requires IsFused(first, pinged, second, found)
    ensures Lists(found, ip) <==> Expected(first, pinged, second, ip).Some?
  {
    if Expected(first, pinged, second, ip).Some? {
      var h := Expected(first, pinged, second, ip).value;
      assert h.ip == ip && h in found;
    }
  }

  /** Writing the same list again changes nothing, and rows of other interfaces and scans stay. */
  lemma ReplaceIsIdempotent(rows: seq<HostRow>, scan: int, interface: string, gateway: Option<Ip>, slate: Ip,
                            hosts: seq<Host>)
    ensures var once := Kept(rows, scan, interface) + ToRows(scan, interface, gateway, slate, hosts);
            && Kept(once, scan, interface) + ToRows(scan, interface, gateway, slate, hosts) == once
            && forall r: HostRow | !(r.scan == scan && r.interface == interface) :: r in once <==> r in rows
  {
    ToRowsAre(scan, interface, gateway, slate, hosts);
    KeptIs(rows, scan, interface);
    KeptTwice(Kept(rows, scan, interface), ToRows(scan, interface, gateway, slate, hosts), scan, interface);
  }

  lemma {:induction false} KeptTwice(kept: seq<HostRow>, added: seq<HostRow>, scan: int, interface: string)
    requires forall r | r in kept :: !(r.scan == scan && r.interface == interface)
    requires forall r | r in added :: r.scan == scan && r.interface == interface
    ensures Kept(kept + added, scan, interface) == kept
  {
    if added == [] {
      assert kept + added == kept;
      NoneDropped(kept, scan, interface);
    } else {
      var all, n := kept + added, |added| - 1;
      assert all[..|all| - 1] == kept + added[..n] && all[|all| - 1] == added[n];
      KeptTwice(kept, added[..n], scan, interface);
    }
  }

  lemma {:induction false} NoneDropped(kept: seq<HostRow>, scan: int, interface: string)
    requires forall r | r in kept :: !(r.scan == scan && r.interface == interface)
    ensures Kept(kept, scan, interface) == kept
  {
    if kept != [] {
      var n := |kept| - 1;
      NoneDropped(kept[..n], scan, interface);
      assert kept == kept[..n] + [kept[n]];
    }
  }
}
