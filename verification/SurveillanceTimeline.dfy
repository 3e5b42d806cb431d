/**
 The timeline of a surveillance session (backend/app/scheduler/surveillance.py:343-511): one pass
 over the session's observations fills dictionaries by BSSID, from which the answer's rows are
 built and sorted. Time offsets and ratios are reals.
 */
module SurveillanceTimeline {
  import opened Common

  /** One neighbour of one scan, with the scan's start and id. */
  datatype Observation = Observation(
    bssid: string, ssid: string, vendor: string, vendorSlug: string, channel: int, band: string,
    apRoot: string, rssi: int, randomized: bool, at: real, scan: int)

  /** A session's start, its end (or now), and the number of buckets asked for. */
  datatype Window = Window(start: real, end: real, buckets: int)

  /** What is accumulated for a BSSID: text of its latest observation, the rest of its first one. */
  datatype Slot = Slot(
    first: Observation, last: Observation, rssiMax: int, rssiMin: int, buckets: map<int, int>, scans: set<int>)

  datatype Class = Stable | Edge | Drifting | Transient

  datatype Row = Row(
    bssid: string, ssid: string, vendor: string, vendorSlug: string, channel: int, band: string,
    apRoot: string, randomized: bool, rssiMax: int, rssiMin: int, drift: int, passesSeen: nat,
    presence: real, classification: Class, buckets: seq<Option<int>>)

  // ---------------------------- buckets ---------------------------- //

  function Size(w: Window): real
    requires w.buckets >= 1
  {
    Seconds(w) / w.buckets as real
  }

  function Seconds(w: Window): real { if w.end - w.start < 1.0 then 1.0 else w.end - w.start }

  /** A session shorter than a second is given one; otherwise the buckets share its own length evenly. */
  lemma BucketsShareTheSession(w: Window)
    requires w.buckets >= 1
    ensures w.end - w.start >= 1.0 ==> Size(w) * w.buckets as real == w.end - w.start
    ensures w.end - w.start < 1.0 ==> Size(w) * w.buckets as real == 1.0
  {
    SizeIsPositive(w);
  }

  /** Python's `int` on a float: towards zero. */
  function Truncate(x: real): int { if x < 0.0 then -((-x).Floor) else x.Floor }

  function BucketOf(w: Window, r: Observation): int
    requires w.buckets >= 1
  {
    SizeIsPositive(w);
    Min(w.buckets - 1, Max(0, Truncate((r.at - w.start) / Size(w))))
  }

  lemma SizeIsPositive(w: Window)
    requires w.buckets >= 1
    ensures Size(w) > 0.0 && Size(w) * w.buckets as real == Seconds(w)
  {
    var n := w.buckets as real;
    assert Size(w) * n == Seconds(w);
    NonPositiveTimes(Size(w), n);
  }

  lemma NonPositiveTimes(x: real, n: real)
    requires n > 0.0
    ensures x <= 0.0 ==> x * n <= 0.0
    ensures x >= 0.0 ==> x * n >= 0.0
    ensures x > 0.0 ==> x * n > 0.0
  {
  }

  function Times(x: real, s: real): real { x * s }

  lemma Scale(a: real, b: real, s: real)
    requires s > 0.0
    ensures a <= b <==> Times(a, s) <= Times(b, s)
  {
    NonPositiveTimes(a - b, s);
    assert (a - b) * s == a * s - b * s;
  }

  /** Bucket `k` stands for the offsets from `k * size` up to, not including, `(k + 1) * size`. */
  predicate Covers(size: real, k: int, offset: real) {
    Times(k as real, size) <= offset < Times((k + 1) as real, size)
  }

  /** The buckets tile the window: each offset inside it is covered by its bucket and no other. */
  lemma BucketsTile(w: Window, r: Observation, k: int)
    requires w.buckets >= 1
    ensures 0 <= BucketOf(w, r) < w.buckets
    ensures 0.0 <= r.at - w.start < Seconds(w) && 0 <= k < w.buckets ==>
              (Covers(Size(w), k, r.at - w.start) <==> k == BucketOf(w, r))
    ensures Covers(Size(w), BucketOf(w, r), r.at - w.start) <==> 0.0 <= r.at - w.start < Seconds(w)
  {
    var offset, size, n := r.at - w.start, Size(w), w.buckets;
    SizeIsPositive(w);
    var q := offset / size;
    assert Times(q, size) == offset;
    CoversIffFloor(size, k, offset, q);
    CoversIffFloor(size, BucketOf(w, r), offset, q);
    BucketIsClampedFloor(w, r, q);
    WholePartWithin(w, offset, q);
  }

  lemma WholePartWithin(w: Window, offset: real, q: real)
    requires w.buckets >= 1 && Times(q, Size(w)) == offset
    ensures 0 <= q.Floor < w.buckets <==> 0.0 <= offset < Seconds(w)
  {
    SizeIsPositive(w);
    assert Times(0.0, Size(w)) == 0.0 && Times(w.buckets as real, Size(w)) == Seconds(w);
    Between(0.0, w.buckets as real, q, Size(w));
    FloorIs(q, q.Floor);
  }

  lemma CoversIffFloor(size: real, k: int, offset: real, q: real)
    requires size > 0.0 && Times(q, size) == offset
    ensures Covers(size, k, offset) <==> k == q.Floor
  {
    Between(k as real, (k + 1) as real, q, size);
    FloorIs(q, k);
  }

  lemma Between(low: real, high: real, q: real, s: real)
    requires s > 0.0
    ensures Times(low, s) <= Times(q, s) < Times(high, s) <==> low <= q < high
  {
    Scale(low, q, s);
    Scale(high, q, s);
  }

  lemma FloorIs(q: real, k: int)
    ensures k as real <= q < (k + 1) as real <==> k == q.Floor
  {
    var f := q.Floor;
    assert f as real <= q < (f + 1) as real;
    if k < f { assert (k + 1) as real <= f as real; }
    if k > f { assert (f + 1) as real <= k as real; }
  }

  /** The bucket is the whole part of offset over size, clamped to the buckets there are. */
  lemma BucketIsClampedFloor(w: Window, r: Observation, q: real)
    requires w.buckets >= 1 && q == (r.at - w.start) / Size(w)
    ensures q.Floor < 0 ==> BucketOf(w, r) == 0
    ensures 0 <= q.Floor < w.buckets ==> BucketOf(w, r) == q.Floor
    ensures q.Floor >= w.buckets ==> BucketOf(w, r) == w.buckets - 1
  {
    FloorIs(q, q.Floor);
    if q < 0.0 {
      FloorIs(-q, (-q).Floor);
      assert (-q).Floor >= 0;
    }
  }

  // ---------------------------- what the rows should say ---------------------------- //

  function Of(rows: seq<Observation>, b: string): set<Observation> { set r | r in rows && r.bssid == b }

  function InBucket(rows: seq<Observation>, w: Window, b: string, k: int): set<Observation>
    requires w.buckets >= 1
  {
    set r | r in rows && r.bssid == b && BucketOf(w, r) == k
  }

  function ScansOf(rows: seq<Observation>, b: string): set<int> { set r | r in rows && r.bssid == b :: r.scan }

  ghost predicate IsMax(s: set<Observation>, v: int) {
    (exists r :: r in s && r.rssi == v) && forall r | r in s :: r.rssi <= v
  }

  ghost predicate IsMin(s: set<Observation>, v: int) {
    (exists r :: r in s && r.rssi == v) && forall r | r in s :: v <= r.rssi
  }

  /** Dictionary order: the BSSIDs by first appearance. */
  function Keys(rows: seq<Observation>): seq<string> {
    if rows == [] then []
    else
      var before, r := rows[..|rows| - 1], rows[|rows| - 1];
      Keys(before) + (if r.bssid in Keys(before) then [] else [r.bssid])
  }

  function First(rows: seq<Observation>, b: string): Option<Observation> {
    if rows == [] then None
    else match First(rows[..|rows| - 1], b)
      case Some(r) => Some(r)
      case None => if rows[|rows| - 1].bssid == b then Some(rows[|rows| - 1]) else None
  }

  function Last(rows: seq<Observation>, b: string): Option<Observation> {
    if rows == [] then None
    else if rows[|rows| - 1].bssid == b then Some(rows[|rows| - 1])
    else Last(rows[..|rows| - 1], b)
  }

  ghost predicate BucketsRight(rows: seq<Observation>, w: Window, b: string, buckets: map<int, int>)
    requires w.buckets >= 1
  {
    forall k :: BucketRight(InBucket(rows, w, b, k), if k in buckets then Some(buckets[k]) else None)
  }

  /** Nothing for an empty bucket, else the strongest signal in it. */
  ghost predicate BucketRight(s: set<Observation>, v: Option<int>) {
    match v
    case None => s == {}
    case Some(x) => IsMax(s, x)
  }

  ghost predicate SlotRight(rows: seq<Observation>, w: Window, b: string, slot: Slot)
    requires w.buckets >= 1
  {
    && IsMax(Of(rows, b), slot.rssiMax) && IsMin(Of(rows, b), slot.rssiMin)
    && BucketsRight(rows, w, b, slot.buckets) && slot.scans == ScansOf(rows, b)
    && First(rows, b) == Some(slot.first) && Last(rows, b) == Some(slot.last)
  }

  // ---------------------------- one observation ---------------------------- //

  function Fresh(r: Observation): Slot { Slot(r, r, r.rssi, r.rssi, map[], {}) }

  function Observe(w: Window, slot: Slot, r: Observation): Slot
    requires w.buckets >= 1
  {
    var k := BucketOf(w, r);
    Slot(slot.first, r, Max(slot.rssiMax, r.rssi), Min(slot.rssiMin, r.rssi),
         if k in slot.buckets && r.rssi <= slot.buckets[k] then slot.buckets else slot.buckets[k := r.rssi],
         slot.scans + {r.scan})
  }

  lemma MaxGrows(s: set<Observation>, v: int, r: Observation)
    requires IsMax(s, v)
    ensures IsMax(s + {r}, Max(v, r.rssi))
  {
    var m :| m in s && m.rssi == v;
    assert m in s + {r} && r in s + {r};
  }

  lemma MinGrows(s: set<Observation>, v: int, r: Observation)
    requires IsMin(s, v)
    ensures IsMin(s + {r}, Min(v, r.rssi))
  {
    var m :| m in s && m.rssi == v;
    assert m in s + {r} && r in s + {r};
  }

  lemma IsMaxAlone(r: Observation)
    ensures IsMax({r}, r.rssi) && IsMin({r}, r.rssi)
  {
    assert r in {r};
  }

  lemma GrowOwn(rows: seq<Observation>, w: Window, r: Observation)
    requires w.buckets >= 1
    ensures var b := r.bssid; var after := rows + [r];
            && Of(after, b) == Of(rows, b) + {r} && ScansOf(after, b) == ScansOf(rows, b) + {r.scan}
            && InBucket(after, w, b, BucketOf(w, r)) == InBucket(rows, w, b, BucketOf(w, r)) + {r}
            && (forall k | k != BucketOf(w, r) :: InBucket(after, w, b, k) == InBucket(rows, w, b, k))
  {
    assert forall x :: x in rows + [r] <==> x in rows || x == r;
    assert ScansOf(rows + [r], r.bssid) == ScansOf(rows, r.bssid) + {r.scan} by {
      assert r in rows + [r];
    }
  }

  lemma GrowOther(rows: seq<Observation>, w: Window, r: Observation, b: string, slot: Slot)
    requires w.buckets >= 1 && b != r.bssid && SlotRight(rows, w, b, slot)
    ensures SlotRight(rows + [r], w, b, slot)
  {
    var after := rows + [r];
    assert forall x :: x in after <==> x in rows || x == r;
    assert Of(after, b) == Of(rows, b);
    assert ScansOf(after, b) == ScansOf(rows, b);
    assert after[..|rows|] == rows;
    forall k ensures BucketRight(InBucket(after, w, b, k), if k in slot.buckets then Some(slot.buckets[k]) else None) {
      assert InBucket(after, w, b, k) == InBucket(rows, w, b, k);
    }
  }

  lemma BucketsGrow(rows: seq<Observation>, w: Window, r: Observation, slot: Slot)
    requires w.buckets >= 1 && BucketsRight(rows, w, r.bssid, slot.buckets)
    ensures BucketsRight(rows + [r], w, r.bssid, Observe(w, slot, r).buckets)
  {
    var here, after := BucketOf(w, r), Observe(w, slot, r).buckets;
    GrowOwn(rows, w, r);
    forall k ensures BucketRight(InBucket(rows + [r], w, r.bssid, k), if k in after then Some(after[k]) else None) {
      assert BucketRight(InBucket(rows, w, r.bssid, k), if k in slot.buckets then Some(slot.buckets[k]) else None);
      if k == here {
        if k in slot.buckets {
          MaxGrows(InBucket(rows, w, r.bssid, k), slot.buckets[k], r);
        } else {
          IsMaxAlone(r);
          assert InBucket(rows, w, r.bssid, k) + {r} == {r};
        }
      }
    }
  }

  lemma Grow(rows: seq<Observation>, w: Window, r: Observation, slot: Slot)
    requires w.buckets >= 1 && SlotRight(rows, w, r.bssid, slot)
    ensures SlotRight(rows + [r], w, r.bssid, Observe(w, slot, r))
  {
    GrowOwn(rows, w, r);
    BucketsGrow(rows, w, r, slot);
    MaxGrows(Of(rows, r.bssid), slot.rssiMax, r);
    MinGrows(Of(rows, r.bssid), slot.rssiMin, r);
    assert (rows + [r])[..|rows|] == rows;
  }

  lemma Begin(rows: seq<Observation>, w: Window, r: Observation)
    requires w.buckets >= 1 && Of(rows, r.bssid) == {}
    ensures SlotRight(rows + [r], w, r.bssid, Observe(w, Fresh(r), r))
  {
    GrowOwn(rows, w, r);
    assert forall x | x in rows && x.bssid == r.bssid :: x in Of(rows, r.bssid);
    NoFirst(rows, r.bssid);
    BucketsGrow(rows, w, r, Fresh(r));
    IsMaxAlone(r);
    assert Of(rows, r.bssid) + {r} == {r} && ScansOf(rows, r.bssid) == {};
    assert (rows + [r])[..|rows|] == rows;
  }

  lemma {:induction false} NoFirst(rows: seq<Observation>, b: string)
    requires forall r | r in rows :: r.bssid != b
    ensures First(rows, b) == None
  {
    if rows != [] {
      NoFirst(rows[..|rows| - 1], b);
    }
  }

  lemma {:induction false} KeysAre(rows: seq<Observation>)
    ensures forall b :: b in Keys(rows) <==> Of(rows, b) != {}
    ensures NoDup(Keys(rows))
  {
    if rows != [] {
      var before, r := rows[..|rows| - 1], rows[|rows| - 1];
      KeysAre(before);
      forall b ensures b in Keys(rows) <==> Of(rows, b) != {} {
        assert Of(rows, b) == Of(before, b) + (if r.bssid == b then {r} else {}) by {
          assert rows == before + [r];
        }
      }
    }
  }

  // ---------------------------- the answer ---------------------------- //

  /** `_classify`. */
  function Classify(presence: real, drift: int): Class {
    if presence >= 0.8 && drift < 5 then Stable
    else if presence >= 0.5 && drift >= 5 then Edge
    else if presence < 0.2 then Transient
    else Drifting
  }

  /** The four classes as the module's header describes them, read in its order. */
  predicate Described(presence: real, drift: int, c: Class) {
    match c
    case Stable => presence >= 0.8 && drift < 5
    case Edge => presence >= 0.5 && drift >= 5
    case Drifting => 0.2 <= presence < 0.5
    case Transient => presence < 0.2
  }

  /** The header describes every observation once, except a steady signal seen in half to four
      fifths of the passes, which the code calls drifting. */
  lemma ClassifyIsDescribedIff(presence: real, drift: int)
    ensures Described(presence, drift, Classify(presence, drift)) <==> !(0.5 <= presence < 0.8 && drift < 5)
    ensures forall c | Described(presence, drift, c) :: c == Classify(presence, drift)
    ensures 0.5 <= presence < 0.8 && drift < 5 ==> Classify(presence, drift) == Drifting
  {
  }

  function Presence(seen: nat, total: nat): real { if total == 0 then 0.0 else seen as real / total as real }

  function MakeRow(w: Window, b: string, slot: Slot, total: nat): Row {
    var drift := slot.rssiMax - slot.rssiMin;
    var presence := Presence(|slot.scans|, total);
    Row(b, slot.last.ssid, slot.last.vendor, slot.last.vendorSlug, slot.first.channel, slot.first.band,
        slot.first.apRoot, slot.first.randomized, slot.rssiMax, slot.rssiMin, drift, |slot.scans|, presence,
        Classify(presence, drift),
        seq(if w.buckets < 0 then 0 else w.buckets, k => if k in slot.buckets then Some(slot.buckets[k]) else None))
  }

  /** The row of a BSSID, said of all its observations at once. */
  ghost predicate RowRight(rows: seq<Observation>, w: Window, total: nat, row: Row)
    requires w.buckets >= 1
  {
    && IsMax(Of(rows, row.bssid), row.rssiMax) && IsMin(Of(rows, row.bssid), row.rssiMin)
    && row.drift == row.rssiMax - row.rssiMin
    && row.passesSeen == |ScansOf(rows, row.bssid)| && row.presence == Presence(row.passesSeen, total)
    && row.classification == Classify(row.presence, row.drift)
    && |row.buckets| == w.buckets
    && (forall k | 0 <= k < w.buckets :: BucketRight(InBucket(rows, w, row.bssid, k), row.buckets[k]))
    && TextRight(rows, row)
  }

  /** Radio facts come from the first observation, names from the latest. */
  predicate TextRight(rows: seq<Observation>, row: Row) {
    match (First(rows, row.bssid), Last(rows, row.bssid))
    case (Some(first), Some(last)) =>
      && row.channel == first.channel && row.band == first.band && row.apRoot == first.apRoot
      && row.randomized == first.randomized
      && row.ssid == last.ssid && row.vendor == last.vendor && row.vendorSlug == last.vendorSlug
    case _ => false
  }

  lemma MakeRowRight(rows: seq<Observation>, w: Window, b: string, slot: Slot, total: nat)
    requires w.buckets >= 1 && SlotRight(rows, w, b, slot)
    ensures RowRight(rows, w, total, MakeRow(w, b, slot, total))
  {
    var row := MakeRow(w, b, slot, total);
    forall k | 0 <= k < w.buckets ensures BucketRight(InBucket(rows, w, b, k), row.buckets[k]) {
      assert BucketRight(InBucket(rows, w, b, k), if k in slot.buckets then Some(slot.buckets[k]) else None);
    }
  }

  // ---------------------------- the sort ---------------------------- //

  /** Python's `//` rounds down, as Dafny's `/` does for a positive divisor. */
  function Strength(row: Row): int { (row.rssiMax + row.rssiMin) / 2 }

  function Insert(row: Row, sorted: seq<Row>): seq<Row> {
    if sorted == [] then [row]
    else if Strength(row) >= Strength(sorted[0]) then [row] + sorted
    else [sorted[0]] + Insert(row, sorted[1..])
  }

  /** The stable sort by decreasing strength. */
  function Sort(rows: seq<Row>): seq<Row> {
    if rows == [] then [] else Insert(rows[0], Sort(rows[1..]))
  }

  predicate Descending(rows: seq<Row>) { forall i, j | 0 <= i < j < |rows| :: Strength(rows[i]) >= Strength(rows[j]) }

  /** The row with the higher middle of its signals, rounded down, comes first. */
  predicate StrongestFirst(rows: seq<Row>) {
    forall i, j | 0 <= i < j < |rows| ::
      (rows[i].rssiMax + rows[i].rssiMin) / 2 >= (rows[j].rssiMax + rows[j].rssiMin) / 2
  }

  lemma DescendingIsStrongestFirst(rows: seq<Row>)
    requires Descending(rows)
    ensures StrongestFirst(rows)
  {
    forall i, j | 0 <= i < j < |rows|
      ensures (rows[i].rssiMax + rows[i].rssiMin) / 2 >= (rows[j].rssiMax + rows[j].rssiMin) / 2
    {
      assert Strength(rows[i]) >= Strength(rows[j]);
    }
  }

  function WithStrength(rows: seq<Row>, x: int): seq<Row> {
    if rows == [] then []
    else (if Strength(rows[0]) == x then [rows[0]] else []) + WithStrength(rows[1..], x)
  }

  lemma {:induction false} InsertMembers(row: Row, sorted: seq<Row>)
    ensures multiset(Insert(row, sorted)) == multiset(sorted) + multiset{row}
    ensures forall r | r in Insert(row, sorted) :: r == row || r in sorted
  {
    if sorted == [] || Strength(row) >= Strength(sorted[0]) {
      assert Insert(row, sorted) == [row] + sorted;
    } else {
      var rest := Insert(row, sorted[1..]);
      InsertMembers(row, sorted[1..]);
      assert sorted == [sorted[0]] + sorted[1..];
      assert Insert(row, sorted) == [sorted[0]] + rest;
      assert multiset([sorted[0]] + rest) == multiset{sorted[0]} + multiset(rest);
    }
  }

  lemma {:induction false} InsertSorted(row: Row, sorted: seq<Row>)
    requires Descending(sorted)
    ensures Descending(Insert(row, sorted))
  {
    if sorted != [] && Strength(row) < Strength(sorted[0]) {
      InsertSorted(row, sorted[1..]);
      InsertMembers(row, sorted[1..]);
      assert forall r | r in Insert(row, sorted[1..]) :: Strength(r) <= Strength(sorted[0]);
    }
  }

  lemma {:induction false} InsertIsStable(row: Row, sorted: seq<Row>, x: int)
    requires Descending(sorted)
    ensures WithStrength(Insert(row, sorted), x) == (if Strength(row) == x then [row] else []) + WithStrength(sorted, x)
  {
    if sorted == [] || Strength(row) >= Strength(sorted[0]) {
      assert ([row] + sorted)[1..] == sorted;
    } else {
      var rest := Insert(row, sorted[1..]);
      InsertIsStable(row, sorted[1..], x);
      assert ([sorted[0]] + rest)[1..] == rest;
      if Strength(row) == x {
        assert Strength(sorted[0]) != x;
      }
    }
  }

  /** Sorting orders the rows and moves none of equal strength past another. */
  lemma {:induction false} SortIsStable(rows: seq<Row>, x: int)
    ensures Descending(Sort(rows)) && multiset(Sort(rows)) == multiset(rows)
    ensures WithStrength(Sort(rows), x) == WithStrength(rows, x)
  {
    if rows != [] {
      SortIsStable(rows[1..], x);
      InsertSorted(rows[0], Sort(rows[1..]));
      InsertMembers(rows[0], Sort(rows[1..]));
      InsertIsStable(rows[0], Sort(rows[1..]), x);
      assert rows == [rows[0]] + rows[1..];
    }
  }

  /** Rows of equal strength stand in the order of `rank`. */
  predicate TiesRanked(rows: seq<Row>, rank: Row -> int) {
    forall i, j | 0 <= i < j < |rows| && Strength(rows[i]) == Strength(rows[j]) :: rank(rows[i]) < rank(rows[j])
  }

  lemma {:induction false} InsertKeepsTies(row: Row, sorted: seq<Row>, rank: Row -> int)
    requires Descending(sorted) && TiesRanked(sorted, rank) && forall r | r in sorted :: rank(row) < rank(r)
    ensures TiesRanked(Insert(row, sorted), rank)
  {
    if sorted != [] && Strength(row) < Strength(sorted[0]) {
      var rest := Insert(row, sorted[1..]);
      InsertKeepsTies(row, sorted[1..], rank);
      InsertMembers(row, sorted[1..]);
      forall r | r in rest && Strength(r) == Strength(sorted[0])
        ensures rank(sorted[0]) < rank(r)
      {
        assert r in sorted[1..];
      }
    }
  }

  lemma {:induction false} SortKeepsTies(rows: seq<Row>, rank: Row -> int)
    requires forall i, j | 0 <= i < j < |rows| :: rank(rows[i]) < rank(rows[j])
    ensures TiesRanked(Sort(rows), rank)
  {
    if rows != [] {
      SortKeepsTies(rows[1..], rank);
      SortIsStable(rows[1..], 0);
      SameMembers(Sort(rows[1..]), rows[1..]);
      InsertKeepsTies(rows[0], Sort(rows[1..]), rank);
    }
  }

  /** Where a BSSID is first observed. */
  function FirstSeen(rows: seq<Observation>, b: string): nat {
    if rows == [] || rows[0].bssid == b then 0 else 1 + FirstSeen(rows[1..], b)
  }

  lemma {:induction false} FirstSeenIs(rows: seq<Observation>, b: string)
    ensures FirstSeen(rows, b) <= |rows| && forall i | 0 <= i < FirstSeen(rows, b) :: rows[i].bssid != b
    ensures FirstSeen(rows, b) < |rows| ==> rows[FirstSeen(rows, b)].bssid == b
  {
    if rows != [] && rows[0].bssid != b { FirstSeenIs(rows[1..], b); }
  }

  /** The first observation of a BSSID has no earlier one, and the latest has no later one. */
  lemma {:induction false} FirstAndLastAre(rows: seq<Observation>, b: string)
    ensures match First(rows, b)
            case None => forall i | 0 <= i < |rows| :: rows[i].bssid != b
            case Some(r) =>
              exists i :: 0 <= i < |rows| && rows[i] == r && r.bssid == b && forall j | 0 <= j < i :: rows[j].bssid != b
    ensures match Last(rows, b)
            case None => forall i | 0 <= i < |rows| :: rows[i].bssid != b
            case Some(r) =>
              exists i :: 0 <= i < |rows| && rows[i] == r && r.bssid == b
                          && forall j | i < j < |rows| :: rows[j].bssid != b
  {
    if rows != [] {
      var n := |rows| - 1;
      FirstAndLastAre(rows[..n], b);
      assert forall i | 0 <= i < n :: rows[..n][i] == rows[i];
      if First(rows[..n], b).Some? {
        var i :| 0 <= i < n && rows[..n][i] == First(rows[..n], b).value
                 && forall j | 0 <= j < i :: rows[..n][j].bssid != b;
        assert rows[i] == First(rows, b).value && forall j | 0 <= j < i :: rows[j].bssid != b;
      } else if rows[n].bssid == b {
        assert forall j | 0 <= j < n :: rows[j].bssid != b;
      }
      if rows[n].bssid != b && Last(rows[..n], b).Some? {
        var i :| 0 <= i < n && rows[..n][i] == Last(rows[..n], b).value
                 && forall j | i < j < n :: rows[..n][j].bssid != b;
        assert rows[i] == Last(rows, b).value && forall j | i < j < |rows| :: rows[j].bssid != b;
      }
    }
  }

  lemma {:induction false} FirstSeenAppend(rows: seq<Observation>, r: Observation, b: string)
    ensures FirstSeen(rows + [r], b)
            == if FirstSeen(rows, b) < |rows| || r.bssid == b then FirstSeen(rows, b) else |rows| + 1
  {
    FirstSeenIs(rows, b);
    if rows != [] && rows[0].bssid != b {
      assert (rows + [r])[1..] == rows[1..] + [r];
      FirstSeenAppend(rows[1..], r, b);
    } else if rows == [] {
      assert rows + [r] == [r] && [r][1..] == [];
    }
  }

  predicate SeenInOrder(rows: seq<Observation>, keys: seq<string>) {
    && (forall i | 0 <= i < |keys| :: FirstSeen(rows, keys[i]) < |rows|)
    && (forall i, j | 0 <= i < j < |keys| :: FirstSeen(rows, keys[i]) < FirstSeen(rows, keys[j]))
  }

  lemma SeenInOrderGrows(rows: seq<Observation>, keys: seq<string>, r: Observation)
    requires SeenInOrder(rows, keys)
    ensures SeenInOrder(rows + [r], keys)
    ensures FirstSeen(rows, r.bssid) == |rows| ==> SeenInOrder(rows + [r], keys + [r.bssid])
  {
    forall i | 0 <= i < |keys| ensures FirstSeen(rows + [r], keys[i]) == FirstSeen(rows, keys[i]) {
      FirstSeenAppend(rows, r, keys[i]);
    }
    FirstSeenAppend(rows, r, r.bssid);
  }

  /** The keys come in the order in which their BSSIDs were first observed. */
  lemma {:induction false} KeysInOrder(rows: seq<Observation>)
    ensures SeenInOrder(rows, Keys(rows))
  {
    if rows != [] {
      var n := |rows| - 1;
      var before, r := rows[..n], rows[n];
      assert rows == before + [r];
      KeysInOrder(before);
      KeysAre(before);
      SeenInOrderGrows(before, Keys(before), r);
      if r.bssid in Keys(before) {
        assert Keys(rows) == Keys(before);
      } else {
        NotSeen(before, r.bssid);
      }
    }
  }

  lemma NotSeen(rows: seq<Observation>, b: string)
    requires Of(rows, b) == {}
    ensures FirstSeen(rows, b) == |rows|
  {
    FirstSeenIs(rows, b);
    forall i | 0 <= i < |rows| ensures rows[i].bssid != b {
      assert rows[i] !in Of(rows, b);
    }
  }

  // ---------------------------- the pass over the rows ---------------------------- //

  method UpdateSlot(slot: Slot, w: Window, r: Observation) returns (after: Slot)
    requires w.buckets >= 1
    ensures after == Observe(w, slot, r)
  {
    after := slot;
    var idx := BucketOf(w, r);
    if r.rssi > after.rssiMax { after := after.(rssiMax := r.rssi); }
    if r.rssi < after.rssiMin { after := after.(rssiMin := r.rssi); }
    if idx !in after.buckets || r.rssi > after.buckets[idx] {
      after := after.(buckets := after.buckets[idx := r.rssi]);
    }
    after := after.(scans := after.scans + {r.scan}, last := r);
  }

  ghost predicate EntryRight(rows: seq<Observation>, w: Window, accum: map<string, Slot>, b: string)
    requires w.buckets >= 1
  {
    && (b in accum <==> b in Keys(rows))
    && (b in accum ==> SlotRight(rows, w, b, accum[b]))
  }

  ghost predicate AccumRight(rows: seq<Observation>, w: Window, accum: map<string, Slot>)
    requires w.buckets >= 1
  {
    forall b :: EntryRight(rows, w, accum, b)
  }

  lemma OwnGrows(rows: seq<Observation>, w: Window, accum: map<string, Slot>, r: Observation)
    requires w.buckets >= 1 && EntryRight(rows, w, accum, r.bssid)
    ensures SlotRight(rows + [r], w, r.bssid, Observe(w, if r.bssid in accum then accum[r.bssid] else Fresh(r), r))
  {
    KeysAre(rows);
    if r.bssid in accum { Grow(rows, w, r, accum[r.bssid]); } else { Begin(rows, w, r); }
  }

  lemma KeysGrow(rows: seq<Observation>, r: Observation)
    ensures Keys(rows + [r]) == Keys(rows) + (if r.bssid in Keys(rows) then [] else [r.bssid])
  {
    assert (rows + [r])[..|rows|] == rows;
  }

  lemma AccumGrows(rows: seq<Observation>, w: Window, accum: map<string, Slot>, r: Observation, slot: Slot)
    requires w.buckets >= 1 && AccumRight(rows, w, accum)
    requires slot == Observe(w, if r.bssid in accum then accum[r.bssid] else Fresh(r), r)
    ensures AccumRight(rows + [r], w, accum[r.bssid := slot])
    ensures Keys(rows + [r]) == Keys(rows) + (if r.bssid in accum then [] else [r.bssid])
  {
    KeysGrow(rows, r);
    assert EntryRight(rows, w, accum, r.bssid);
    var longer, after := rows + [r], accum[r.bssid := slot];
    forall b ensures EntryRight(longer, w, after, b) {
      assert EntryRight(rows, w, accum, b);
      if b == r.bssid {
        OwnGrows(rows, w, accum, r);
      } else if b in accum {
        GrowOther(rows, w, r, b, accum[b]);
      }
    }
  }

  method Accumulate(rows: seq<Observation>, w: Window) returns (accum: map<string, Slot>, order: seq<string>)
    requires w.buckets >= 1
    ensures order == Keys(rows) && AccumRight(rows, w, accum)
  {
    accum, order := map[], [];
    for i := 0 to |rows|
      invariant order == Keys(rows[..i]) && AccumRight(rows[..i], w, accum)
    {
      var r := rows[i];
      assert rows[..i + 1] == rows[..i] + [r];
      var slot;
      if r.bssid in accum {
        slot := accum[r.bssid];
      } else {
        slot := Slot(r, r, r.rssi, r.rssi, map[], {});
        order := order + [r.bssid];
      }
      slot := UpdateSlot(slot, w, r);
      AccumGrows(rows[..i], w, accum, r, slot);
      accum := accum[r.bssid := slot];
    }
    assert rows[..|rows|] == rows;
  }

  /** One right row for each key, in order. */
  ghost predicate Made(rows: seq<Observation>, w: Window, total: nat, order: seq<string>, made: seq<Row>)
    requires w.buckets >= 1
  {
    |made| == |order| && forall k | 0 <= k < |made| :: made[k].bssid == order[k] && RowRight(rows, w, total, made[k])
  }

  method MakeRows(ghost rows: seq<Observation>, w: Window, accum: map<string, Slot>, order: seq<string>, total: nat)
    returns (made: seq<Row>)
    requires w.buckets >= 1 && AccumRight(rows, w, accum) && forall b | b in order :: b in accum
    ensures Made(rows, w, total, order, made)
  {
    made := [];
    for i := 0 to |order|
      invariant Made(rows, w, total, order[..i], made)
    {
      var row := MakeRow(w, order[i], accum[order[i]], total);
      assert EntryRight(rows, w, accum, order[i]);
      MakeRowRight(rows, w, order[i], accum[order[i]], total);
      made := made + [row];
    }
    assert order[..|order|] == order;
  }

  /** Rows with the same middle of their signals, rounded down, come in the order in which their BSSIDs
      were first observed. */
  predicate TiesAsSeen(rows: seq<Observation>, out: seq<Row>) {
    forall i, j | 0 <= i < j < |out|
                  && (out[i].rssiMax + out[i].rssiMin) / 2 == (out[j].rssiMax + out[j].rssiMin) / 2 ::
      FirstSeen(rows, out[i].bssid) < FirstSeen(rows, out[j].bssid)
  }

  lemma TimelineOrder(rows: seq<Observation>, w: Window, total: nat, made: seq<Row>)
    requires w.buckets >= 1 && Made(rows, w, total, Keys(rows), made)
    ensures StrongestFirst(Sort(made)) && TiesAsSeen(rows, Sort(made))
  {
    var rank := (row: Row) => FirstSeen(rows, row.bssid);
    SortIsStable(made, 0);
    DescendingIsStrongestFirst(Sort(made));
    RankedAsMade(rows, w, total, made, rank);
    SortKeepsTies(made, rank);
    RankedIsAsSeen(rows, Sort(made), rank);
  }

  lemma RankedAsMade(rows: seq<Observation>, w: Window, total: nat, made: seq<Row>, rank: Row -> int)
    requires w.buckets >= 1 && Made(rows, w, total, Keys(rows), made)
    requires forall row :: rank(row) == FirstSeen(rows, row.bssid)
    ensures forall i, j | 0 <= i < j < |made| :: rank(made[i]) < rank(made[j])
  {
    var keys := Keys(rows);
    KeysInOrder(rows);
    forall i, j | 0 <= i < j < |made| ensures rank(made[i]) < rank(made[j]) {
      assert rank(made[i]) == FirstSeen(rows, keys[i]) && rank(made[j]) == FirstSeen(rows, keys[j]);
      assert made[i].bssid == keys[i] && made[j].bssid == keys[j];
    }
  }

  lemma RankedIsAsSeen(rows: seq<Observation>, out: seq<Row>, rank: Row -> int)
    requires TiesRanked(out, rank) && forall row :: rank(row) == FirstSeen(rows, row.bssid)
    ensures TiesAsSeen(rows, out)
  {
    forall i, j | 0 <= i < j < |out|
                  && (out[i].rssiMax + out[i].rssiMin) / 2 == (out[j].rssiMax + out[j].rssiMin) / 2
      ensures FirstSeen(rows, out[i].bssid) < FirstSeen(rows, out[j].bssid)
    {
      assert Strength(out[i]) == Strength(out[j]);
      assert rank(out[i]) < rank(out[j]);
    }
  }

  /** `timeline_for`: one row per observed BSSID, each right, strongest first. */
  method TimelineFor(rows: seq<Observation>, w: Window, total: nat) returns (out: seq<Row>)
    requires w.buckets >= 1
    ensures |out| == |Keys(rows)| && forall b :: b in Keys(rows) <==> exists row :: row in out && row.bssid == b
    ensures forall row | row in out :: RowRight(rows, w, total, row)
    ensures StrongestFirst(out) && TiesAsSeen(rows, out)
    ensures exists made :: Made(rows, w, total, Keys(rows), made) && out == Sort(made)
  {
    var accum, order := Accumulate(rows, w);
    forall b | b in order ensures b in accum {
      assert EntryRight(rows, w, accum, b);
    }
    var made := MakeRows(rows, w, accum, order, total);
    SortIsStable(made, 0);
    TimelineOrder(rows, w, total, made);
    out := Sort(made);
    SameMembers(out, made);
    MadeCovers(rows, w, total, order, made);
  }

  /** A row stands before every row whose maximum and minimum are both at least 2 dB below its own. */
  lemma StrongerComesFirst(out: seq<Row>, i: nat, j: nat)
    requires i < |out| && j < |out| && StrongestFirst(out)
    requires out[i].rssiMax >= out[j].rssiMax + 2 && out[i].rssiMin >= out[j].rssiMin + 2
    ensures i < j
  {
  }

  lemma MadeCovers(rows: seq<Observation>, w: Window, total: nat, order: seq<string>, made: seq<Row>)
    requires w.buckets >= 1 && Made(rows, w, total, order, made)
    ensures forall row | row in made :: RowRight(rows, w, total, row)
    ensures forall b :: b in order <==> exists row :: row in made && row.bssid == b
  {
    assert forall k | 0 <= k < |order| :: made[k] in made;
  }

  lemma SameMembers(a: seq<Row>, b: seq<Row>)
    requires multiset(a) == multiset(b)
    ensures |a| == |b| && forall x :: x in a <==> x in b
  {
    assert |multiset(a)| == |multiset(b)|;
    assert forall x :: x in a <==> x in multiset(a);
    assert forall x :: x in b <==> x in multiset(b);
  }

  // ---------------------------- what follows ---------------------------- //

  /** The overall maximum of a row is the maximum over its buckets. */
  lemma OverallIsBucketMax(rows: seq<Observation>, w: Window, total: nat, row: Row)
    requires w.buckets >= 1 && RowRight(rows, w, total, row)
    ensures exists k :: 0 <= k < w.buckets && row.buckets[k] == Some(row.rssiMax)
    ensures forall k | 0 <= k < w.buckets && row.buckets[k].Some? :: row.rssiMin <= row.buckets[k].value <= row.rssiMax
  {
    var strongest :| strongest in Of(rows, row.bssid) && strongest.rssi == row.rssiMax;
    var k := BucketOf(w, strongest);
    BucketsTile(w, strongest, k);
    assert strongest in InBucket(rows, w, row.bssid, k);
    assert BucketRight(InBucket(rows, w, row.bssid, k), row.buckets[k]);
    forall k | 0 <= k < w.buckets && row.buckets[k].Some? ensures row.rssiMin <= row.buckets[k].value <= row.rssiMax {
      assert BucketRight(InBucket(rows, w, row.bssid, k), row.buckets[k]);
      var r :| r in InBucket(rows, w, row.bssid, k) && r.rssi == row.buckets[k].value;
      assert r in Of(rows, row.bssid);
    }
  }

  /** Each BSSID is present in at least one and at most all of the session's passes. */
  lemma PresenceIsARatio(rows: seq<Observation>, w: Window, scans: set<int>, row: Row)
    requires w.buckets >= 1 && RowRight(rows, w, |scans|, row) && forall r | r in rows :: r.scan in scans
    ensures 0.0 < row.presence <= 1.0
    ensures row.presence * |scans| as real == |ScansOf(rows, row.bssid)| as real
    ensures row.presence == 1.0 <==> ScansOf(rows, row.bssid) == scans
  {
    var seen := ScansOf(rows, row.bssid);
    var r :| r in Of(rows, row.bssid) && r.rssi == row.rssiMax;
    assert r.scan in seen;
    assert seen <= scans;
    SubsetSize(seen, scans);
    Ratio(|seen|, |scans|);
  }

  lemma Ratio(n: nat, m: nat)
    requires 1 <= n <= m
    ensures 0.0 < n as real / m as real <= 1.0 && (n as real / m as real) * m as real == n as real
    ensures n as real / m as real == 1.0 <==> n == m
  {
    var q := n as real / m as real;
    assert Times(q, m as real) == n as real && Times(1.0, m as real) == m as real;
    NonPositiveTimes(q, m as real);
    Scale(q, 1.0, m as real);
    Scale(1.0, q, m as real);
  }

  /** The numbers of a row do not depend on the order in which the database lists the observations. */
  lemma OrderDoesNotMatter(rows: seq<Observation>, other: seq<Observation>, w: Window, total: nat, a: Row, b: Row)
    requires w.buckets >= 1 && RowRight(rows, w, total, a) && RowRight(other, w, total, b) && a.bssid == b.bssid
    requires forall r :: r in rows <==> r in other
    ensures a.rssiMax == b.rssiMax && a.rssiMin == b.rssiMin && a.drift == b.drift && a.passesSeen == b.passesSeen
    ensures a.presence == b.presence && a.classification == b.classification && a.buckets == b.buckets
  {
    assert Of(rows, a.bssid) == Of(other, b.bssid) && ScansOf(rows, a.bssid) == ScansOf(other, b.bssid);
    forall k | 0 <= k < w.buckets ensures a.buckets[k] == b.buckets[k] {
      assert InBucket(rows, w, a.bssid, k) == InBucket(other, w, b.bssid, k);
      assert BucketRight(InBucket(rows, w, a.bssid, k), a.buckets[k]);
      assert BucketRight(InBucket(other, w, b.bssid, k), b.buckets[k]);
    }
  }
}
