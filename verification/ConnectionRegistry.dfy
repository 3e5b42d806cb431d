/**
 The per-device connection registry (backend/app/devices/registry.py): a lazy cache filled under
 one asyncio lock, with `invalidate` and `aclose_all` running beside the builders.

 This is the protocol as a state machine: one event is the code between two points where the event
 loop may run something else, and any number of coroutines interleave. The registry object, each of
 whose methods performs one event, is in module DeviceConnectionsRegistry.
 */
module ConnectionRegistry {
  import opened Common

  type Slug = string
  type Pid = nat

  /** One set of live connections. `readAt` is the step at which its device row was read,
      `openedAt` the step at which its SSH client came into being, which tells bundles apart. */
  datatype Bundle = Bundle(slug: Slug, readAt: nat, openedAt: nat)

  /** Where a suspended coroutine stands. */
  datatype Pc =
    | Waiting(slug: Slug)               // for_slug: missed the cache, waiting for the lock
    | Building(slug: Slug)              // for_slug: lock held, device row not read yet
    | RowRead(slug: Slug, readAt: nat)  // for_slug: lock held, row read, nothing opened yet
    | Opened(bundle: Bundle)            // for_slug: lock held, SSH client exists, not stored yet
    | Invalidating(slug: Slug)          // invalidate: waiting for the lock
    | ClosingAll                        // aclose_all: waiting for the lock
    | Draining(todo: seq<Bundle>)       // lock released, closing what was popped, in order
  {
    predicate HoldsLock() { Building? || RowRead? || Opened? }

    function Target(): Slug
      requires HoldsLock()
    {
      if Opened? then bundle.slug else slug
    }
  }

  /** History: what became of every bundle ever opened. */
  datatype Place =
    | Held(pid: Pid)    // opened by a builder that has not stored it yet
    | Cached
    | Pending(pid: Pid) // popped, waiting for its `aclose`
    | Closed
    | Abandoned         // whoever held it was cancelled before storing or closing it

  datatype Handout = Handout(slug: Slug, bundle: Bundle, at: nat)

  /** `invalidate(slug)` past its `pop`, or (slug = None) `aclose_all` past its `clear`. */
  datatype Pop = Pop(slug: Option<Slug>, at: nat) {
    predicate Covers(k: Slug) { slug == None || slug == Some(k) }
  }

  datatype History = History(
    now: nat,
    place: map<Bundle, Place>,
    closed: multiset<Bundle>,
    given: set<Handout>,
    pops: set<Pop>,
    opens: map<Slug, nat>,   // bundles opened so far
    taken: map<Slug, nat>,   // bundles taken out of the cache so far
    aborts: map<Slug, nat>,  // builders cancelled with a bundle in hand
    abandoned: set<Bundle>)  // dropped, still open, by cancelled coroutines

  datatype State = State(
    lock: Option<Pid>, cache: map<Slug, Bundle>, procs: map<Pid, Pc>, h: History)

  function Count(m: map<Slug, nat>, k: Slug): nat { if k in m then m[k] else 0 }

  function Bump(m: map<Slug, nat>, k: Slug): map<Slug, nat> { m[k := Count(m, k) + 1] }

  function BumpAll(m: map<Slug, nat>, ks: set<Slug>): map<Slug, nat> {
    map k | k in m.Keys + ks :: Count(m, k) + if k in ks then 1 else 0
  }

  function Init(): State {
    State(None, map[], map[],
          History(0, map[], multiset{}, {}, {}, map[], map[], map[], {}))
  }

  /** `order` lists the values of the cache, each once. */
  predicate Lists(order: seq<Bundle>, cache: map<Slug, Bundle>) {
    && NoDup(order)
    && (forall b | b in order :: b.slug in cache && cache[b.slug] == b)
    && (forall k | k in cache :: cache[k] in order)
  }

  function Tick(s: State): History { s.h.(now := s.h.now + 1) }

  function Give(s: State, k: Slug, b: Bundle): History {
    Tick(s).(given := s.h.given + {Handout(k, b, s.h.now)})
  }

  function Move(place: map<Bundle, Place>, bs: seq<Bundle>, to: Place): map<Bundle, Place> {
    map b | b in place.Keys + (set x | x in bs) :: if b in bs then to else place[b]
  }

  predicate At(s: State, p: Pid, pc: Pc) { p in s.procs && s.procs[p] == pc }

  // ---------------------------- the atomic steps ---------------------------- //

  /** for_slug up to its first cache read: a hit returns at once, a miss waits for the lock. */
  function CallForSlug(s: State, p: Pid, k: Slug): State {
    if k in s.cache then s.(h := Give(s, k, s.cache[k]))
    else s.(procs := s.procs[p := Waiting(k)], h := Tick(s))
  }

  /** invalidate and aclose_all up to the lock. */
  function CallCloser(s: State, p: Pid, pc: Pc): State {
    s.(procs := s.procs[p := pc], h := Tick(s))
  }

  /** for_slug with the lock taken and the cache read again. */
  function LockForBuild(s: State, p: Pid, k: Slug): State {
    if k in s.cache then s.(procs := s.procs - {p}, h := Give(s, k, s.cache[k]))
    else s.(lock := Some(p), procs := s.procs[p := Building(k)], h := Tick(s))
  }

  function ReadRow(s: State, p: Pid, k: Slug): State {
    s.(procs := s.procs[p := RowRead(k, s.h.now)], h := Tick(s))
  }

  /** `_build` raises: no row, no credentials, no URL, or a failed probe. */
  function BuildFails(s: State, p: Pid): State {
    s.(lock := None, procs := s.procs - {p}, h := Tick(s))
  }

  /** `_build` creates the SSH client; what it awaits after that swallows its errors. */
  function Open(s: State, p: Pid, k: Slug, readAt: nat): State {
    var b := Bundle(k, readAt, s.h.now);
    s.(procs := s.procs[p := Opened(b)],
       h := Tick(s).(place := s.h.place[b := Held(p)], opens := Bump(s.h.opens, k)))
  }

  /** `self._cache[slug] = conn; return conn`, releasing the lock. */
  function Store(s: State, p: Pid, b: Bundle): State {
    s.(lock := None, procs := s.procs - {p}, cache := s.cache[b.slug := b],
       h := Give(s, b.slug, b).(place := s.h.place[b := Cached]))
  }

  /** invalidate with the lock taken, past a `pop` that found nothing, and the lock released. */
  function PopNothing(s: State, p: Pid, k: Slug): State {
    s.(procs := s.procs - {p}, h := Tick(s).(pops := s.h.pops + {Pop(Some(k), s.h.now)}))
  }

  /** invalidate with the lock taken, past a `pop` that found a bundle, and the lock released. */
  function PopCached(s: State, p: Pid, k: Slug): State
    requires k in s.cache
  {
    s.(procs := s.procs[p := Draining([s.cache[k]])], cache := s.cache - {k},
       h := Tick(s).(pops := s.h.pops + {Pop(Some(k), s.h.now)},
                     place := s.h.place[s.cache[k] := Pending(p)], taken := Bump(s.h.taken, k)))
  }

  /** aclose_all with the lock taken, past `clear`, and the lock released. */
  function LockAndClear(s: State, p: Pid, order: seq<Bundle>): State {
    s.(procs := if order == [] then s.procs - {p} else s.procs[p := Draining(order)],
       cache := map[],
       h := Tick(s).(pops := s.h.pops + {Pop(None, s.h.now)},
                     place := Move(s.h.place, order, Pending(p)),
                     taken := BumpAll(s.h.taken, s.cache.Keys)))
  }

  /** One `aclose`; it never raises. */
  function CloseNext(s: State, p: Pid, todo: seq<Bundle>): State
    requires todo != []
  {
    s.(procs := if |todo| == 1 then s.procs - {p} else s.procs[p := Draining(todo[1..])],
       h := Tick(s).(place := s.h.place[todo[0] := Closed], closed := s.h.closed + multiset{todo[0]}))
  }

  /** A task is cancelled at its await: `CancelledError` is not caught by `except Exception`. */
  function CancelIdle(s: State, p: Pid): State
    requires p in s.procs
  {
    s.(lock := if s.procs[p].HoldsLock() then None else s.lock, procs := s.procs - {p}, h := Tick(s))
  }

  function CancelBuilder(s: State, p: Pid, b: Bundle): State {
    s.(lock := None, procs := s.procs - {p},
       h := Tick(s).(place := s.h.place[b := Abandoned], aborts := Bump(s.h.aborts, b.slug),
                     abandoned := s.h.abandoned + {b}))
  }

  function CancelCloser(s: State, p: Pid, todo: seq<Bundle>): State {
    s.(procs := s.procs - {p},
       h := Tick(s).(place := Move(s.h.place, todo, Abandoned),
                     abandoned := s.h.abandoned + set b | b in todo))
  }

  function Cancel(s: State, p: Pid): State
    requires p in s.procs
  {
    match s.procs[p]
    case Opened(b) => CancelBuilder(s, p, b)
    case Draining(todo) => CancelCloser(s, p, todo)
    case _ => CancelIdle(s, p)
  }

  datatype Event =
    | EvForSlug(p: Pid, k: Slug)
    | EvInvalidate(p: Pid, k: Slug)
    | EvCloseAll(p: Pid)
    | EvLockForBuild(p: Pid)
    | EvReadRow(p: Pid)
    | EvBuildFails(p: Pid)
    | EvOpen(p: Pid)
    | EvStore(p: Pid)
    | EvPop(p: Pid)
    | EvClear(p: Pid, order: seq<Bundle>)
    | EvClose(p: Pid)
    | EvCancel(p: Pid)

  predicate Enabled(s: State, e: Event) {
    if e.EvForSlug? || e.EvInvalidate? || e.EvCloseAll? then e.p !in s.procs else
      && e.p in s.procs
      && var pc := s.procs[e.p];
         match e
         case EvLockForBuild(_) => s.lock == None && pc.Waiting?
         case EvReadRow(_) => pc.Building?
         case EvBuildFails(_) => pc.Building? || pc.RowRead?
         case EvOpen(_) => pc.RowRead?
         case EvStore(_) => pc.Opened?
         case EvPop(_) => s.lock == None && pc.Invalidating?
         case EvClear(_, order) => s.lock == None && pc.ClosingAll? && Lists(order, s.cache)
         case EvClose(_) => pc.Draining? && pc.todo != []
         case _ => true
  }

  function Apply(s: State, e: Event): State
    requires Enabled(s, e)
  {
    match e
    case EvForSlug(p, k) => CallForSlug(s, p, k)
    case EvInvalidate(p, k) => CallCloser(s, p, Invalidating(k))
    case EvCloseAll(p) => CallCloser(s, p, ClosingAll)
    case EvLockForBuild(p) => LockForBuild(s, p, s.procs[p].slug)
    case EvReadRow(p) => ReadRow(s, p, s.procs[p].slug)
    case EvBuildFails(p) => BuildFails(s, p)
    case EvOpen(p) => Open(s, p, s.procs[p].slug, s.procs[p].readAt)
    case EvStore(p) => Store(s, p, s.procs[p].bundle)
    case EvPop(p) =>
      if s.procs[p].slug in s.cache then PopCached(s, p, s.procs[p].slug) else PopNothing(s, p, s.procs[p].slug)
    case EvClear(p, order) => LockAndClear(s, p, order)
    case EvClose(p) => CloseNext(s, p, s.procs[p].todo)
    case EvCancel(p) => Cancel(s, p)
  }

  ghost predicate Next(s: State, t: State) {
    exists e :: Enabled(s, e) && t == Apply(s, e)
  }

  ghost predicate IsRun(run: seq<State>) {
    run != [] && run[0] == Init() && forall i | 0 <= i < |run| - 1 :: Next(run[i], run[i + 1])
  }

  ghost predicate Reachable(s: State) {
    exists run :: IsRun(run) && run[|run| - 1] == s
  }

  // ---------------------------- invariant ---------------------------- //

  /** The lock is held by exactly the coroutine that is building, and never for a cached slug. */
  ghost predicate LockInv(s: State) {
    && (s.lock.Some? ==> s.lock.value in s.procs && s.procs[s.lock.value].HoldsLock())
    && (forall p | p in s.procs && s.procs[p].HoldsLock() ::
          s.lock == Some(p) && s.procs[p].Target() !in s.cache)
  }

  /** The cache and the coroutines own only bundles recorded as theirs. */
  ghost predicate OwnerInv(s: State) {
    && (forall k | k in s.cache ::
          s.cache[k].slug == k && s.cache[k] in s.h.place && s.h.place[s.cache[k]] == Cached)
    && (forall p | p in s.procs && s.procs[p].Opened? ::
          s.procs[p].bundle in s.h.place && s.h.place[s.procs[p].bundle] == Held(p))
    && (forall p | p in s.procs && s.procs[p].Draining? ::
          && s.procs[p].todo != [] && NoDup(s.procs[p].todo)
          && (forall b | b in s.procs[p].todo :: b in s.h.place && s.h.place[b] == Pending(p)))
    && (forall b | b in s.h.abandoned :: b in s.h.place && s.h.place[b] == Abandoned)
  }

  /** Every bundle really is where it is recorded to be. */
  ghost predicate PlaceInv(s: State) {
    forall b | b in s.h.place :: b.openedAt < s.h.now && PlaceHolds(s, b, s.h.place[b])
  }

  ghost predicate ClosedInv(s: State) {
    forall b :: s.h.closed[b] == if b in s.h.place && s.h.place[b] == Closed then 1 else 0
  }

  ghost predicate PlaceHolds(s: State, b: Bundle, at: Place) {
    match at
    case Held(p) => p in s.procs && s.procs[p] == Opened(b)
    case Cached => b.slug in s.cache && s.cache[b.slug] == b
    case Pending(p) => p in s.procs && s.procs[p].Draining? && b in s.procs[p].todo
    case Closed => true
    case Abandoned => b in s.h.abandoned
  }

  ghost predicate CountInv(s: State) {
    forall k :: Count(s.h.opens, k) ==
                Count(s.h.taken, k) + Count(s.h.aborts, k)
                + (if k in s.cache then 1 else 0) + (if InHand(s, k) then 1 else 0)
  }

  /** A bundle for `k` is opened and not stored yet. */
  predicate InHand(s: State, k: Slug) {
    && s.lock.Some? && s.lock.value in s.procs
    && s.procs[s.lock.value].Opened? && s.procs[s.lock.value].bundle.slug == k
  }

  /** Whatever can still be cached or returned was read after every pop that covers it. */
  ghost predicate FreshInv(s: State) {
    && (forall q | q in s.h.pops :: q.at < s.h.now)
    && (forall q, k | q in s.h.pops && k in s.cache && q.Covers(k) :: q.at < s.cache[k].readAt)
    && (forall q, p | q in s.h.pops && p in s.procs && s.procs[p].HoldsLock() && q.Covers(s.procs[p].Target()) ::
          match s.procs[p]
          case RowRead(_, r) => q.at < r
          case Opened(b) => q.at < b.readAt
          case _ => true)
  }

  ghost predicate ReturnInv(s: State) {
    && (forall r | r in s.h.given :: r.at < s.h.now && r.bundle.slug == r.slug)
    && (forall r, q | r in s.h.given && q in s.h.pops && q.Covers(r.slug) && q.at < r.at ::
          q.at < r.bundle.readAt)
    && (forall r | r in s.h.given && NoPopBetween(s, r.slug, r.at, s.h.now) ::
          r.slug in s.cache && s.cache[r.slug] == r.bundle)
    && (forall r, t | r in s.h.given && t in s.h.given && r.slug == t.slug && r.at <= t.at
                      && NoPopBetween(s, r.slug, r.at, t.at) :: r.bundle == t.bundle)
  }

  ghost predicate NoPopBetween(s: State, k: Slug, from: nat, to: nat) {
    forall q | q in s.h.pops && q.Covers(k) :: !(from < q.at < to)
  }

  ghost predicate Inv(s: State) {
    && LockInv(s) && OwnerInv(s) && PlaceInv(s) && ClosedInv(s)
    && CountInv(s) && FreshInv(s) && ReturnInv(s)
  }

  // ---------------------------- every step keeps it ---------------------------- //

  ghost predicate OwnsBundles(s: State, p: Pid) {
    p in s.procs && (s.procs[p].Opened? || s.procs[p].Draining?)
  }

  ghost predicate Core(s: State) {
    LockInv(s) && OwnerInv(s) && PlaceInv(s) && ClosedInv(s) && CountInv(s)
  }

  /** Only `p`, which owns no bundle, moved; no bundle did. */
  ghost predicate Quiet(s: State, t: State, p: Pid) {
    && t.cache == s.cache && !OwnsBundles(s, p) && !OwnsBundles(t, p)
    && (forall q | q != p :: (q in t.procs <==> q in s.procs) && (q in s.procs ==> t.procs[q] == s.procs[q]))
    && t.h.now == s.h.now + 1
    && t.h.(now := s.h.now, given := s.h.given, pops := s.h.pops) == s.h
  }

  lemma QuietStep(s: State, t: State, p: Pid)
    requires Core(s) && Quiet(s, t, p) && LockInv(t)
    ensures Core(t)
  {
    assert forall k :: InHand(t, k) <==> InHand(s, k);
  }

  lemma OpenOwners(s: State, p: Pid, k: Slug, r: nat)
    requires Core(s) && At(s, p, RowRead(k, r))
    ensures var t := Open(s, p, k, r); OwnerInv(t) && ClosedInv(t) && CountInv(t)
  {
  }

  lemma OpenPlaces(s: State, p: Pid, k: Slug, r: nat)
    requires Core(s) && At(s, p, RowRead(k, r))
    ensures PlaceInv(Open(s, p, k, r))
  {
  }

  lemma StoreOwners(s: State, p: Pid, b: Bundle)
    requires Core(s) && At(s, p, Opened(b))
    ensures var t := Store(s, p, b); OwnerInv(t) && ClosedInv(t) && CountInv(t)
  {
  }

  lemma StorePlaces(s: State, p: Pid, b: Bundle)
    requires Core(s) && At(s, p, Opened(b))
    ensures PlaceInv(Store(s, p, b))
  {
  }

  lemma PopOwners(s: State, p: Pid, k: Slug)
    requires Core(s) && s.lock == None && At(s, p, Invalidating(k)) && k in s.cache
    ensures var t := PopCached(s, p, k); OwnerInv(t) && ClosedInv(t) && CountInv(t)
  {
  }

  lemma PopPlaces(s: State, p: Pid, k: Slug)
    requires Core(s) && s.lock == None && At(s, p, Invalidating(k)) && k in s.cache
    ensures PlaceInv(PopCached(s, p, k))
  {
  }

  lemma ClearOwners(s: State, p: Pid, order: seq<Bundle>)
    requires Core(s) && s.lock == None && At(s, p, ClosingAll) && Lists(order, s.cache)
    ensures var t := LockAndClear(s, p, order); OwnerInv(t) && ClosedInv(t) && CountInv(t)
  {
  }

  lemma ClearPlaces(s: State, p: Pid, order: seq<Bundle>)
    requires Core(s) && s.lock == None && At(s, p, ClosingAll) && Lists(order, s.cache)
    ensures PlaceInv(LockAndClear(s, p, order))
  {
    var t := LockAndClear(s, p, order);
    forall b | b in t.h.place
      ensures b.openedAt < t.h.now && PlaceHolds(t, b, t.h.place[b])
    {
      assert b in s.h.place && PlaceHolds(s, b, s.h.place[b]);
    }
  }

  lemma CloseOwners(s: State, p: Pid, todo: seq<Bundle>)
    requires Core(s) && At(s, p, Draining(todo)) && todo != []
    ensures var t := CloseNext(s, p, todo); OwnerInv(t) && ClosedInv(t) && CountInv(t)
  {
  }

  lemma ClosePlaces(s: State, p: Pid, todo: seq<Bundle>)
    requires Core(s) && At(s, p, Draining(todo)) && todo != []
    ensures PlaceInv(CloseNext(s, p, todo))
  {
  }

  lemma CancelBuilderOwners(s: State, p: Pid, b: Bundle)
    requires Core(s) && At(s, p, Opened(b))
    ensures var t := CancelBuilder(s, p, b); OwnerInv(t) && ClosedInv(t) && CountInv(t)
  {
  }

  lemma CancelBuilderPlaces(s: State, p: Pid, b: Bundle)
    requires Core(s) && At(s, p, Opened(b))
    ensures PlaceInv(CancelBuilder(s, p, b))
  {
  }

  lemma CancelCloserOwners(s: State, p: Pid, todo: seq<Bundle>)
    requires Core(s) && At(s, p, Draining(todo))
    ensures var t := CancelCloser(s, p, todo); OwnerInv(t) && ClosedInv(t) && CountInv(t)
  {
  }

  lemma CancelCloserPlaces(s: State, p: Pid, todo: seq<Bundle>)
    requires Core(s) && At(s, p, Draining(todo))
    ensures PlaceInv(CancelCloser(s, p, todo))
  {
  }

  lemma ReturnSilent(s: State, t: State)
    requires ReturnInv(s)
    requires t.cache == s.cache && t.h.given == s.h.given && t.h.pops == s.h.pops && t.h.now == s.h.now + 1
    requires forall q | q in s.h.pops :: q.at < s.h.now
    ensures ReturnInv(t)
  {
  }

  /** A pop at this instant, after which nothing it covers is cached. */
  lemma ReturnPop(s: State, t: State, q: Pop)
    requires ReturnInv(s) && q.at == s.h.now
    requires t.h.given == s.h.given && t.h.pops == s.h.pops + {q} && t.h.now == s.h.now + 1
    requires forall k | k in s.cache && !q.Covers(k) :: k in t.cache && t.cache[k] == s.cache[k]
    ensures ReturnInv(t)
  {
    forall r | r in t.h.given && NoPopBetween(t, r.slug, r.at, t.h.now)
      ensures r.slug in t.cache && t.cache[r.slug] == r.bundle
    {
      assert NoPopBetween(s, r.slug, r.at, s.h.now);
    }
  }

  /** A bundle of the new cache handed out at this instant. */
  lemma ReturnGive(s: State, t: State, k: Slug, b: Bundle)
    requires ReturnInv(s) && b.slug == k
    requires t.h.given == s.h.given + {Handout(k, b, s.h.now)} && t.h.pops == s.h.pops && t.h.now == s.h.now + 1
    requires t.cache == s.cache[k := b] && (k in s.cache ==> s.cache[k] == b)
    requires forall q | q in s.h.pops :: q.at < s.h.now && (q.Covers(k) ==> q.at < b.readAt)
    ensures ReturnInv(t)
  {
  }

  lemma CallForSlugKeeps(s: State, p: Pid, k: Slug)
    requires Inv(s) && p !in s.procs
    ensures Inv(CallForSlug(s, p, k))
  {
    var t := CallForSlug(s, p, k);
    QuietStep(s, t, p);
    if k in s.cache { ReturnGive(s, t, k, s.cache[k]); } else { ReturnSilent(s, t); }
  }

  lemma CallCloserKeeps(s: State, p: Pid, pc: Pc)
    requires Inv(s) && p !in s.procs && (pc.Invalidating? || pc.ClosingAll?)
    ensures Inv(CallCloser(s, p, pc))
  {
    var t := CallCloser(s, p, pc);
    QuietStep(s, t, p);
    ReturnSilent(s, t);
  }

  lemma LockForBuildKeeps(s: State, p: Pid, k: Slug)
    requires Inv(s) && s.lock == None && At(s, p, Waiting(k))
    ensures Inv(LockForBuild(s, p, k))
  {
    var t := LockForBuild(s, p, k);
    QuietStep(s, t, p);
    if k in s.cache { ReturnGive(s, t, k, s.cache[k]); } else { ReturnSilent(s, t); }
  }

  lemma ReadRowKeeps(s: State, p: Pid, k: Slug)
    requires Inv(s) && At(s, p, Building(k))
    ensures Inv(ReadRow(s, p, k))
  {
    var t := ReadRow(s, p, k);
    QuietStep(s, t, p);
    ReturnSilent(s, t);
  }

  lemma BuildFailsKeeps(s: State, p: Pid)
    requires Inv(s) && p in s.procs && (s.procs[p].Building? || s.procs[p].RowRead?)
    ensures Inv(BuildFails(s, p))
  {
    var t := BuildFails(s, p);
    QuietStep(s, t, p);
    ReturnSilent(s, t);
  }

  lemma PopNothingKeeps(s: State, p: Pid, k: Slug)
    requires Inv(s) && s.lock == None && At(s, p, Invalidating(k)) && k !in s.cache
    ensures Inv(PopNothing(s, p, k))
  {
    var t := PopNothing(s, p, k);
    QuietStep(s, t, p);
    ReturnPop(s, t, Pop(Some(k), s.h.now));
  }

  lemma CancelIdleKeeps(s: State, p: Pid)
    requires Inv(s) && p in s.procs && !OwnsBundles(s, p)
    ensures Inv(CancelIdle(s, p))
  {
    var t := CancelIdle(s, p);
    QuietStep(s, t, p);
    ReturnSilent(s, t);
  }

  lemma OpenKeeps(s: State, p: Pid, k: Slug, r: nat)
    requires Inv(s) && At(s, p, RowRead(k, r))
    ensures Inv(Open(s, p, k, r))
  {
    var t := Open(s, p, k, r);
    OpenOwners(s, p, k, r);
    OpenPlaces(s, p, k, r);
    ReturnSilent(s, t);
  }

  lemma StoreKeeps(s: State, p: Pid, b: Bundle)
    requires Inv(s) && At(s, p, Opened(b))
    ensures Inv(Store(s, p, b))
  {
    var t := Store(s, p, b);
    StoreOwners(s, p, b);
    StorePlaces(s, p, b);
    ReturnGive(s, t, b.slug, b);
  }

  lemma PopFresh(s: State, p: Pid, k: Slug)
    requires Inv(s) && s.lock == None && At(s, p, Invalidating(k)) && k in s.cache
    ensures var t := PopCached(s, p, k); LockInv(t) && FreshInv(t)
  {
  }

  lemma PopKeeps(s: State, p: Pid, k: Slug)
    requires Inv(s) && s.lock == None && At(s, p, Invalidating(k)) && k in s.cache
    ensures Inv(PopCached(s, p, k))
  {
    var t := PopCached(s, p, k);
    PopOwners(s, p, k);
    PopPlaces(s, p, k);
    PopFresh(s, p, k);
    ReturnPop(s, t, Pop(Some(k), s.h.now));
  }

  lemma ClearKeeps(s: State, p: Pid, order: seq<Bundle>)
    requires Inv(s) && s.lock == None && At(s, p, ClosingAll) && Lists(order, s.cache)
    ensures Inv(LockAndClear(s, p, order))
  {
    var t := LockAndClear(s, p, order);
    ClearOwners(s, p, order);
    ClearPlaces(s, p, order);
    ReturnPop(s, t, Pop(None, s.h.now));
  }

  lemma CloseKeeps(s: State, p: Pid, todo: seq<Bundle>)
    requires Inv(s) && At(s, p, Draining(todo)) && todo != []
    ensures Inv(CloseNext(s, p, todo))
  {
    var t := CloseNext(s, p, todo);
    CloseOwners(s, p, todo);
    ClosePlaces(s, p, todo);
    ReturnSilent(s, t);
  }

  lemma CancelBuilderKeeps(s: State, p: Pid, b: Bundle)
    requires Inv(s) && At(s, p, Opened(b))
    ensures Inv(CancelBuilder(s, p, b))
  {
    var t := CancelBuilder(s, p, b);
    CancelBuilderOwners(s, p, b);
    CancelBuilderPlaces(s, p, b);
    ReturnSilent(s, t);
  }

  lemma CancelCloserKeeps(s: State, p: Pid, todo: seq<Bundle>)
    requires Inv(s) && At(s, p, Draining(todo))
    ensures Inv(CancelCloser(s, p, todo))
  {
    var t := CancelCloser(s, p, todo);
    CancelCloserOwners(s, p, todo);
    CancelCloserPlaces(s, p, todo);
    ReturnSilent(s, t);
  }

  lemma InvStep(s: State, e: Event)
    requires Inv(s) && Enabled(s, e)
    ensures Inv(Apply(s, e))
  {
    match e {
      case EvForSlug(p, k) => CallForSlugKeeps(s, p, k);
      case EvInvalidate(p, k) => CallCloserKeeps(s, p, Invalidating(k));
      case EvCloseAll(p) => CallCloserKeeps(s, p, ClosingAll);
      case EvLockForBuild(p) => LockForBuildKeeps(s, p, s.procs[p].slug);
      case EvReadRow(p) => ReadRowKeeps(s, p, s.procs[p].slug);
      case EvBuildFails(p) => BuildFailsKeeps(s, p);
      case EvOpen(p) => OpenKeeps(s, p, s.procs[p].slug, s.procs[p].readAt);
      case EvStore(p) => StoreKeeps(s, p, s.procs[p].bundle);
      case EvPop(p) =>
        if s.procs[p].slug in s.cache { PopKeeps(s, p, s.procs[p].slug); }
        else { PopNothingKeeps(s, p, s.procs[p].slug); }
      case EvClear(p, order) => ClearKeeps(s, p, order);
      case EvClose(p) => CloseKeeps(s, p, s.procs[p].todo);
      case EvCancel(p) =>
        match s.procs[p] {
          case Opened(b) => CancelBuilderKeeps(s, p, b);
          case Draining(todo) => CancelCloserKeeps(s, p, todo);
          case _ => CancelIdleKeeps(s, p);
        }
    }
  }

  // ---------------------------- what a whole run guarantees ---------------------------- //

  lemma {:induction false} RunKeepsInv(run: seq<State>)
    requires IsRun(run)
    ensures Inv(run[|run| - 1])
  {
    if |run| > 1 {
      var n := |run| - 1;
      assert IsRun(run[..n]) by {
        forall i | 0 <= i < n - 1 ensures Next(run[..n][i], run[..n][i + 1]) {
          assert Next(run[i], run[i + 1]);
        }
      }
      RunKeepsInv(run[..n]);
      assert Next(run[n - 1], run[n]);
      var e :| Enabled(run[n - 1], e) && run[n] == Apply(run[n - 1], e);
      InvStep(run[n - 1], e);
    }
  }

  lemma ReachableInv(s: State)
    requires Reachable(s)
    ensures Inv(s)
  {
    var run :| IsRun(run) && run[|run| - 1] == s;
    RunKeepsInv(run);
  }

  ghost predicate HeldByBuilder(s: State, b: Bundle) {
    exists p :: p in s.procs && s.procs[p] == Opened(b)
  }

  predicate InCache(s: State, b: Bundle) { b.slug in s.cache && s.cache[b.slug] == b }

  ghost predicate AwaitsClose(s: State, b: Bundle) {
    exists p :: p in s.procs && s.procs[p].Draining? && b in s.procs[p].todo
  }

  /** How many of the five things that can have become of `b` are the case. */
  ghost function Fates(s: State, b: Bundle): nat {
    (if HeldByBuilder(s, b) then 1 else 0) + (if InCache(s, b) then 1 else 0)
    + (if AwaitsClose(s, b) then 1 else 0) + (if s.h.closed[b] == 1 then 1 else 0)
    + (if b in s.h.abandoned then 1 else 0)
  }

  /** No bundle is lost, shared between owners, or closed twice. */
  lemma ExactlyOneFate(s: State, b: Bundle)
    requires Reachable(s) && b in s.h.place
    ensures Fates(s, b) == 1
    ensures s.h.closed[b] <= 1
    ensures InCache(s, b) ==> s.h.closed[b] == 0
    ensures forall p, q | p in s.procs && q in s.procs
                          && s.procs[p].Draining? && s.procs[q].Draining?
                          && b in s.procs[p].todo && b in s.procs[q].todo :: p == q
  {
    ReachableInv(s);
    assert PlaceHolds(s, b, s.h.place[b]);
  }

  lemma OnlyAwaiting(s: State, p: Pid)
    requires Reachable(s) && p in s.procs && s.procs[p].Draining?
    ensures forall b | b in s.procs[p].todo :: s.h.closed[b] == 0
  {
    ReachableInv(s);
  }

  /** What an owner has in hand was opened: nothing is returned or closed out of thin air. */
  lemma OwnersHoldOpenedBundles(s: State, b: Bundle)
    requires Reachable(s)
    ensures HeldByBuilder(s, b) || InCache(s, b) || AwaitsClose(s, b) || s.h.closed[b] > 0 ==> b in s.h.place
  {
    ReachableInv(s);
  }

  /** At most one build runs at a time, never for a cached slug, and the books balance. */
  lemma SingleFlight(s: State, k: Slug)
    requires Reachable(s)
    ensures forall p, q | p in s.procs && q in s.procs && s.procs[p].HoldsLock() && s.procs[q].HoldsLock() :: p == q
    ensures forall p | p in s.procs && s.procs[p].HoldsLock() :: s.procs[p].Target() !in s.cache
    ensures Count(s.h.opens, k) ==
            Count(s.h.taken, k) + Count(s.h.aborts, k)
            + (if k in s.cache then 1 else 0)
            + (if exists p :: p in s.procs && s.procs[p].Opened? && s.procs[p].bundle.slug == k then 1 else 0)
  {
    ReachableInv(s);
    assert InHand(s, k) <==> exists p :: p in s.procs && s.procs[p].Opened? && s.procs[p].bundle.slug == k;
  }

  /** Once `invalidate` has popped, only connections built from a later row read are handed out
      or stay cached, even if a build was queued or under way when it was called. */
  lemma FreshAfterPop(s: State, q: Pop)
    requires Reachable(s) && q in s.h.pops
    ensures forall r | r in s.h.given && q.Covers(r.slug) && q.at < r.at :: q.at < r.bundle.readAt
    ensures forall k | k in s.cache && q.Covers(k) :: q.at < s.cache[k].readAt
  {
    ReachableInv(s);
  }

  /** Between two pops every caller for a slug gets the same bundle. */
  lemma SharedBetweenPops(s: State, r: Handout, t: Handout)
    requires Reachable(s) && r in s.h.given && t in s.h.given
    requires r.slug == t.slug && r.at <= t.at && NoPopBetween(s, r.slug, r.at, t.at)
    ensures r.bundle == t.bundle && r.bundle.slug == r.slug
    ensures NoPopBetween(s, r.slug, r.at, s.h.now) ==> InCache(s, r.bundle)
  {
    ReachableInv(s);
  }

  /** A run together with the events that drove it. */
  ghost predicate IsTrace(run: seq<State>, events: seq<Event>) {
    && |run| == |events| + 1 && run[0] == Init()
    && forall i | 0 <= i < |events| :: Steps(run[i], events[i], run[i + 1])
  }

  predicate Steps(s: State, e: Event, t: State) { Enabled(s, e) && t == Apply(s, e) }

  /** Event `e` cancels a coroutine that has bundle `b` in hand. */
  predicate Hits(s: State, e: Event, b: Bundle) {
    e.EvCancel? && e.p in s.procs
    && (s.procs[e.p] == Opened(b) || (s.procs[e.p].Draining? && b in s.procs[e.p].todo))
  }

  /** Event `e` cancels a coroutine that builds, past opening, or that still has bundles to close. */
  predicate HitsHolder(s: State, e: Event) {
    e.EvCancel? && e.p in s.procs && (s.procs[e.p].Opened? || s.procs[e.p].Draining?)
  }

  lemma TraceIsRun(run: seq<State>, events: seq<Event>, k: nat)
    requires IsTrace(run, events) && k < |run|
    ensures Reachable(run[k]) && Inv(run[k])
  {
    var prefix := run[..k + 1];
    assert IsRun(prefix) by {
      forall i | 0 <= i < |prefix| - 1 ensures Next(prefix[i], prefix[i + 1]) {
        assert Steps(run[i], events[i], run[i + 1]);
      }
    }
    assert prefix[|prefix| - 1] == run[k];
    ReachableInv(run[k]);
  }

  lemma AbandonedStep(s: State, e: Event, t: State, b: Bundle)
    requires Steps(s, e, t)
    ensures b in t.h.abandoned <==> b in s.h.abandoned || Hits(s, e, b)
  {
    if e.EvCancel? {
      CancelAbandons(s, e.p, b);
    } else {
      OthersAbandonNothing(s, e);
    }
  }

  lemma CancelAbandons(s: State, p: Pid, b: Bundle)
    requires p in s.procs
    ensures b in Cancel(s, p).h.abandoned <==> b in s.h.abandoned || Hits(s, EvCancel(p), b)
  {
  }

  lemma OthersAbandonNothing(s: State, e: Event)
    requires Enabled(s, e) && !e.EvCancel?
    ensures Apply(s, e).h.abandoned == s.h.abandoned
  {
  }

  lemma {:induction false} AbandonedAre(run: seq<State>, events: seq<Event>, k: nat, b: Bundle)
    requires IsTrace(run, events) && k < |run|
    ensures b in run[k].h.abandoned <==> HitBefore(run, events, k, b)
  {
    if k > 0 {
      AbandonedAre(run, events, k - 1, b);
      AbandonedStep(run[k - 1], events[k - 1], run[k], b);
    }
  }

  predicate HitBefore(run: seq<State>, events: seq<Event>, k: nat, b: Bundle)
    requires k <= |events| <= |run|
  {
    exists i :: 0 <= i < k && Hits(run[i], events[i], b)
  }

  /** A bundle is open with nobody left to close it exactly when a cancellation hit the coroutine
      that had it in hand. */
  lemma LeakedIff(run: seq<State>, events: seq<Event>, k: nat, b: Bundle)
    requires IsTrace(run, events) && k < |run| && b in run[k].h.place
    ensures !(HeldByBuilder(run[k], b) || InCache(run[k], b) || AwaitsClose(run[k], b) || run[k].h.closed[b] == 1)
            <==> HitBefore(run, events, k, b)
  {
    TraceIsRun(run, events, k);
    ExactlyOneFate(run[k], b);
    AbandonedAre(run, events, k, b);
    assert PlaceHolds(run[k], b, run[k].h.place[b]);
  }

  /** Once no coroutine is left, everything opened is cached or closed exactly when no event of the
      run cancelled a coroutine that had a bundle in hand. */
  lemma QuiescentLeak(run: seq<State>, events: seq<Event>)
    requires IsTrace(run, events) && run[|events|].procs == map[]
    ensures var s := run[|events|];
            (forall b | b in s.h.place :: InCache(s, b) || s.h.closed[b] == 1)
            <==> forall i | 0 <= i < |events| :: !HitsHolder(run[i], events[i])
  {
    var n, s := |events|, run[|events|];
    TraceIsRun(run, events, n);
    forall i | 0 <= i < n && HitsHolder(run[i], events[i])
      ensures exists b :: b in s.h.place && !InCache(s, b) && s.h.closed[b] != 1
    {
      TraceIsRun(run, events, i);
      var pc := run[i].procs[events[i].p];
      var b := if pc.Opened? then pc.bundle else pc.todo[0];
      assert Hits(run[i], events[i], b);
      AbandonedAre(run, events, n, b);
      LeakedIff(run, events, n, b);
    }
    forall b | b in s.h.place && !InCache(s, b) && s.h.closed[b] != 1
      ensures exists i :: 0 <= i < n && HitsHolder(run[i], events[i])
    {
      LeakedIff(run, events, n, b);
      var i :| 0 <= i < n && Hits(run[i], events[i], b);
      assert HitsHolder(run[i], events[i]);
    }
  }

  /** Such a cancellation can happen: one caller, cancelled while `_build` probes the device. */
  lemma CancelledBuildLeaks() returns (s: State)
    ensures Reachable(s) && s.procs == map[] && s.lock == None && s.cache == map[]
    ensures exists b :: b in s.h.place && s.h.closed[b] == 0
  {
    s := Init();
    InitReachable();
    s := ReachStep(s, EvForSlug(0, "a"));
    s := ReachStep(s, EvLockForBuild(0));
    s := ReachStep(s, EvReadRow(0));
    s := ReachStep(s, EvOpen(0));
    s := ReachStep(s, EvCancel(0));
    assert Bundle("a", 2, 3) in s.h.place;
  }

  lemma InitReachable()
    ensures Reachable(Init())
  {
    assert IsRun([Init()]);
  }

  lemma ReachStep(s: State, e: Event) returns (t: State)
    requires Reachable(s) && Enabled(s, e)
    ensures t == Apply(s, e) && Reachable(t)
  {
    t := Apply(s, e);
    var run :| IsRun(run) && run[|run| - 1] == s;
    var more := run + [t];
    assert Next(s, t);
    assert IsRun(more) by {
      forall i | 0 <= i < |more| - 1 ensures Next(more[i], more[i + 1]) {
        if i < |run| - 1 { assert Next(run[i], run[i + 1]); }
      }
    }
  }

  lemma {:induction false} SomeOrder(cache: map<Slug, Bundle>) returns (order: seq<Bundle>)
    requires forall k | k in cache :: cache[k].slug == k
    ensures Lists(order, cache)
    decreases |cache|
  {
    order := [];
    if cache != map[] {
      var k :| k in cache;
      var rest := SomeOrder(cache - {k});
      order := rest + [cache[k]];
      forall x | x in cache ensures cache[x] in order {
        assert x != k ==> (cache - {k})[x] in rest;
      }
    }
  }

  /** The registry never deadlocks: while a coroutine is unfinished, one of them can go on
      without a new call or a cancellation. */
  lemma NeverStuck(s: State)
    requires Reachable(s) && s.procs != map[]
    ensures exists e :: Enabled(s, e) && e.p in s.procs && !e.EvCancel?
  {
    ReachableInv(s);
    var p :| p in s.procs;
    if s.lock.Some? {
      p := s.lock.value;
    }
    match s.procs[p] {
      case Waiting(_) => assert Enabled(s, EvLockForBuild(p));
      case Building(_) => assert Enabled(s, EvReadRow(p));
      case RowRead(_, _) => assert Enabled(s, EvOpen(p));
      case Opened(_) => assert Enabled(s, EvStore(p));
      case Invalidating(_) => assert Enabled(s, EvPop(p));
      case Draining(_) => assert Enabled(s, EvClose(p));
      case ClosingAll =>
        var order := SomeOrder(s.cache);
        assert Enabled(s, EvClear(p, order));
    }
  }
}
