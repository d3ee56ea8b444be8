/** The process-wide registry that keeps one shared `Database` per file, while
    any number of openers race and none holds the lock across an I/O yield.

    A database object is a number; a `Weak` reference upgrades exactly while a
    strong reference exists. Strong references are the handles given to callers
    and the object an opener's own state keeps alive. One `Step` is one stretch
    of code between two points where another opener can run. */
module Registry {

  import opened Common

  datatype Key = File(id: nat) | SharedMemory(name: string)

  datatype Entry = Opening | Ready(db: nat)

  datatype Phase = Init | ReadingHeader | LoadingSchema | BootstrapMvStore | Done | BetweenLooks(name: string)

  /** The part of an open in progress that matters to others: `OpenDbAsyncState`
      for a file, and for shared memory a caller of `open_shared_memory` that is
      between its two looks at the registry. */
  datatype Opener = Opener(phase: Phase, registryKey: Option<Key>, held: Option<nat>)

  datatype World = World(
    registry: map<Key, Entry>,
    openers: map<nat, Opener>,
    handles: multiset<nat>,
    nextDb: nat,
    published: map<nat, Key>)  // history: the key each database was registered under

  ghost predicate Keeps(w: World, o: nat, db: nat) {
    o in w.openers && w.openers[o].held == Some(db)
  }

  ghost predicate Live(w: World, db: nat) {
    db in w.handles || exists o :: Keeps(w, o, db)
  }

  datatype Found = Hit(db: nat) | Busy | Vacant

  function Look(registry: map<Key, Entry>, key: Key, live: set<nat>): Found {
    if key !in registry then Vacant
    else if registry[key].Opening? then Busy
    else if registry[key].db in live then Hit(registry[key].db)
    else Vacant
  }

  // ---------- One step of a run ----------

  datatype Step =
    | Start(opener: nat)
    | PollHit(opener: nat, file: nat, accepted: bool)  // cached database; refused on an encryption mismatch
    | PollBusy(opener: nat, file: nat)                 // sees another opener's sentinel and yields
    | ReserveKey(opener: nat, file: nat)
    | Create(opener: nat)   // Init: allocate the database, with or without a reservation
    | Advance(opener: nat)  // ReadingHeader -> LoadingSchema -> BootstrapMvStore
    | Fail(opener: nat)     // any error; the caller may poll the same state again
    | Complete(opener: nat)
    | Drop(opener: nat)
    | Lookup(key: Key)  // `lookup_in_registry`, and the first look of `open_shared_memory`
    | SharedCreate(opener: nat, name: string)
    | SharedFinish(opener: nat)
    | Clone(db: nat)
    | Release(db: nat)

  ghost predicate Enabled(w: World, s: Step) {
    match s
    case Start(o) => o !in w.openers
    case PollHit(o, f, _) => Idle(w, o) && LiveEntry(w, File(f))
    case PollBusy(o, f) => Idle(w, o) && File(f) in w.registry && w.registry[File(f)].Opening?
    case ReserveKey(o, f) =>
      Idle(w, o) && (File(f) !in w.registry || (w.registry[File(f)].Ready? && !LiveEntry(w, File(f))))
    case Create(o) => o in w.openers && w.openers[o].phase == Init
    case Advance(o) => o in w.openers && w.openers[o].phase in {ReadingHeader, LoadingSchema}
    case Fail(o) => o in w.openers && !w.openers[o].phase.Done? && !w.openers[o].phase.BetweenLooks?
    case Complete(o) => o in w.openers && w.openers[o].phase == BootstrapMvStore && w.openers[o].held.Some?
    case Drop(o) => o in w.openers && !w.openers[o].phase.BetweenLooks?
    case Lookup(key) => LiveEntry(w, key)
    case SharedCreate(o, name) => o !in w.openers && !LiveEntry(w, SharedMemory(name))
    case SharedFinish(o) => o in w.openers && w.openers[o].phase.BetweenLooks? && w.openers[o].held.Some?
    case Clone(db) => db in w.handles
    case Release(db) => db in w.handles
  }

  ghost predicate Idle(w: World, o: nat) {
    o in w.openers && w.openers[o].phase == Init && w.openers[o].registryKey.None?
  }

  ghost predicate LiveEntry(w: World, key: Key) {
    key in w.registry && w.registry[key].Ready? && Live(w, w.registry[key].db)
  }

  function Remove(registry: map<Key, Entry>, key: Option<Key>): map<Key, Entry> {
    if key.Some? then registry - {key.value} else registry
  }

  ghost function Next(w: World, s: Step): World
    requires Enabled(w, s)
  {
    match s
    case Start(o) => w.(openers := w.openers[o := Opener(Init, None, None)])
    case PollHit(o, f, accepted) =>
      if accepted then w.(handles := w.handles + multiset{w.registry[File(f)].db}) else w
    case PollBusy(o, f) => w
    case ReserveKey(o, f) =>
      w.(registry := w.registry[File(f) := Opening],
         openers := w.openers[o := w.openers[o].(registryKey := Some(File(f)))])
    case Create(o) =>
      w.(openers := w.openers[o := w.openers[o].(phase := ReadingHeader, held := Some(w.nextDb))],
         nextDb := w.nextDb + 1)
    case Advance(o) =>
      var next := if w.openers[o].phase == ReadingHeader then LoadingSchema else BootstrapMvStore;
      w.(openers := w.openers[o := w.openers[o].(phase := next)])
    case Fail(o) =>
      w.(registry := Remove(w.registry, w.openers[o].registryKey),
         openers := w.openers[o := w.openers[o].(registryKey := None)])
    case Complete(o) =>
      var opener := w.openers[o];
      var db := opener.held.value;
      w.(registry := if opener.registryKey.Some? then w.registry[opener.registryKey.value := Ready(db)] else w.registry,
         openers := w.openers[o := opener.(phase := Done, registryKey := None)],
         handles := w.handles + multiset{db},
         published := if opener.registryKey.Some? then w.published[db := opener.registryKey.value] else w.published)
    case Drop(o) =>
      w.(registry := Remove(w.registry, w.openers[o].registryKey), openers := w.openers - {o})
    case Lookup(key) => w.(handles := w.handles + multiset{w.registry[key].db})
    case SharedCreate(o, name) =>
      w.(openers := w.openers[o := Opener(BetweenLooks(name), None, Some(w.nextDb))], nextDb := w.nextDb + 1)
    case SharedFinish(o) =>
      var key, db := SharedMemory(w.openers[o].phase.name), w.openers[o].held.value;
      if LiveEntry(w, key) then
        w.(openers := w.openers - {o}, handles := w.handles + multiset{w.registry[key].db})
      else
        w.(registry := w.registry[key := Ready(db)], openers := w.openers - {o},
           handles := w.handles + multiset{db}, published := w.published[db := key])
    case Clone(db) => w.(handles := w.handles + multiset{db})
    case Release(db) => w.(handles := w.handles - multiset{db})
  }

  const EMPTY := World(map[], map[], multiset{}, 0, map[])

  ghost predicate IsRun(run: seq<Step>, worlds: seq<World>) {
    && |worlds| == |run| + 1 && worlds[0] == EMPTY
    && forall i :: 0 <= i < |run| ==> Enabled(worlds[i], run[i]) && worlds[i + 1] == Next(worlds[i], run[i])
  }

  // ---------- What every step keeps ----------

  ghost predicate Holds(w: World, o: nat, key: Key) {
    o in w.openers && w.openers[o].registryKey == Some(key)
  }

  /** A sentinel has a holder, a reservation is a sentinel, and no two openers
      hold one key. */
  ghost predicate SentinelsOwned(w: World) {
    && (forall k :: k in w.registry && w.registry[k].Opening? ==> exists o :: Holds(w, o, k))
    && (forall o, k :: Holds(w, o, k) ==> k.File? && k in w.registry && w.registry[k].Opening?)
    && (forall o, p, k :: Holds(w, o, k) && Holds(w, p, k) ==> o == p)
    && (forall o, k :: Holds(w, o, k) ==> !w.openers[o].phase.Done? && !w.openers[o].phase.BetweenLooks?)
  }

  /** An object still being opened is private: nobody else can reach it. */
  ghost predicate OpenerPrivate(w: World, opener: Opener) {
    opener.held.Some? ==>
      && opener.held.value < w.nextDb && !opener.phase.Init?
      && (opener.phase.Done? || (opener.held.value !in w.published && opener.held.value !in w.handles))
  }

  ghost predicate HalfOpenPrivate(w: World) {
    && (forall o :: o in w.openers ==> OpenerPrivate(w, w.openers[o]))
    && (forall o, p, db :: Keeps(w, o, db) && Keeps(w, p, db) ==> o == p)
    && (forall db :: db in w.published || db in w.handles ==> db < w.nextDb)
  }

  /** The registry entry of a key is the live database published under it. */
  ghost predicate PublishedRegistered(w: World) {
    && (forall k :: k in w.registry && w.registry[k].Ready? ==>
          w.registry[k].db in w.published && w.published[w.registry[k].db] == k)
    && (forall db :: db in w.published && Live(w, db) ==>
          w.published[db] in w.registry && w.registry[w.published[db]] == Ready(db))
  }

  ghost predicate Safe(w: World) {
    SentinelsOwned(w) && HalfOpenPrivate(w) && PublishedRegistered(w)
  }

  lemma HoldsBefore(w: World, s: Step, o: nat, k: Key)
    requires Enabled(w, s) && SentinelsOwned(w) && Holds(Next(w, s), o, k)
    ensures Holds(w, o, k) || (s.ReserveKey? && s.opener == o && k == File(s.file))
    ensures (s.Fail? || s.Drop? || s.Complete?) ==> s.opener != o
  {
  }

  lemma SentinelHeld(w: World, s: Step, k: Key)
    requires Enabled(w, s) && SentinelsOwned(w)
    requires k in Next(w, s).registry && Next(w, s).registry[k].Opening?
    ensures exists o :: Holds(Next(w, s), o, k)
  {
    var v := Next(w, s);
    if s.ReserveKey? && k == File(s.file) {
      assert Holds(v, s.opener, k);
    } else {
      var o :| Holds(w, o, k);
      assert Holds(v, o, k);
    }
  }

  lemma HeldIsSentinel(w: World, s: Step, o: nat, k: Key)
    requires Enabled(w, s) && SentinelsOwned(w) && Holds(Next(w, s), o, k)
    ensures k.File? && k in Next(w, s).registry && Next(w, s).registry[k].Opening?
    ensures !Next(w, s).openers[o].phase.Done? && !Next(w, s).openers[o].phase.BetweenLooks?
  {
    HoldsBefore(w, s, o, k);
    if s.Fail? || s.Drop? || s.Complete? {
      assert w.openers[s.opener].registryKey == Some(k) ==> Holds(w, s.opener, k);
    }
  }

  lemma KeepsSentinels(w: World, s: Step)
    requires Enabled(w, s) && SentinelsOwned(w)
    ensures SentinelsOwned(Next(w, s))
  {
    var v := Next(w, s);
    forall k | k in v.registry && v.registry[k].Opening? ensures exists o :: Holds(v, o, k) {
      SentinelHeld(w, s, k);
    }
    forall o, k | Holds(v, o, k)
      ensures k.File? && k in v.registry && v.registry[k].Opening?
      ensures !v.openers[o].phase.Done? && !v.openers[o].phase.BetweenLooks?
    {
      HeldIsSentinel(w, s, o, k);
    }
    forall o, p, k | Holds(v, o, k) && Holds(v, p, k) ensures o == p {
      HoldsBefore(w, s, o, k);
      HoldsBefore(w, s, p, k);
    }
  }

  lemma KeptBefore(w: World, s: Step, o: nat, db: nat)
    requires Enabled(w, s) && Keeps(Next(w, s), o, db)
    ensures Keeps(w, o, db) || ((s.Create? || s.SharedCreate?) && s.opener == o && db == w.nextDb)
    ensures s.SharedFinish? || s.Drop? ==> s.opener != o
  {
  }

  lemma KeepsPrivate(w: World, s: Step)
    requires Enabled(w, s) && HalfOpenPrivate(w) && PublishedRegistered(w)
    ensures HalfOpenPrivate(Next(w, s))
  {
    var v := Next(w, s);
    forall o, p, db | Keeps(v, o, db) && Keeps(v, p, db) ensures o == p {
      KeptBefore(w, s, o, db);
      KeptBefore(w, s, p, db);
    }
    forall o | o in v.openers ensures OpenerPrivate(v, v.openers[o]) {
      StaysPrivate(w, s, o);
    }
  }

  lemma StaysPrivate(w: World, s: Step, o: nat)
    requires Enabled(w, s) && HalfOpenPrivate(w) && PublishedRegistered(w) && o in Next(w, s).openers
    ensures OpenerPrivate(Next(w, s), Next(w, s).openers[o])
  {
    var opener := Next(w, s).openers[o];
    if opener.held.Some? {
      KeptBefore(w, s, o, opener.held.value);
      assert o in w.openers ==> OpenerPrivate(w, w.openers[o]);
      if s.SharedFinish? || s.Complete? {
        assert Keeps(w, s.opener, w.openers[s.opener].held.value);
      }
    }
  }

  /** A database that is live after a step was live before it, or is new. */
  lemma LiveBefore(w: World, s: Step, db: nat)
    requires Enabled(w, s) && Live(Next(w, s), db)
    ensures Live(w, db) || db == w.nextDb
  {
    var v := Next(w, s);
    if db !in v.handles {
      var o :| Keeps(v, o, db);
      KeptBefore(w, s, o, db);
    } else if s.Complete? || s.SharedFinish? {
      assert Keeps(w, s.opener, w.openers[s.opener].held.value);
    }
  }

  lemma StaysRegistered(w: World, s: Step, db: nat)
    requires Enabled(w, s) && Safe(w) && db in Next(w, s).published && Live(Next(w, s), db)
    ensures var v := Next(w, s);
            v.published[db] in v.registry && v.registry[v.published[db]] == Ready(db)
  {
    LiveBefore(w, s, db);
    if (s.Fail? || s.Drop? || s.Complete?) && w.openers[s.opener].registryKey.Some? {
      assert Holds(w, s.opener, w.openers[s.opener].registryKey.value);
    }
  }

  lemma StaysPublished(w: World, s: Step, k: Key)
    requires Enabled(w, s) && HalfOpenPrivate(w) && PublishedRegistered(w)
    requires k in Next(w, s).registry && Next(w, s).registry[k].Ready?
    ensures var v := Next(w, s);
            v.registry[k].db in v.published && v.published[v.registry[k].db] == k
  {
    if s.Complete? || s.SharedFinish? {
      assert OpenerPrivate(w, w.openers[s.opener]);
    }
  }

  lemma KeepsPublished(w: World, s: Step)
    requires Enabled(w, s) && Safe(w)
    ensures PublishedRegistered(Next(w, s))
  {
    var v := Next(w, s);
    forall db | db in v.published && Live(v, db)
      ensures v.published[db] in v.registry && v.registry[v.published[db]] == Ready(db)
    {
      StaysRegistered(w, s, db);
    }
    forall k | k in v.registry && v.registry[k].Ready?
      ensures v.registry[k].db in v.published && v.published[v.registry[k].db] == k
    {
      StaysPublished(w, s, k);
    }
  }

  /** Safety of the open protocol: every world of every run is safe. */
  lemma {:induction false} EveryRunSafe(run: seq<Step>, worlds: seq<World>, i: nat)
    requires IsRun(run, worlds) && i < |worlds|
    ensures Safe(worlds[i])
  {
    if i > 0 {
      EveryRunSafe(run, worlds, i - 1);
      KeepsSentinels(worlds[i - 1], run[i - 1]);
      KeepsPrivate(worlds[i - 1], run[i - 1]);
      KeepsPublished(worlds[i - 1], run[i - 1]);
    }
  }

  /** Two live published databases of one key are one object, and it is the one
      that a lookup of the key returns. */
  lemma OneDatabasePerKey(run: seq<Step>, worlds: seq<World>, i: nat, a: nat, b: nat)
    requires IsRun(run, worlds) && i < |worlds|
    requires a in worlds[i].published && b in worlds[i].published && worlds[i].published[a] == worlds[i].published[b]
    requires Live(worlds[i], a) && Live(worlds[i], b)
    ensures a == b && LiveEntry(worlds[i], worlds[i].published[a])
  {
    EveryRunSafe(run, worlds, i);
  }

  /** A key shows a sentinel exactly while one opener, and only one, holds it. */
  lemma SentinelIffHeld(run: seq<Step>, worlds: seq<World>, i: nat, key: Key)
    requires IsRun(run, worlds) && i < |worlds|
    ensures (key in worlds[i].registry && worlds[i].registry[key].Opening?) <==> exists o :: Holds(worlds[i], o, key)
    ensures forall o, p :: Holds(worlds[i], o, key) && Holds(worlds[i], p, key) ==> o == p
  {
    EveryRunSafe(run, worlds, i);
  }

  /** No step of anyone else takes a sentinel away or replaces it. */
  lemma SentinelOnlyLeftByHolder(run: seq<Step>, worlds: seq<World>, i: nat, o: nat, key: Key)
    requires IsRun(run, worlds) && i < |run| && Holds(worlds[i], o, key) && !Holds(worlds[i + 1], o, key)
    ensures run[i] in {Fail(o), Drop(o), Complete(o)}
    ensures run[i] == Complete(o) ==> LiveEntry(worlds[i + 1], key)
    ensures run[i] != Complete(o) ==> key !in worlds[i + 1].registry
  {
    EveryRunSafe(run, worlds, i);
    var w, v := worlds[i], worlds[i + 1];
    if run[i] == Complete(o) {
      assert v.registry[key].db in v.handles;
    }
  }

  /** Exactly one of the three outcomes of a first poll is possible, the one that
      the registry object computes. */
  lemma PollOutcome(w: World, o: nat, f: nat, live: set<nat>)
    requires Safe(w) && Idle(w, o) && forall db :: db in live <==> Live(w, db)
    ensures var found := Look(w.registry, File(f), live);
            && (found.Hit? <==> Enabled(w, PollHit(o, f, true)))
            && (found.Busy? <==> Enabled(w, PollBusy(o, f)))
            && (found.Vacant? <==> Enabled(w, ReserveKey(o, f)))
            && (found.Busy? ==> exists p :: p != o && Holds(w, p, File(f)) && !w.openers[p].phase.Done?)
  {
    if Enabled(w, PollBusy(o, f)) {
      var p :| Holds(w, p, File(f));
    }
  }

  // ---------- What callers get ----------

  ghost predicate RegisteredUnder(w: World, k: Key, db: nat) {
    k in w.registry && w.registry[k] == Ready(db)
  }

  /** What the step hands out or takes back, if anything. */
  ghost predicate HandedOut(w: World, s: Step, v: World) {
    match s
    case PollHit(_, f, accepted) =>
      && File(f) in w.registry && w.registry[File(f)].Ready? && v.registry == w.registry
      && v.handles == if accepted then w.handles + multiset{w.registry[File(f)].db} else w.handles
    case Lookup(key) =>
      && key in w.registry && w.registry[key].Ready? && v.registry == w.registry
      && v.handles == w.handles + multiset{w.registry[key].db}
    case Complete(o) =>
      && o in w.openers && w.openers[o].held.Some?
      && v.handles == w.handles + multiset{w.openers[o].held.value}
      && (w.openers[o].registryKey.Some? ==>
            RegisteredUnder(v, w.openers[o].registryKey.value, w.openers[o].held.value))
    case SharedFinish(o) =>
      && o in w.openers && w.openers[o].phase.BetweenLooks?
      && SharedHandedOut(w, SharedMemory(w.openers[o].phase.name), v)
    case Clone(db) => db in w.handles && v.handles == w.handles + multiset{db}
    case Release(db) => v.handles + multiset{db} == w.handles
    case _ => v.handles == w.handles
  }

  ghost predicate SharedHandedOut(w: World, key: Key, v: World) {
    && key in v.registry && v.registry[key].Ready? && v.handles == w.handles + multiset{v.registry[key].db}
    && (LiveEntry(w, key) ==> v.registry == w.registry)
  }

  /** What an opening step hands to its caller is registered under its key; an open that lost its reservation
      hands out its own object. Copies and releases are of what is in use, and no other step moves a handle. */
  lemma HandlesMove(w: World, s: Step)
    requires Enabled(w, s)
    ensures HandedOut(w, s, Next(w, s))
  {
  }

  /** After a failure or a drop nobody holds the opener's key, any idle opener can reserve it at once, and a
      dropped opener keeps no object alive. */
  lemma GivingUpFrees(w: World, s: Step, f: nat, p: nat)
    requires Enabled(w, s) && Safe(w) && (s.Fail? || s.Drop?) && Holds(w, s.opener, File(f))
    ensures var v := Next(w, s);
            && (forall o :: !Holds(v, o, File(f)))
            && (Idle(v, p) ==> Enabled(v, ReserveKey(p, f)))
            && (s.Drop? ==> forall db :: !Keeps(v, s.opener, db))
  {
    var v := Next(w, s);
    forall o ensures !Holds(v, o, File(f)) {
      if Holds(v, o, File(f)) { HoldsBefore(w, s, o, File(f)); }
    }
  }

  // ---------- The registry object ----------

  /** The critical sections of the source, each under one lock acquisition, as the steps of the opener
      that runs them. The set of databases with a strong reference is read through the weak pointers. */
  class DatabaseManager {
    var registry: map<Key, Entry>

    constructor ()
      ensures registry == EMPTY.registry
    {
      registry := map[];
    }

    /** The check-and-reserve at the start of `open_with_flags_async_internal`. */
    method Reserve(f: nat, live: set<nat>, ghost w: World, ghost o: nat) returns (found: Found)
      requires registry == w.registry && Safe(w) && Idle(w, o) && forall db :: db in live <==> Live(w, db)
      modifies this
      ensures found.Hit? ==>
        Enabled(w, PollHit(o, f, true)) && registry == w.registry && w.registry[File(f)] == Ready(found.db)
      ensures found.Busy? ==>
        && Enabled(w, PollBusy(o, f)) && registry == w.registry
        && exists p :: p != o && Holds(w, p, File(f)) && !w.openers[p].phase.Done?
      ensures found.Vacant? ==> Enabled(w, ReserveKey(o, f)) && registry == Next(w, ReserveKey(o, f)).registry
    {
      PollOutcome(w, o, f, live);
      var key := File(f);
      if key in registry {
        match registry[key]
        case Ready(db) =>
          if db in live {
            return Hit(db);
          }
          registry := registry[key := Opening];
        case Opening =>
          return Busy;
      } else {
        registry := registry[key := Opening];
      }
      found := Vacant;
    }

    /** Giving up, on error and when the opener's state is dropped: the step of the failure or of the drop,
        and all it takes away is the opener's own sentinel. */
    method Abandon(registryKey: Option<Key>, ghost w: World, ghost o: nat) returns (cleared: Option<Key>)
      requires registry == w.registry && Safe(w) && Enabled(w, Drop(o)) && w.openers[o].registryKey == registryKey
      modifies this
      ensures registry == Next(w, Drop(o)).registry
      ensures Enabled(w, Fail(o)) ==>
        registry == Next(w, Fail(o)).registry && cleared == Next(w, Fail(o)).openers[o].registryKey
      ensures forall k :: k in w.registry ==>
        if Holds(w, o, k) then w.registry[k].Opening? && k !in registry
        else k in registry && registry[k] == w.registry[k]
    {
      assert registryKey.Some? ==> Holds(w, o, registryKey.value);
      if registryKey.Some? {
        registry := registry - {registryKey.value};
      }
      cleared := None;
    }

    /** The end of a successful open: its step, in which only the opener's own sentinel becomes the database. */
    method Publish(registryKey: Option<Key>, db: nat, ghost w: World, ghost o: nat) returns (cleared: Option<Key>)
      requires registry == w.registry && Safe(w) && Enabled(w, Complete(o))
      requires w.openers[o].registryKey == registryKey && w.openers[o].held == Some(db)
      modifies this
      ensures registry == Next(w, Complete(o)).registry && cleared == Next(w, Complete(o)).openers[o].registryKey
      ensures forall k :: k in w.registry ==>
        && k in registry
        && (if Holds(w, o, k) then w.registry[k].Opening? && registry[k] == Ready(db) else registry[k] == w.registry[k])
    {
      assert registryKey.Some? ==> Holds(w, o, registryKey.value);
      if registryKey.Some? {
        registry := registry[registryKey.value := Ready(db)];
      }
      cleared := None;
    }

    /** The second look of `open_shared_memory`: its step, after which the caller has the database that is
        registered under the name. */
    method PublishShared(name: string, live: set<nat>, db: nat, ghost w: World, ghost o: nat) returns (result: nat)
      requires registry == w.registry && Enabled(w, SharedFinish(o)) && forall x :: x in live <==> Live(w, x)
      requires w.openers[o].phase == BetweenLooks(name) && w.openers[o].held == Some(db)
      modifies this
      ensures registry == Next(w, SharedFinish(o)).registry
      ensures Next(w, SharedFinish(o)).handles == w.handles + multiset{result}
      ensures SharedMemory(name) in registry && registry[SharedMemory(name)] == Ready(result)
    {
      var key := SharedMemory(name);
      if key in registry && registry[key].Ready? && registry[key].db in live {
        return registry[key].db;
      }
      registry := registry[key := Ready(db)];
      result := db;
    }
  }

  // ---------- Finished opens ----------

  ghost predicate Registered(w: World, db: nat) { exists k :: RegisteredUnder(w, k, db) }

  /** A finished open is the registered database of its file exactly when its
      reservation was not given up on the way. */
  lemma CompleteRegistersIff(run: seq<Step>, worlds: seq<World>, i: nat, o: nat)
    requires IsRun(run, worlds) && i < |run| && run[i] == Complete(o)
    ensures var db := worlds[i].openers[o].held.value;
            Registered(worlds[i + 1], db) <==> worlds[i].openers[o].registryKey.Some?
  {
    EveryRunSafe(run, worlds, i);
    EveryRunSafe(run, worlds, i + 1);
    var w, v := worlds[i], worlds[i + 1];
    if w.openers[o].registryKey.Some? {
      assert RegisteredUnder(v, w.openers[o].registryKey.value, w.openers[o].held.value);
    } else {
      assert OpenerPrivate(w, w.openers[o]);
    }
  }

  /** No open of the run so far has finished after giving its reservation up, or without one. */
  ghost predicate Keyed(run: seq<Step>, worlds: seq<World>, n: nat)
    requires IsRun(run, worlds) && n <= |run|
  {
    forall i, o :: 0 <= i < n && run[i] == Complete(o) ==> worlds[i].openers[o].registryKey.Some?
  }

  ghost predicate HandlesPublished(w: World) { forall db :: db in w.handles ==> db in w.published }

  /** A step keeps every database in use published, unless it is the end of an open without reservation. */
  lemma StepPublishes(w: World, s: Step)
    requires Enabled(w, s) && Safe(w) && HandlesPublished(w)
    ensures HandlesPublished(Next(w, s)) <==> (s.Complete? ==> w.openers[s.opener].registryKey.Some?)
  {
    if s.Complete? && w.openers[s.opener].registryKey.None? {
      assert OpenerPrivate(w, w.openers[s.opener]);
      assert w.openers[s.opener].held.value in Next(w, s).handles;
    }
  }

  lemma {:induction false} KeyedRunPublishes(run: seq<Step>, worlds: seq<World>, n: nat)
    requires IsRun(run, worlds) && n <= |run| && Keyed(run, worlds, n)
    ensures HandlesPublished(worlds[n])
  {
    if n > 0 {
      KeyedRunPublishes(run, worlds, n - 1);
      EveryRunSafe(run, worlds, n - 1);
      StepPublishes(worlds[n - 1], run[n - 1]);
    }
  }

  /** The databases that callers hold are all published, at every point of a run, exactly when no open of
      it has finished without its reservation. */
  lemma PublishedThroughoutIff(run: seq<Step>, worlds: seq<World>)
    requires IsRun(run, worlds)
    ensures (forall n :: 0 <= n < |worlds| ==> HandlesPublished(worlds[n])) <==> Keyed(run, worlds, |run|)
  {
    hide Next, HandlesPublished;
    if Keyed(run, worlds, |run|) {
      forall n | 0 <= n < |worlds| ensures HandlesPublished(worlds[n]) {
        KeyedRunPublishes(run, worlds, n);
      }
    } else {
      var i, o :| 0 <= i < |run| && run[i] == Complete(o) && worlds[i].openers[o].registryKey.None?;
      UnkeyedIsUnpublished(run, worlds, i, o);
    }
  }

  lemma UnkeyedIsUnpublished(run: seq<Step>, worlds: seq<World>, i: nat, o: nat)
    requires IsRun(run, worlds) && i < |run| && run[i] == Complete(o) && worlds[i].openers[o].registryKey.None?
    ensures !HandlesPublished(worlds[i]) || !HandlesPublished(worlds[i + 1])
  {
    hide Next, Safe, HandlesPublished;
    EveryRunSafe(run, worlds, i);
    if HandlesPublished(worlds[i]) { StepPublishes(worlds[i], run[i]); }
  }

  /** In such a run two callers that have opened one key hold one database. */
  lemma OneOpenDatabasePerKey(run: seq<Step>, worlds: seq<World>, a: nat, b: nat)
    requires IsRun(run, worlds) && Keyed(run, worlds, |run|)
    requires a in worlds[|run|].handles && b in worlds[|run|].handles
    ensures var w := worlds[|run|];
            && a in w.published && b in w.published
            && (w.published[a] == w.published[b] ==> a == b)
            && LiveEntry(w, w.published[a]) && w.registry[w.published[a]] == Ready(a)
  {
    KeyedRunPublishes(run, worlds, |run|);
    EveryRunSafe(run, worlds, |run|);
  }

  lemma Extend(run: seq<Step>, worlds: seq<World>, s: Step, next: World)
      returns (longer: seq<Step>, more: seq<World>)
    requires IsRun(run, worlds) && Enabled(worlds[|run|], s) && next == Next(worlds[|run|], s)
    ensures IsRun(longer, more) && longer == run + [s] && more[|longer|] == next
  {
    longer, more := run + [s], worlds + [next];
  }

  /** From a world without entry for file f, a new opener reserves f, builds its
      object and gets as far as the last phase. */
  lemma OpenAlmost(run: seq<Step>, worlds: seq<World>, o: nat, f: nat)
      returns (longer: seq<Step>, more: seq<World>)
    requires IsRun(run, worlds) && o !in worlds[|run|].openers && File(f) !in worlds[|run|].registry
    ensures IsRun(longer, more) && longer == run + [Start(o), ReserveKey(o, f), Create(o), Advance(o), Advance(o)]
    ensures var w := worlds[|run|];
            more[|longer|] == w.(registry := w.registry[File(f) := Opening],
                                 openers := w.openers[o := Opener(BootstrapMvStore, Some(File(f)), Some(w.nextDb))],
                                 nextDb := w.nextDb + 1)
  {
    var w := worlds[|run|];
    var reserved := w.registry[File(f) := Opening];
    var key := Some(File(f));
    var w1 := w.(openers := w.openers[o := Opener(Init, None, None)]);
    var w2 := w.(registry := reserved, openers := w.openers[o := Opener(Init, key, None)]);
    var w3 := w2.(openers := w.openers[o := Opener(ReadingHeader, key, Some(w.nextDb))], nextDb := w.nextDb + 1);
    var w4 := w3.(openers := w.openers[o := Opener(LoadingSchema, key, Some(w.nextDb))]);
    var w5 := w3.(openers := w.openers[o := Opener(BootstrapMvStore, key, Some(w.nextDb))]);
    assert w1.openers[o := Opener(Init, key, None)] == w2.openers;
    assert w2.openers[o := Opener(ReadingHeader, key, Some(w.nextDb))] == w3.openers;
    assert w3.openers[o := Opener(LoadingSchema, key, Some(w.nextDb))] == w4.openers;
    assert w4.openers[o := Opener(BootstrapMvStore, key, Some(w.nextDb))] == w5.openers;
    longer, more := Extend(run, worlds, Start(o), w1);
    longer, more := Extend(longer, more, ReserveKey(o, f), w2);
    longer, more := Extend(longer, more, Create(o), w3);
    longer, more := Extend(longer, more, Advance(o), w4);
    longer, more := Extend(longer, more, Advance(o), w5);
  }

  /** An undisturbed open of a file without entry ends with the caller holding the registered database. */
  lemma OpenCompletes(run: seq<Step>, worlds: seq<World>, o: nat, f: nat)
      returns (longer: seq<Step>, more: seq<World>)
    requires IsRun(run, worlds) && o !in worlds[|run|].openers && File(f) !in worlds[|run|].registry
    ensures IsRun(longer, more)
    ensures var w, v := worlds[|run|], more[|longer|];
            RegisteredUnder(v, File(f), w.nextDb) && v.handles == w.handles + multiset{w.nextDb} && v.nextDb > w.nextDb
  {
    longer, more := OpenAlmost(run, worlds, o, f);
    longer, more := Extend(longer, more, Complete(o), Next(more[|longer|], Complete(o)));
  }

  /** So does one of a shared-memory name that has none; and of two that look first and finish later, the second
      gets what the first has registered. */
  lemma SharedOpensMeet(run: seq<Step>, worlds: seq<World>, o: nat, p: nat, name: string)
      returns (longer: seq<Step>, more: seq<World>)
    requires IsRun(run, worlds) && o != p && o !in worlds[|run|].openers && p !in worlds[|run|].openers
    requires SharedMemory(name) !in worlds[|run|].registry
    ensures IsRun(longer, more)
    ensures longer == run + [SharedCreate(o, name), SharedCreate(p, name), SharedFinish(o), SharedFinish(p)]
    ensures var w, v := worlds[|run|], more[|longer|];
            && RegisteredUnder(v, SharedMemory(name), w.nextDb)
            && v.handles == w.handles + multiset{w.nextDb, w.nextDb}
            && v.openers == w.openers
  {
    var w, key := worlds[|run|], SharedMemory(name);
    var a, b := Opener(BetweenLooks(name), None, Some(w.nextDb)), Opener(BetweenLooks(name), None, Some(w.nextDb + 1));
    var w1 := w.(openers := w.openers[o := a], nextDb := w.nextDb + 1);
    var w2 := w.(openers := w.openers[o := a][p := b], nextDb := w.nextDb + 2);
    var w3 := World(w.registry[key := Ready(w.nextDb)], w.openers[p := b], w.handles + multiset{w.nextDb}, w.nextDb + 2,
                    w.published[w.nextDb := key]);
    var w4 := w3.(openers := w.openers, handles := w.handles + multiset{w.nextDb, w.nextDb});
    longer, more := Extend(run, worlds, SharedCreate(o, name), w1);
    longer, more := Extend(longer, more, SharedCreate(p, name), w2);
    assert w2.openers - {o} == w3.openers;
    longer, more := Extend(longer, more, SharedFinish(o), w3);
    assert w3.openers - {p} == w.openers;
    assert w3.handles + multiset{w.nextDb} == w4.handles;
    longer, more := Extend(longer, more, SharedFinish(p), w4);
  }

  /** Opener 0 fails in the last phase, gives its reservation up, polls again and
      finishes: its database is in use and unregistered. */
  lemma FailThenFinish() returns (run: seq<Step>, worlds: seq<World>)
    ensures IsRun(run, worlds) && |run| == 7 && run[1] == ReserveKey(0, 7)
    ensures worlds[7] == World(map[], map[0 := Opener(Done, None, Some(0))], multiset{0}, 1, map[])
  {
    run, worlds := OpenAlmost([], [EMPTY], 0, 7);
    var w6 := World(map[], map[0 := Opener(BootstrapMvStore, None, Some(0))], multiset{}, 1, map[]);
    var w7 := World(map[], map[0 := Opener(Done, None, Some(0))], multiset{0}, 1, map[]);
    assert Next(worlds[5], Fail(0)).registry == map[];
    run, worlds := Extend(run, worlds, Fail(0), w6);
    run, worlds := Extend(run, worlds, Complete(0), w7);
  }

  /** The run in which another opener then opens the same file: two live databases
      of file 7 are in use, and only the second is registered. */
  lemma RetryAfterFailure() returns (run: seq<Step>, worlds: seq<World>)
    ensures IsRun(run, worlds) && |run| == 13 && run[1] == ReserveKey(0, 7) && run[8] == ReserveKey(1, 7)
    ensures var w := worlds[13];
            0 in w.handles && 1 in w.handles && 0 !in w.published && 1 in w.published && w.published[1] == File(7)
  {
    run, worlds := FailThenFinish();
    run, worlds := OpenAlmost(run, worlds, 1, 7);
    run, worlds := Extend(run, worlds, Complete(1), Next(worlds[12], Complete(1)));
  }
}
