/** Any number of connections over shared databases: a schema change on an attached database is
    staged in its own connection, published when that database's commit succeeds, and never
    seen by anyone else before, nor under a reused index after. */
module Staging {
  import opened ConnectionState
  import Leftovers

  type ConnId = nat

  datatype World = World(shared: Shared, conns: map<ConnId, Conn>)

  /** Connection id holds the write lock of database d, which it has attached at index i. */
  predicate Writes(w: World, id: ConnId, i: nat, d: DbId) {
    id in w.conns && i in w.conns[id].writing && i in w.conns[id].attached && w.conns[id].attached[i] == d
  }

  /** The write lock of a database is exclusive. */
  predicate MayWrite(w: World, id: ConnId, i: nat)
    requires id in w.conns && i in w.conns[id].attached
  {
    var d := w.conns[id].attached[i];
    forall other, j :: other in w.conns && j in w.conns[other].writing && Writes(w, other, j, d) ==>
      other == id && j == i
  }

  datatype Event = Event(id: ConnId, op: Op)

  predicate CanStep(w: World, e: Event) {
    && e.id in w.conns
    && Enabled(w.conns[e.id], e.op, w.shared)
    && (e.op.Lock? && e.op.write ==> MayWrite(w, e.id, e.op.index))
  }

  function Next(w: World, e: Event): World
    requires CanStep(w, e)
  {
    var c := w.conns[e.id];
    World(SharedAfter(c, e.op, w.shared), w.conns[e.id := After(c, e.op, w.shared)])
  }

  predicate Run(w: World, run: seq<Event>)
    decreases |run|
  {
    run == [] || (CanStep(w, run[0]) && Run(Next(w, run[0]), run[1..]))
  }

  function End(w: World, run: seq<Event>): World
    requires Run(w, run)
    decreases |run|
  {
    if run == [] then w else End(Next(w, run[0]), run[1..])
  }

  predicate AttachedKnown(c: Conn, shared: Shared) {
    forall i :: i in c.attached ==> c.attached[i] in shared
  }

  /** No two attached indices hold the write lock of one database. */
  ghost predicate OneWriter(w: World) {
    forall a, i, b, j, d :: Writes(w, a, i, d) && Writes(w, b, j, d) ==> a == b && i == j
  }

  predicate Locks(c: Conn) { c.writing <= c.reading <= c.attached.Keys }

  ghost predicate WorldLocked(w: World) {
    && OneWriter(w)
    && forall id :: id in w.conns ==> Locks(w.conns[id]) && AttachedKnown(w.conns[id], w.shared)
  }

  /** Moreover schemas are staged under write locks only. */
  ghost predicate WorldGuarded(w: World) {
    WorldLocked(w) && forall id :: id in w.conns ==> Guarded(w.conns[id])
  }

  /** What a connection sees at an attached index. */
  function Sees(w: World, id: ConnId, i: nat): Schema
    requires id in w.conns && i in w.conns[id].attached && w.conns[id].attached[i] in w.shared
  {
    View(w.conns[id], w.shared, i)
  }

  /** Where every run starts. */
  lemma NewWorldGuarded(w: World)
    requires forall id :: id in w.conns ==> w.conns[id] == FRESH
    ensures WorldGuarded(w)
  {
  }

  // ---------- Locks, in every run ----------

  lemma KnownStays(c: Conn, op: Op, shared: Shared)
    requires AttachedKnown(c, shared) && Enabled(c, op, shared)
    ensures AttachedKnown(After(c, op, shared), SharedAfter(c, op, shared))
  {
    hide LastNamed, LastFrame, MarksOf, Edited, EnsuredTemp, SideEffect, RestoredTemp;
  }

  lemma LocksStay(c: Conn, op: Op, shared: Shared)
    requires Locks(c) && Enabled(c, op, shared)
    ensures Locks(After(c, op, shared))
  {
    hide LastNamed, LastFrame, MarksOf, Edited, View, EnsuredTemp, SideEffect, RestoredTemp;
  }

  /** A step gives its connection at most the lock it asks for, and moves no locked database. */
  lemma LocksMove(c: Conn, op: Op, shared: Shared, i: nat, d: DbId)
    requires Locks(c) && Enabled(c, op, shared)
    requires var n := After(c, op, shared); i in n.writing && i in n.attached && n.attached[i] == d
    ensures i in c.attached && c.attached[i] == d
    ensures i in c.writing || op == Lock(i, true)
  {
    hide LastNamed, LastFrame, MarksOf, Edited, View, EnsuredTemp, SideEffect, RestoredTemp;
  }

  lemma WritesBefore(w: World, e: Event, id: ConnId, i: nat, d: DbId)
    requires WorldLocked(w) && CanStep(w, e) && Writes(Next(w, e), id, i, d)
    ensures Writes(w, id, i, d) || (id == e.id && e.op == Lock(i, true))
    ensures id in w.conns && i in w.conns[id].attached && w.conns[id].attached[i] == d
  {
    hide After, SharedAfter, AttachedKnown;
    if id == e.id { LocksMove(w.conns[id], e.op, w.shared, i, d); }
  }

  lemma OneWriterStays(w: World, e: Event)
    requires WorldLocked(w) && CanStep(w, e)
    ensures OneWriter(Next(w, e))
  {
    hide After, SharedAfter, Locks, AttachedKnown, Enabled, Writes, Next;
    forall a, i, b, j, d | Writes(Next(w, e), a, i, d) && Writes(Next(w, e), b, j, d)
      ensures a == b && i == j
    {
      WritesBefore(w, e, a, i, d);
      WritesBefore(w, e, b, j, d);
      if e.op.Lock? && e.op.write {
        NewWriter(w, e, a, i, d);
        NewWriter(w, e, b, j, d);
      }
    }
  }

  /** After a lock step on database d, its only writer is the one that asked. */
  lemma NewWriter(w: World, e: Event, id: ConnId, i: nat, d: DbId)
    requires CanStep(w, e) && e.op.Lock? && e.op.write
    ensures e.op.index in w.conns[e.id].attached
    ensures w.conns[e.id].attached[e.op.index] == d && Writes(w, id, i, d) ==> id == e.id && i == e.op.index
  {
  }

  lemma StepKeepsLocked(w: World, e: Event)
    requires WorldLocked(w) && CanStep(w, e)
    ensures WorldLocked(Next(w, e))
  {
    hide After, Locks, Enabled, OneWriter;
    OneWriterStays(w, e);
    LocksStay(w.conns[e.id], e.op, w.shared);
    KnownStays(w.conns[e.id], e.op, w.shared);
    var n := Next(w, e);
    forall id | id in n.conns
      ensures Locks(n.conns[id]) && AttachedKnown(n.conns[id], n.shared)
    {
      if id != e.id { assert n.conns[id] == w.conns[id]; }
    }
  }

  /** In every run of any number of connections a database has one writer at most, and locks are held
      on attached databases only. */
  lemma {:induction false} EveryRunLocked(w: World, run: seq<Event>)
    requires WorldLocked(w) && Run(w, run)
    ensures WorldLocked(End(w, run))
    decreases |run|
  {
    hide WorldLocked, Next;
    if run != [] {
      StepKeepsLocked(w, run[0]);
      EveryRunLocked(Next(w, run[0]), run[1..]);
    }
  }

  // ---------- Staging under write locks ----------

  lemma StepGuardsIff(w: World, e: Event)
    requires WorldGuarded(w) && CanStep(w, e)
    ensures WorldGuarded(Next(w, e)) <==> Backed(w.conns[e.id], e.op)
  {
    hide After, Enabled, WorldLocked, Guarded, Backed;
    StepKeepsLocked(w, e);
    StepGuardedIff(w.conns[e.id], e.op, w.shared);
    var n := Next(w, e);
    assert n.conns[e.id] == After(w.conns[e.id], e.op, w.shared);
    forall id | id in n.conns && id != e.id ensures Guarded(n.conns[id]) {
      assert n.conns[id] == w.conns[id];
    }
  }

  predicate BackedRun(w: World, run: seq<Event>)
    requires Run(w, run)
    decreases |run|
  {
    run == [] || (Backed(w.conns[run[0].id], run[0].op) && BackedRun(Next(w, run[0]), run[1..]))
  }

  ghost predicate GuardedThroughout(w: World, run: seq<Event>)
    requires Run(w, run)
    decreases |run|
  {
    WorldGuarded(w) && (run == [] || GuardedThroughout(Next(w, run[0]), run[1..]))
  }

  /** Schemas stay staged under write locks all through a run exactly when no ROLLBACK TO in it
      brings one back for a database that is no longer locked. */
  lemma {:induction false} GuardedThroughoutIff(w: World, run: seq<Event>)
    requires WorldGuarded(w) && Run(w, run)
    ensures GuardedThroughout(w, run) <==> BackedRun(w, run)
    decreases |run|
  {
    hide WorldGuarded, Next, Backed;
    if run != [] {
      StepGuardsIff(w, run[0]);
      if WorldGuarded(Next(w, run[0])) { GuardedThroughoutIff(Next(w, run[0]), run[1..]); }
    }
  }

  // ---------- Non-interference ----------

  /** The step publishes a staged schema of database d. */
  predicate Publishes(w: World, e: Event, d: DbId)
    requires CanStep(w, e)
  {
    e.op.CommitAttached? && e.op.index in w.conns[e.id].staged && w.conns[e.id].attached[e.op.index] == d
  }

  /** The shared schemas are the same for some databases. */
  predicate Agree(s: Shared, t: Shared, dbs: set<DbId>) {
    s.Keys == t.Keys && forall d :: d in dbs && d in s ==> s[d] == t[d]
  }

  predicate Within(c: Conn, dbs: set<DbId>) { forall i :: i in c.attached ==> c.attached[i] in dbs }

  /** Connection id attaches no other databases than these, and nobody else publishes one of them. */
  ghost predicate Undisturbed(w: World, run: seq<Event>, id: ConnId, dbs: set<DbId>)
    requires Run(w, run)
    decreases |run|
  {
    run == [] ||
    (&& (if run[0].id == id then run[0].op.Attach? ==> run[0].op.db in dbs
         else forall d :: d in dbs ==> !Publishes(w, run[0], d))
     && Undisturbed(Next(w, run[0]), run[1..], id, dbs))
  }

  /** The steps of one connection. */
  function Own(run: seq<Event>, id: ConnId): seq<Event> {
    if run == [] then [] else (if run[0].id == id then [run[0]] else []) + Own(run[1..], id)
  }

  /** A step takes nothing from the shared schemas of databases that are not attached. */
  lemma StepAgrees(c: Conn, op: Op, s: Shared, t: Shared, dbs: set<DbId>)
    requires Enabled(c, op, s) && Agree(s, t, dbs) && Within(c, dbs) && (op.Attach? ==> op.db in dbs)
    ensures Enabled(c, op, t) && After(c, op, s) == After(c, op, t)
    ensures Agree(SharedAfter(c, op, s), SharedAfter(c, op, t), dbs)
  {
    hide Saved, Released, Refused, RolledBackTo, RolledBack, Aborted, DoneCommit, StartCommit, Detached, Locked, Edited,
         EnsuredTemp, SideEffect, PublishedAttached;
  }

  lemma StaysWithin(c: Conn, op: Op, shared: Shared, dbs: set<DbId>)
    requires Enabled(c, op, shared) && Within(c, dbs) && (op.Attach? ==> op.db in dbs)
    ensures Within(After(c, op, shared), dbs)
  {
    hide LastNamed, LastFrame, MarksOf, Edited, View, EnsuredTemp, SideEffect, RestoredTemp, RolledBackTemp,
         CommittedTemp;
  }

  lemma OthersAgree(w: World, e: Event, id: ConnId, alone: Shared, dbs: set<DbId>)
    requires CanStep(w, e) && e.id != id && id in w.conns && Agree(w.shared, alone, dbs)
    requires forall d :: d in dbs ==> !Publishes(w, e, d)
    ensures Agree(Next(w, e).shared, alone, dbs)
    ensures id in Next(w, e).conns && Next(w, e).conns[id] == w.conns[id]
  {
    hide After;
  }

  lemma OwnStep(w: World, e: Event, alone: Shared, dbs: set<DbId>)
    requires CanStep(w, e) && Agree(w.shared, alone, dbs) && Within(w.conns[e.id], dbs)
    requires e.op.Attach? ==> e.op.db in dbs
    ensures var solo := World(alone, map[e.id := w.conns[e.id]]);
            && CanStep(solo, e)
            && Next(solo, e).conns == map[e.id := Next(w, e).conns[e.id]]
            && Agree(Next(w, e).shared, Next(solo, e).shared, dbs) && Within(Next(w, e).conns[e.id], dbs)
  {
    hide After, Enabled, SharedAfter, Agree, Within;
    StepAgrees(w.conns[e.id], e.op, w.shared, alone, dbs);
    StaysWithin(w.conns[e.id], e.op, w.shared, dbs);
    var solo := World(alone, map[e.id := w.conns[e.id]]);
    assert solo.conns[e.id] == w.conns[e.id];
    if e.op.Lock? && e.op.write { SoloMayWrite(w, e, alone); }
  }

  lemma SoloMayWrite(w: World, e: Event, alone: Shared)
    requires CanStep(w, e) && e.op.Lock? && e.op.write
    ensures e.op.index in w.conns[e.id].attached
    ensures MayWrite(World(alone, map[e.id := w.conns[e.id]]), e.id, e.op.index)
  {
    var solo := World(alone, map[e.id := w.conns[e.id]]);
    forall j | j in solo.conns[e.id].writing && Writes(solo, e.id, j, w.conns[e.id].attached[e.op.index])
      ensures j == e.op.index
    {
      assert Writes(w, e.id, j, w.conns[e.id].attached[e.op.index]);
    }
  }

  /** Whatever the others do, as long as they publish none of the databases that a connection works
      with, its own steps alone are a run, and end in the same connection and with the same shared
      schemas of those databases: nothing staged elsewhere has reached it. */
  lemma {:induction false} NonInterference(w: World, run: seq<Event>, id: ConnId, alone: Shared, dbs: set<DbId>)
    requires Run(w, run) && id in w.conns && Within(w.conns[id], dbs) && Agree(w.shared, alone, dbs)
    requires Undisturbed(w, run, id, dbs)
    ensures var solo := World(alone, map[id := w.conns[id]]);
            && Run(solo, Own(run, id))
            && id in End(w, run).conns && Within(End(w, run).conns[id], dbs)
            && End(solo, Own(run, id)).conns == map[id := End(w, run).conns[id]]
            && Agree(End(w, run).shared, End(solo, Own(run, id)).shared, dbs)
    decreases |run|
  {
    hide Next, CanStep, Agree, Within, Publishes;
    if run != [] {
      var e, rest, next := run[0], run[1..], Next(w, run[0]);
      if e.id == id {
        OwnStep(w, e, alone, dbs);
        var solo := World(alone, map[id := w.conns[id]]);
        NextHas(w, e, id);
        NonInterference(next, rest, id, Next(solo, e).shared, dbs);
        assert Own(run, id)[0] == e && Own(run, id)[1..] == Own(rest, id);
        NextIs(solo, e);
      } else {
        OthersAgree(w, e, id, alone, dbs);
        NonInterference(next, rest, id, alone, dbs);
        assert Own(run, id) == Own(rest, id);
      }
    }
  }

  lemma NextHas(w: World, e: Event, id: ConnId)
    requires CanStep(w, e) && id in w.conns
    ensures id in Next(w, e).conns
  {
  }

  lemma NextIs(w: World, e: Event)
    requires CanStep(w, e)
    ensures World(Next(w, e).shared, Next(w, e).conns) == Next(w, e)
  {
  }

  /** In particular it sees the same schemas as it would alone. */
  lemma SeesAsAlone(w: World, run: seq<Event>, id: ConnId, dbs: set<DbId>, i: nat)
    requires Run(w, run) && id in w.conns && Within(w.conns[id], dbs) && Undisturbed(w, run, id, dbs)
    requires id in End(w, run).conns && i in End(w, run).conns[id].attached
    requires End(w, run).conns[id].attached[i] in End(w, run).shared
    ensures var solo := World(w.shared, map[id := w.conns[id]]);
            && Run(solo, Own(run, id))
            && var end := End(solo, Own(run, id));
               && id in end.conns && i in end.conns[id].attached && end.conns[id].attached[i] in end.shared
               && Sees(end, id, i) == Sees(End(w, run), id, i)
  {
    hide Run, End, Own, Undisturbed;
    NonInterference(w, run, id, w.shared, dbs);
    var solo := World(w.shared, map[id := w.conns[id]]);
    assert End(solo, Own(run, id)).conns[id] == End(w, run).conns[id];
  }

  // ---------- Publishing ----------

  /** Publishing shows every connection that has the database attached exactly what the committing
      connection saw, except where one has a schema of its own staged; that one does not hold the
      write lock, and so is not guarded. */
  lemma PublishedToAll(w: World, e: Event, d: DbId, other: ConnId, j: nat)
    requires WorldLocked(w) && CanStep(w, e) && Publishes(w, e, d)
    requires other in w.conns && j in w.conns[other].attached && w.conns[other].attached[j] == d
    ensures var n := Next(w, e);
            var own := (other, j) != (e.id, e.op.index) && j in w.conns[other].staged;
            && other in n.conns && j in n.conns[other].attached && n.conns[other].attached[j] == d && d in n.shared
            && Sees(n, other, j) == (if own then w.conns[other].staged[j] else Sees(w, e.id, e.op.index))
            && (own ==> j !in w.conns[other].writing && !Guarded(w.conns[other]))
  {
    assert Writes(w, e.id, e.op.index, d);
    assert j in w.conns[other].writing ==> Writes(w, other, j, d);
  }

  /** Connection id writes database d at index i all through the run. */
  predicate WritesThroughout(w: World, run: seq<Event>, id: ConnId, i: nat, d: DbId)
    requires Run(w, run)
    decreases |run|
  {
    Writes(w, id, i, d) && (run == [] || WritesThroughout(Next(w, run[0]), run[1..], id, i, d))
  }

  lemma WriterStops(w: World, e: Event, id: ConnId, i: nat, d: DbId)
    requires WorldLocked(w) && CanStep(w, e) && Writes(w, id, i, d) && Publishes(w, e, d)
    ensures !Writes(Next(w, e), id, i, d)
  {
    assert Writes(w, e.id, e.op.index, d);
    assert e.id == id && e.op.index == i;
  }

  lemma FrozenStep(w: World, e: Event, id: ConnId, i: nat, d: DbId)
    requires WorldLocked(w) && CanStep(w, e) && d in w.shared
    requires Writes(w, id, i, d) && Writes(Next(w, e), id, i, d)
    ensures d in Next(w, e).shared && Next(w, e).shared[d] == w.shared[d]
  {
    hide After, WorldLocked, Writes;
    if Publishes(w, e, d) { WriterStops(w, e, id, i, d); }
  }

  /** While a connection holds the write lock of a database, its shared schema stands still. */
  lemma {:induction false} WriterFreezesShared(w: World, run: seq<Event>, id: ConnId, i: nat, d: DbId)
    requires WorldLocked(w) && Run(w, run) && d in w.shared
    requires WritesThroughout(w, run, id, i, d)
    ensures d in End(w, run).shared && End(w, run).shared[d] == w.shared[d]
    decreases |run|
  {
    hide WorldLocked, Next, CanStep, Writes;
    if run != [] {
      FrozenStep(w, run[0], id, i, d);
      StepKeepsLocked(w, run[0]);
      WriterFreezesShared(Next(w, run[0]), run[1..], id, i, d);
    }
  }

  // ---------- Rollback ----------

  /** After a full rollback, whether asked for or forced by a failing statement, a connection sees
      exactly the shared schemas, whatever it has been through. */
  lemma RollbackSeesShared(w: World, e: Event, i: nat)
    requires CanStep(w, e) && (e.op.Abort? || (e.op.Rollback? && !w.conns[e.id].autoCommit))
    requires i in w.conns[e.id].attached && w.conns[e.id].attached[i] in w.shared
    ensures var n := Next(w, e);
            && n.shared == w.shared
            && i in n.conns[e.id].attached && n.conns[e.id].attached[i] in n.shared
            && Sees(n, e.id, i) == w.shared[w.conns[e.id].attached[i]]
  {
  }

  // ---------- Reused indices ----------

  /** No open savepoint has a schema staged at the index. */
  predicate Unsaved(c: Conn, i: nat) {
    forall k :: 0 <= k < |c.frames| ==> i !in c.frames[k].staged
  }

  /** Nor has the connection itself. */
  predicate Clean(c: Conn, i: nat) { i !in c.staged && Unsaved(c, i) }

  /** A step takes its staged schemas and frames from those there were, except where it stages one. */
  lemma StaysClean(c: Conn, op: Op, shared: Shared, i: nat)
    requires Enabled(c, op, shared) && Clean(c, i) && !(op.Ddl? && op.index == i)
    ensures Clean(After(c, op, shared), i)
  {
    hide Saved, Released, Refused, RolledBackTo, Edited, View, EnsuredTemp, SideEffect, CommittedTemp, RolledBackTemp,
         Clean;
    match op
    case Savepoint(name) => SavepointsStayClean(c, name, i);
    case Release(name) => SavepointsStayClean(c, name, i);
    case ReleaseRefused(name) => SavepointsStayClean(c, name, i);
    case RollbackTo(name) => SavepointsStayClean(c, name, i);
    case _ => FewerStayClean(c, After(c, op, shared), i);
  }

  lemma SavepointsStayClean(c: Conn, name: string, i: nat)
    requires Clean(c, i)
    ensures Clean(Saved(c, name), i) && Clean(Released(c, name), i)
    ensures Clean(Refused(c, name), i) && Clean(RolledBackTo(c, name), i)
  {
    hide LastNamed, LastFrame, MarksOf, RestoredTemp, Ends;
  }

  lemma FewerStayClean(c: Conn, n: Conn, i: nat)
    requires Clean(c, i) && (n.frames == c.frames || n.frames == []) && (i in n.staged ==> i in c.staged)
    ensures Clean(n, i)
  {
  }

  predicate NoDdl(run: seq<Event>, id: ConnId, i: nat) {
    forall k :: 0 <= k < |run| ==> !(run[k].id == id && run[k].op.Ddl? && run[k].op.index == i)
  }

  lemma {:induction false} RunStaysClean(w: World, run: seq<Event>, id: ConnId, i: nat)
    requires Run(w, run) && id in w.conns && Clean(w.conns[id], i) && NoDdl(run, id, i)
    ensures id in End(w, run).conns && Clean(End(w, run).conns[id], i)
    decreases |run|
  {
    hide After, Enabled, Clean;
    if run != [] {
      if run[0].id == id { StaysClean(w.conns[id], run[0].op, w.shared, i); }
      assert NoDdl(run[1..], id, i);
      RunStaysClean(Next(w, run[0]), run[1..], id, i);
    }
  }

  /** The database at the index is attached and not locked, so that DETACH succeeds. */
  predicate Free(c: Conn, i: nat) { c.phase.Idle? && i in c.attached && i !in c.reading && i !in c.writing }

  /** After DETACH of an index that no open savepoint has a schema staged at, through any later run of
      any connections, failing statements included, whatever database comes to be attached there is
      seen as it is shared, until the connection changes its schema itself. */
  lemma ReusedIndexIsFresh(w: World, id: ConnId, i: nat, run: seq<Event>)
    requires id in w.conns && Free(w.conns[id], i) && Unsaved(w.conns[id], i)
    requires Run(Next(w, Event(id, Detach(i))), run) && NoDdl(run, id, i)
    ensures var end := End(Next(w, Event(id, Detach(i))), run);
            && id in end.conns
            && (i in end.conns[id].attached && end.conns[id].attached[i] in end.shared ==>
                  Sees(end, id, i) == end.shared[end.conns[id].attached[i]])
  {
    hide Run, End;
    RunStaysClean(Next(w, Event(id, Detach(i))), run, id, i);
  }

  /** A connection that has no savepoint open on staged schemas of databases it no longer locks. */
  lemma GoodIsUnsaved(c: Conn, i: nat)
    requires Good(c) && Free(c, i)
    ensures Unsaved(c, i)
  {
    forall k | 0 <= k < |c.frames| ensures i !in c.frames[k].staged {
      assert FrameGood(c.frames[k], k, c);
    }
  }

  /** DETACH of index i, ATTACH of database d there, ROLLBACK TO a savepoint. */
  function Reused(c: Conn, i: nat, d: DbId, name: string): Conn {
    var freed := Detached(c, i);
    RolledBackTo(freed.(attached := freed.attached[i := d]), name)
  }

  /** ROLLBACK TO name finds a savepoint and, in its frame, a schema staged at the index. */
  predicate Shows(c: Conn, i: nat, name: string) {
    && LastNamed(c.marks, name) >= 0 && LastFrame(c.frames, name) >= 0
    && i in c.frames[LastFrame(c.frames, name)].staged
  }

  /** For every connection: what a reused index shows after ROLLBACK TO is the new database's schema
      unless the savepoint has one staged there, and then it is that one. */
  lemma ReusedShows(c: Conn, shared: Shared, i: nat, d: DbId, name: string)
    requires Free(c, i) && d in shared
    ensures var r := Reused(c, i, d, name);
            && i in r.attached && r.attached[i] == d
            && View(r, shared, i) ==
               if Shows(c, i, name) then c.frames[LastFrame(c.frames, name)].staged[i] else shared[d]
  {
    hide LastNamed, LastFrame, MarksOf, RestoredTemp;
  }

  lemma Front(w: World, e: Event, rest: seq<Event>)
    requires CanStep(w, e) && Run(Next(w, e), rest)
    ensures Run(w, [e] + rest) && End(w, [e] + rest) == End(Next(w, e), rest)
  {
    assert ([e] + rest)[1..] == rest;
  }

  /** The steps of `Reused` can all be taken, and change nothing shared. */
  lemma ReuseRun(w: World, id: ConnId, i: nat, d: DbId, name: string) returns (run: seq<Event>)
    requires id in w.conns && Free(w.conns[id], i) && i > TEMP_DB_ID && d in w.shared
    ensures run == [Event(id, Detach(i)), Event(id, Attach(i, d)), Event(id, RollbackTo(name))]
    ensures Run(w, run)
    ensures End(w, run) == World(w.shared, w.conns[id := Reused(w.conns[id], i, d, name)])
  {
    hide LastNamed, LastFrame, MarksOf, RolledBackTo;
    var c := w.conns[id];
    var freed := Detached(c, i);
    var filled := freed.(attached := freed.attached[i := d]);
    var w1 := World(w.shared, w.conns[id := freed]);
    var w2 := World(w.shared, w.conns[id := filled]);
    var w3 := World(w.shared, w.conns[id := Reused(c, i, d, name)]);
    var detach, attach, back := Event(id, Detach(i)), Event(id, Attach(i, d)), Event(id, RollbackTo(name));
    assert w1 == Next(w, detach);
    assert w2 == Next(w1, attach) by { assert w1.conns[id := filled] == w2.conns; }
    assert w3 == Next(w2, back) by { assert w2.conns[id := Reused(c, i, d, name)] == w3.conns; }
    Front(w2, back, []);
    Front(w1, attach, [back]);
    Front(w, detach, [attach, back]);
    run := [detach] + ([attach] + ([back] + []));
  }

  // ---------- Exactly when a reused index is safe ----------

  /** Steps that publish nothing and ask for no write lock. */
  predicate Solo(op: Op) { !op.CommitAttached? && !op.Lock? && !op.Ddl? }

  function Events(id: ConnId, ops: seq<Op>): (run: seq<Event>)
    ensures |run| == |ops| && forall k :: 0 <= k < |ops| ==> run[k] == Event(id, ops[k])
  {
    seq(|ops|, k requires 0 <= k < |ops| => Event(id, ops[k]))
  }

  lemma {:induction false} Lift(w: World, id: ConnId, ops: seq<Op>)
    requires id in w.conns && Leftovers.CanRun(w.conns[id], ops, w.shared)
    requires forall k :: 0 <= k < |ops| ==> Solo(ops[k])
    ensures Run(w, Events(id, ops))
    ensures End(w, Events(id, ops)) == World(w.shared, w.conns[id := Leftovers.Ran(w.conns[id], ops, w.shared)])
    decreases |ops|
  {
    hide After, Enabled;
    if ops == [] {
      assert w.conns[id := w.conns[id]] == w.conns;
    } else {
      var e, next := Event(id, ops[0]), After(w.conns[id], ops[0], w.shared);
      assert Next(w, e) == World(w.shared, w.conns[id := next]);
      Lift(Next(w, e), id, ops[1..]);
      assert Events(id, ops) == [e] + Events(id, ops[1..]);
      Front(w, e, Events(id, ops[1..]));
      assert Next(w, e).conns[id := Leftovers.Ran(next, ops[1..], w.shared)]
          == w.conns[id := Leftovers.Ran(next, ops[1..], w.shared)];
    }
  }

  /** ATTACH at the freed index and ROLLBACK TO the frame that has come to the top. */
  lemma TopShows(c: Conn, shared: Shared, i: nat, d: DbId, k: nat)
    requires i !in c.attached && i > TEMP_DB_ID && d in shared && k < |c.frames| && i in c.frames[k].staged
    ensures var name := c.frames[k].mark.name;
            var top := Leftovers.Marked(c, name).(frames := c.frames[..k + 1]);
            var ops := [Attach(i, d), RollbackTo(name)];
            && Leftovers.CanRun(top, ops, shared)
            && var end := Leftovers.Ran(top, ops, shared);
               && i in end.attached && end.attached[i] == d
               && i in end.staged && end.staged[i] == c.frames[k].staged[i]
  {
    var name := c.frames[k].mark.name;
    var top := Leftovers.Marked(c, name).(frames := c.frames[..k + 1]);
    var filled := top.(attached := top.attached[i := d]);
    assert LastFrame(filled.frames, name) == k by { assert filled.frames[k].mark.name == name; }
    assert LastNamed(filled.marks, name) == 0;
    SavepointSteps(filled, shared, name);
    assert RolledBackTo(filled, name).staged == c.frames[k].staged;
    hide LastNamed, LastFrame, MarksOf, RolledBackTo;
    Leftovers.Front(filled, RollbackTo(name), [], shared);
    Leftovers.Front(top, Attach(i, d), [RollbackTo(name)], shared);
  }

  /** Whatever the connection has been through, each open frame is reached by a run without DDL, and a
      database attached at the index then shows what that frame has staged there. */
  lemma EverySavedSchemaShows(w: World, id: ConnId, i: nat, d: DbId, k: nat) returns (run: seq<Event>)
    requires id in w.conns && d in w.shared
    requires var c := w.conns[id];
             && c.phase.Idle? && i !in c.attached && i > TEMP_DB_ID && k < |c.frames| && i in c.frames[k].staged
    ensures Run(w, run) && NoDdl(run, id, i)
    ensures var end := End(w, run);
            && end.shared == w.shared
            && id in end.conns && i in end.conns[id].attached && end.conns[id].attached[i] == d
            && Sees(end, id, i) == w.conns[id].frames[k].staged[i]
  {
    hide After, Leftovers.CanRun, Leftovers.Ran, Leftovers.Marked, Run, End;
    var c := w.conns[id];
    var name := c.frames[k].mark.name;
    var ops := Leftovers.FrameIsReached(c, k, w.shared);
    TopShows(c, w.shared, i, d, k);
    Leftovers.Then(c, ops, [Attach(i, d), RollbackTo(name)], w.shared);
    var all := ops + [Attach(i, d), RollbackTo(name)];
    forall j | 0 <= j < |all| ensures Solo(all[j]) {
      if j < |ops| { assert Leftovers.Quiet(ops[j]); }
    }
    Lift(w, id, all);
    run := Events(id, all);
  }

  /** The connection sees at the index what is shared, if it has a database there. */
  predicate Fresh(w: World, id: ConnId, i: nat) {
    && id in w.conns
    && (i in w.conns[id].attached && w.conns[id].attached[i] in w.shared ==>
          Sees(w, id, i) == w.shared[w.conns[id].attached[i]])
  }

  /** In every run, until the connection changes the schema there itself. */
  ghost predicate StaysFresh(w: World, id: ConnId, i: nat) {
    forall run :: Run(w, run) && NoDdl(run, id, i) ==> Fresh(End(w, run), id, i)
  }

  lemma UnsavedStaysFresh(w: World, id: ConnId, i: nat)
    requires id in w.conns && Clean(w.conns[id], i)
    ensures StaysFresh(w, id, i)
  {
    forall run | Run(w, run) && NoDdl(run, id, i) ensures Fresh(End(w, run), id, i) {
      RunStaysClean(w, run, id, i);
    }
  }

  /** For every connection that has detached an index: whatever the shared schemas are, every later run shows
      at that index what is shared there, if and only if no open savepoint has a schema staged at it. */
  lemma ReusedIndexSafeIff(conns: map<ConnId, Conn>, id: ConnId, i: nat)
    requires id in conns && conns[id].phase.Idle? && i > TEMP_DB_ID
    requires i !in conns[id].attached && i !in conns[id].staged
    ensures (forall shared: Shared :: StaysFresh(World(shared, conns), id, i)) <==> Unsaved(conns[id], i)
  {
    var c := conns[id];
    if Unsaved(c, i) {
      forall shared: Shared ensures StaysFresh(World(shared, conns), id, i) {
        UnsavedStaysFresh(World(shared, conns), id, i);
      }
    } else {
      var k :| 0 <= k < |c.frames| && i in c.frames[k].staged;
      var saved := c.frames[k].staged[i];
      var w := World(map[0 := saved.(version := saved.version + 1)], conns);
      var run := EverySavedSchemaShows(w, id, i, 0, k);
      assert !Fresh(End(w, run), id, i);
      assert !StaysFresh(w, id, i);
    }
  }

  // ---------- One script ----------

  /** What one script shows, from every connection: a failing statement, DETACH, ATTACH and ROLLBACK TO.
      It shows the savepoint's schema if the main database was not being written, for otherwise the pager
      has forgotten the savepoint; that is not out of reach then either, only by a longer run. */
  lemma StaleIff(c: Conn, shared: Shared, i: nat, d: DbId, name: string)
    requires i in c.attached && d in shared
    ensures Free(Aborted(c), i)
    ensures var r := Reused(Aborted(c), i, d, name);
            && i in r.attached && r.attached[i] == d
            && View(r, shared, i) ==
               if !c.mainWrites && Shows(c, i, name) then c.frames[LastFrame(c.frames, name)].staged[i] else shared[d]
  {
    hide LastNamed, LastFrame, MarksOf, Reused;
    ReusedShows(Aborted(c), shared, i, d, name);
    assert LastNamed([], name) == -1;
  }

  const T := Define("t", "create table t (x)")

  const DATABASES: Shared := map[0 := EMPTY, 1 := EMPTY]

  function Alone(c: Conn): World { World(DATABASES, map[0 := c]) }

  /** A connection that has attached database 0, begun a transaction and locked it for writing. */
  const WRITING := FRESH.(autoCommit := false, attached := map[2 := 0], reading := {2}, writing := {2})

  /** The same after CREATE TABLE t and SAVEPOINT s. */
  const SAVING := WRITING.(staged := map[2 := Edited(EMPTY, T)], marks := [Mark("s", false)],
                           frames := [Frame(Mark("s", false), FRESH.temp.live, map[2 := Edited(EMPTY, T)])])

  lemma StepAlone(c: Conn, op: Op, n: Conn, rest: seq<Event>)
    requires Enabled(c, op, DATABASES) && After(c, op, DATABASES) == n && !op.CommitAttached?
    requires op.Lock? ==> c.writing == {}
    requires Run(Alone(n), rest)
    ensures Run(Alone(c), [Event(0, op)] + rest) && End(Alone(c), [Event(0, op)] + rest) == End(Alone(n), rest)
  {
    hide After, Enabled;
    assert Next(Alone(c), Event(0, op)).conns == map[0 := n];
    Front(Alone(c), Event(0, op), rest);
  }

  lemma WritingIsReached(rest: seq<Event>) returns (run: seq<Event>)
    requires Run(Alone(WRITING), rest)
    ensures run == [Event(0, Attach(2, 0)), Event(0, Begin), Event(0, Lock(2, true))] + rest
    ensures Run(Alone(FRESH), run) && End(Alone(FRESH), run) == End(Alone(WRITING), rest)
  {
    hide LastNamed, MarksOf, View, Run, End;
    var attached := FRESH.(attached := map[2 := 0]);
    var begun := attached.(autoCommit := false);
    StepAlone(begun, Lock(2, true), WRITING, rest);
    var run1 := [Event(0, Lock(2, true))] + rest;
    StepAlone(attached, Begin, begun, run1);
    var run2 := [Event(0, Begin)] + run1;
    StepAlone(FRESH, Attach(2, 0), attached, run2);
    run := [Event(0, Attach(2, 0))] + run2;
  }

  lemma SavingIsReached(rest: seq<Event>) returns (run: seq<Event>)
    requires Run(Alone(SAVING), rest)
    ensures run == [Event(0, Ddl(2, T)), Event(0, Savepoint("s"))] + rest
    ensures Run(Alone(WRITING), run) && End(Alone(WRITING), run) == End(Alone(SAVING), rest)
  {
    hide LastNamed, MarksOf, Run, End, Edited;
    var staged := WRITING.(staged := map[2 := Edited(EMPTY, T)]);
    assert WRITING.staged[2 := Edited(EMPTY, T)] == staged.staged;
    assert WRITING.marks + [Mark("s", false)] == SAVING.marks;
    assert WRITING.frames + [Frame(Mark("s", false), FRESH.temp.live, staged.staged)] == SAVING.frames;
    StepAlone(staged, Savepoint("s"), SAVING, rest);
    var run1 := [Event(0, Savepoint("s"))] + rest;
    StepAlone(WRITING, Ddl(2, T), staged, run1);
    run := [Event(0, Ddl(2, T))] + run1;
  }

  lemma SavingShows()
    ensures Shows(SAVING, 2, "s") && LastFrame(SAVING.frames, "s") == 0 && Edited(EMPTY, T) != EMPTY
  {
    assert SAVING.frames[0].mark.name == "s" && SAVING.marks[0].name == "s";
    assert "t" in Edited(EMPTY, T).objects;
  }

  /** From a new connection: ATTACH of database 0, BEGIN, CREATE TABLE t in it, SAVEPOINT s, a statement that
      fails, DETACH, ATTACH of database 1, ROLLBACK TO s. The new database is empty and shows a table t. */
  lemma StaleExample() returns (run: seq<Event>)
    ensures run == Events(0, [Attach(2, 0), Begin, Lock(2, true), Ddl(2, T), Savepoint("s"), Abort,
                              Detach(2), Attach(2, 1), RollbackTo("s")])
    ensures Run(Alone(FRESH), run)
    ensures var end := End(Alone(FRESH), run);
            && end.shared == DATABASES && 0 in end.conns && 2 in end.conns[0].attached && end.conns[0].attached[2] == 1
            && Sees(end, 0, 2) == Edited(EMPTY, T) != end.shared[1]
  {
    hide After, Run, End, Reused, Edited, LastNamed, LastFrame, Shows;
    StaleIff(SAVING, DATABASES, 2, 1, "s");
    SavingShows();
    var failed := Aborted(SAVING);
    var reuse := ReuseRun(Alone(failed), 0, 2, 1, "s");
    EndSteps(SAVING, DATABASES);
    StepAlone(SAVING, Abort, failed, reuse);
    var saved := SavingIsReached([Event(0, Abort)] + reuse);
    run := WritingIsReached(saved);
  }
}
