/** What the shared schema of a database has become: the edits of the transactions that were published for it,
    those that savepoints have not undone, one after the other in the order of their commits. */
module History {
  import opened ConnectionState
  import opened Staging

  function EditAll(s: Schema, edits: seq<Edit>): Schema {
    if edits == [] then s else Edited(EditAll(s, edits[..|edits| - 1]), edits[|edits| - 1])
  }

  lemma {:induction false} EditConcat(s: Schema, a: seq<Edit>, b: seq<Edit>)
    ensures EditAll(s, a + b) == EditAll(EditAll(s, a), b)
  {
    if b == [] {
      assert a + b == a;
    } else {
      assert (a + b)[..|a + b| - 1] == a + b[..|b| - 1];
      EditConcat(s, a, b[..|b| - 1]);
    }
  }

  lemma EditOne(s: Schema, a: seq<Edit>, e: Edit)
    ensures EditAll(s, a + [e]) == Edited(EditAll(s, a), e)
  {
    assert (a + [e])[..|a|] == a;
  }

  // ---------- The edits behind the staged schemas ----------

  /** For each index with a staged schema the edits that made it, now and at each open savepoint. */
  datatype Trace = Trace(staged: map<nat, seq<Edit>>, frames: seq<map<nat, seq<Edit>>>)

  const NOTHING := Trace(map[], [])

  predicate Shaped(t: Trace, c: Conn) {
    && t.staged.Keys == c.staged.Keys
    && |t.frames| == |c.frames|
    && forall k :: 0 <= k < |c.frames| ==> t.frames[k].Keys == c.frames[k].staged.Keys
  }

  /** ROLLBACK TO finds the savepoint on both stacks. */
  predicate Found(c: Conn, name: string) { LastNamed(c.marks, name) >= 0 && LastFrame(c.frames, name) >= 0 }

  /** DDL adds an edit, a savepoint keeps a copy, ROLLBACK TO goes back to one, and what is no longer staged
      is forgotten. */
  function TraceAfter(t: Trace, c: Conn, op: Op, shared: Shared): Trace
    requires Enabled(c, op, shared) && Shaped(t, c)
  {
    var n := After(c, op, shared);
    var staged :=
      match op
      case Ddl(i, e) => t.staged[i := (if i in t.staged then t.staged[i] else []) + [e]]
      case RollbackTo(name) => if Found(c, name) then t.frames[LastFrame(c.frames, name)] else t.staged
      case _ => t.staged - (t.staged.Keys - n.staged.Keys);
    var frames :=
      if op.Savepoint? then t.frames + [t.staged]
      else if |n.frames| <= |t.frames| then t.frames[..|n.frames|] else t.frames;
    Trace(staged, frames)
  }

  predicate Shrunk(c: Conn, n: Conn) { |n.frames| <= |c.frames| && n.frames == c.frames[..|n.frames|] }

  lemma SavepointsShrink(c: Conn, name: string)
    ensures Shrunk(c, Released(c, name)) && Shrunk(c, Refused(c, name)) && Shrunk(c, RolledBackTo(c, name))
  {
    hide LastNamed, LastFrame, MarksOf, RestoredTemp, Ends;
  }

  /** Only SAVEPOINT adds a frame; every other step leaves a prefix. */
  lemma FramesShrink(c: Conn, op: Op, shared: Shared)
    requires Enabled(c, op, shared) && !op.Savepoint?
    ensures Shrunk(c, After(c, op, shared))
  {
    hide Released, Refused, RolledBackTo, Edited, View, EnsuredTemp, SideEffect, CommittedTemp, RolledBackTemp;
    match op
    case Release(name) => SavepointsShrink(c, name);
    case ReleaseRefused(name) => SavepointsShrink(c, name);
    case RollbackTo(name) => SavepointsShrink(c, name);
    case _ =>
  }

  /** Only DDL and ROLLBACK TO stage anything. */
  lemma StagedShrinks(c: Conn, op: Op, shared: Shared)
    requires Enabled(c, op, shared) && !op.Ddl? && !op.RollbackTo?
    ensures var n := After(c, op, shared);
            n.staged.Keys <= c.staged.Keys && forall i :: i in n.staged ==> n.staged[i] == c.staged[i]
  {
    hide LastNamed, LastFrame, MarksOf, EnsuredTemp, SideEffect, CommittedTemp, RolledBackTemp, Ends;
  }

  lemma RollbackToStages(c: Conn, name: string, shared: Shared)
    requires c.phase.Idle?
    ensures var n := After(c, RollbackTo(name), shared);
            && n.staged == (if Found(c, name) then c.frames[LastFrame(c.frames, name)].staged else c.staged)
            && n.attached == c.attached && n.writing == c.writing
  {
    SavepointSteps(c, shared, name);
    hide After, LastNamed, LastFrame, MarksOf, RestoredTemp;
  }

  lemma DdlStages(c: Conn, i: nat, e: Edit, shared: Shared)
    requires Enabled(c, Ddl(i, e), shared)
    ensures var n := After(c, Ddl(i, e), shared);
            n.staged == c.staged[i := Edited(View(c, shared, i), e)] && n.attached == c.attached && n.frames == c.frames
  {
    hide LastNamed, MarksOf, Edited;
  }

  lemma ShapedSavepoint(t: Trace, c: Conn, name: string, shared: Shared)
    requires c.phase.Idle? && Shaped(t, c)
    ensures Shaped(TraceAfter(t, c, Savepoint(name), shared), After(c, Savepoint(name), shared))
  {
    SavepointSteps(c, shared, name);
    hide After;
    assert t.staged.Keys - c.staged.Keys == {};
  }

  lemma StagedKeys(t: Trace, c: Conn, op: Op, shared: Shared)
    requires Enabled(c, op, shared) && Shaped(t, c)
    ensures TraceAfter(t, c, op, shared).staged.Keys == After(c, op, shared).staged.Keys
  {
    if op.RollbackTo? {
      RollbackToStages(c, op.name, shared);
    } else if op.Ddl? {
      DdlStages(c, op.index, op.edit, shared);
    } else {
      StagedShrinks(c, op, shared);
    }
    hide After, Enabled, LastNamed, LastFrame, MarksOf;
  }

  lemma ShapedStep(t: Trace, c: Conn, op: Op, shared: Shared)
    requires Enabled(c, op, shared) && Shaped(t, c)
    ensures Shaped(TraceAfter(t, c, op, shared), After(c, op, shared))
  {
    hide After;
    if op.Savepoint? {
      ShapedSavepoint(t, c, op.name, shared);
    } else {
      hide LastNamed, LastFrame, MarksOf;
      FramesShrink(c, op, shared);
      StagedKeys(t, c, op, shared);
      var n, u := After(c, op, shared), TraceAfter(t, c, op, shared);
      forall k | 0 <= k < |n.frames| ensures u.frames[k].Keys == n.frames[k].staged.Keys {
        assert u.frames[k] == t.frames[k] && n.frames[k] == c.frames[k];
      }
    }
  }

  // ---------- Staged schemas are edits of what is shared ----------

  /** The schema is these edits on top of what is shared for the database attached there. */
  predicate Grounded(c: Conn, shared: Shared, i: nat, s: Schema, edits: seq<Edit>) {
    i in c.attached && c.attached[i] in shared && s == EditAll(shared[c.attached[i]], edits)
  }

  predicate StagedSound(t: Trace, c: Conn, shared: Shared) {
    forall i :: i in c.staged ==> i in t.staged && Grounded(c, shared, i, c.staged[i], t.staged[i])
  }

  /** ROLLBACK TO brings back what is grounded in the schemas that are shared now, of locked databases. */
  predicate Current(t: Trace, c: Conn, op: Op, shared: Shared) {
    op.RollbackTo? && Found(c, op.name) && LastFrame(c.frames, op.name) < |t.frames| ==>
      var j := LastFrame(c.frames, op.name);
      forall i :: i in c.frames[j].staged ==>
        i in c.writing && i in t.frames[j] && Grounded(c, shared, i, c.frames[j].staged[i], t.frames[j][i])
  }

  /** What is attached at a locked index stays there. */
  lemma AttachedStays(c: Conn, op: Op, shared: Shared, i: nat)
    requires Enabled(c, op, shared) && i in c.attached && (i in c.reading || i in c.writing)
    ensures i in After(c, op, shared).attached && After(c, op, shared).attached[i] == c.attached[i]
  {
    hide LastNamed, LastFrame, MarksOf, Edited, View, EnsuredTemp, SideEffect, RestoredTemp, CommittedTemp,
         RolledBackTemp, Ends;
  }

  /** What a step other than DDL and ROLLBACK TO leaves staged is as grounded as before. */
  lemma LeftGrounded(t: Trace, c: Conn, op: Op, shared: Shared, i: nat)
    requires Guarded(c) && Shaped(t, c) && StagedSound(t, c, shared) && Enabled(c, op, shared)
    requires !op.Ddl? && !op.RollbackTo? && i in After(c, op, shared).staged
    ensures var n, u := After(c, op, shared), TraceAfter(t, c, op, shared);
            i in u.staged && Grounded(n, shared, i, n.staged[i], u.staged[i])
  {
    StagedShrinks(c, op, shared);
    AttachedStays(c, op, shared, i);
    hide After, Enabled, EditAll, LastFrame, LastNamed;
  }

  lemma RollbackToSoundIff(t: Trace, c: Conn, name: string, shared: Shared)
    requires Guarded(c) && Shaped(t, c) && StagedSound(t, c, shared) && c.phase.Idle?
    ensures var op := RollbackTo(name);
            var n := After(c, op, shared);
            Guarded(n) && StagedSound(TraceAfter(t, c, op, shared), n, shared) <==> Current(t, c, op, shared)
  {
    StepGuardedIff(c, RollbackTo(name), shared);
    RollbackToStages(c, name, shared);
    hide After, LastNamed, LastFrame, MarksOf, EditAll;
  }

  lemma DdlSound(t: Trace, c: Conn, i: nat, e: Edit, shared: Shared)
    requires Guarded(c) && Shaped(t, c) && StagedSound(t, c, shared) && Enabled(c, Ddl(i, e), shared)
    ensures StagedSound(TraceAfter(t, c, Ddl(i, e), shared), After(c, Ddl(i, e), shared), shared)
  {
    DdlStages(c, i, e, shared);
    EditOne(shared[c.attached[i]], if i in t.staged then t.staged[i] else [], e);
    hide After, LastNamed, LastFrame, MarksOf, EditAll;
  }

  /** The step itself, before anything it publishes. */
  lemma OwnSoundIff(t: Trace, c: Conn, op: Op, shared: Shared)
    requires Guarded(c) && Shaped(t, c) && StagedSound(t, c, shared) && Enabled(c, op, shared)
    ensures var n := After(c, op, shared);
            Guarded(n) && StagedSound(TraceAfter(t, c, op, shared), n, shared) <==> Current(t, c, op, shared)
  {
    hide After, TraceAfter, Grounded, Shaped, Guarded;
    if op.RollbackTo? {
      RollbackToSoundIff(t, c, op.name, shared);
    } else {
      StepGuardedIff(c, op, shared);
      if op.Ddl? {
        DdlSound(t, c, op.index, op.edit, shared);
      } else {
        forall i | i in After(c, op, shared).staged
          ensures i in TraceAfter(t, c, op, shared).staged
          ensures Grounded(After(c, op, shared), shared, i, After(c, op, shared).staged[i],
                           TraceAfter(t, c, op, shared).staged[i])
        {
          LeftGrounded(t, c, op, shared, i);
        }
      }
    }
  }

  // ---------- Any number of connections ----------

  type Traces = map<ConnId, Trace>

  predicate Traced(ts: Traces, w: World) {
    forall id :: id in w.conns ==> id in ts && Shaped(ts[id], w.conns[id])
  }

  predicate AllSound(ts: Traces, w: World) {
    Traced(ts, w) && forall id :: id in w.conns ==> StagedSound(ts[id], w.conns[id], w.shared)
  }

  ghost predicate Sound(ts: Traces, w: World) { WorldGuarded(w) && AllSound(ts, w) }

  function NextTraces(ts: Traces, w: World, e: Event): Traces
    requires CanStep(w, e) && Traced(ts, w)
  {
    ts[e.id := TraceAfter(ts[e.id], w.conns[e.id], e.op, w.shared)]
  }

  lemma TracedStep(ts: Traces, w: World, e: Event)
    requires CanStep(w, e) && Traced(ts, w)
    ensures Traced(NextTraces(ts, w, e), Next(w, e))
  {
    hide After, Enabled, TraceAfter, Shaped;
    ShapedStep(ts[e.id], w.conns[e.id], e.op, w.shared);
    var n, us := Next(w, e), NextTraces(ts, w, e);
    forall id | id in n.conns ensures id in us && Shaped(us[id], n.conns[id]) {
      if id != e.id { assert n.conns[id] == w.conns[id]; }
    }
  }

  /** A schema of a database that is not published by the step is as grounded as before. */
  lemma GroundedStays(w: World, e: Event, c: Conn, i: nat, s: Schema, edits: seq<Edit>)
    requires CanStep(w, e) && i in c.attached && !Publishes(w, e, c.attached[i])
    ensures Grounded(c, w.shared, i, s, edits) <==> Grounded(c, Next(w, e).shared, i, s, edits)
  {
    hide After;
  }

  /** Nobody, the committing connection included, has another schema staged of a database that is published. */
  lemma NotPublished(w: World, e: Event, id: ConnId, i: nat)
    requires WorldGuarded(w) && CanStep(w, e) && id in w.conns && i in w.conns[id].writing && i in w.conns[id].attached
    requires Publishes(w, e, w.conns[id].attached[i])
    ensures id == e.id && i == e.op.index
  {
    hide After, Enabled, Guarded, Locks, AttachedKnown;
    var d := w.conns[id].attached[i];
    assert Writes(w, id, i, d);
    assert Writes(w, e.id, e.op.index, d) by { PublisherWrites(w, e, d); }
  }

  lemma PublisherWrites(w: World, e: Event, d: DbId)
    requires CanStep(w, e) && Publishes(w, e, d)
    ensures Writes(w, e.id, e.op.index, d)
  {
  }

  lemma OthersSound(ts: Traces, w: World, e: Event, id: ConnId)
    requires Sound(ts, w) && CanStep(w, e) && id in w.conns && id != e.id
    ensures StagedSound(ts[id], w.conns[id], Next(w, e).shared)
  {
    hide After, Enabled, Grounded, Next, OneWriter;
    var c := w.conns[id];
    forall i | i in c.staged
      ensures i in ts[id].staged && Grounded(c, Next(w, e).shared, i, c.staged[i], ts[id].staged[i])
    {
      StagedIsAttached(w, id, i);
      if Publishes(w, e, c.attached[i]) { NotPublished(w, e, id, i); }
      GroundedStays(w, e, c, i, c.staged[i], ts[id].staged[i]);
    }
  }

  lemma StagedIsAttached(w: World, id: ConnId, i: nat)
    requires WorldGuarded(w) && id in w.conns && i in w.conns[id].staged
    ensures i in w.conns[id].attached && i in w.conns[id].writing
  {
    assert Guarded(w.conns[id]);
  }

  /** After a commit step the schema that it published is no longer staged, and no other of that database is. */
  lemma PublishedIsUnstaged(w: World, e: Event, i: nat)
    requires WorldGuarded(w) && CanStep(w, e) && e.op.CommitAttached?
    requires i in After(w.conns[e.id], e.op, w.shared).staged
    ensures var n := After(w.conns[e.id], e.op, w.shared);
            i in n.attached && !Publishes(w, e, n.attached[i])
  {
    var c := w.conns[e.id];
    CommitAttachedStep(c, w.shared, e.op.index);
    StagedIsAttached(w, e.id, i);
    hide After, WorldGuarded;
    if Publishes(w, e, c.attached[i]) { NotPublished(w, e, e.id, i); }
  }

  /** What the step publishes does not touch what its own connection still has staged. */
  lemma OwnSoundShared(w: World, e: Event, u: Trace)
    requires WorldGuarded(w) && CanStep(w, e)
    ensures var n := After(w.conns[e.id], e.op, w.shared);
            StagedSound(u, n, w.shared) <==> StagedSound(u, n, Next(w, e).shared)
  {
    var n := After(w.conns[e.id], e.op, w.shared);
    if e.op.CommitAttached? {
      forall i | i in n.staged && i in u.staged
        ensures Grounded(n, w.shared, i, n.staged[i], u.staged[i])
           <==> Grounded(n, Next(w, e).shared, i, n.staged[i], u.staged[i])
      {
        PublishedIsUnstaged(w, e, i);
        GroundedStays(w, e, n, i, n.staged[i], u.staged[i]);
      }
      hide After, Grounded, WorldGuarded, Next;
    } else {
      hide After, Grounded, WorldGuarded;
      assert Next(w, e).shared == w.shared;
    }
  }

  /** Every step of every connection keeps all staged schemas grounded if and only if it is no ROLLBACK TO a
      snapshot that is no longer. */
  lemma StepSoundIff(ts: Traces, w: World, e: Event)
    requires Sound(ts, w) && CanStep(w, e)
    ensures Sound(NextTraces(ts, w, e), Next(w, e)) <==> Current(ts[e.id], w.conns[e.id], e.op, w.shared)
  {
    var c, t := w.conns[e.id], ts[e.id];
    var n, us := Next(w, e), NextTraces(ts, w, e);
    OwnSoundIff(t, c, e.op, w.shared);
    OwnSoundShared(w, e, TraceAfter(t, c, e.op, w.shared));
    StepGuardsIff(w, e);
    StepGuardedIff(c, e.op, w.shared);
    TracedStep(ts, w, e);
    hide After, Enabled, TraceAfter, Shaped, StagedSound, Current, WorldGuarded, Guarded, Backed, Traced;
    assert n.conns[e.id] == After(c, e.op, w.shared) && us[e.id] == TraceAfter(t, c, e.op, w.shared);
    forall id | id in n.conns && id != e.id ensures StagedSound(us[id], n.conns[id], n.shared) {
      assert n.conns[id] == w.conns[id] && us[id] == ts[id];
      OthersSound(ts, w, e, id);
    }
  }

  // ---------- The history of a database ----------

  predicate CurrentRun(ts: Traces, w: World, run: seq<Event>)
    requires Run(w, run) && Traced(ts, w)
    decreases |run|
  {
    run == [] ||
    (&& Current(ts[run[0].id], w.conns[run[0].id], run[0].op, w.shared)
     && (TracedStep(ts, w, run[0]); CurrentRun(NextTraces(ts, w, run[0]), Next(w, run[0]), run[1..])))
  }

  /** The edits that a step publishes for database d. */
  function PublishedBy(ts: Traces, w: World, e: Event, d: DbId): seq<Edit>
    requires CanStep(w, e) && Traced(ts, w)
  {
    if Publishes(w, e, d) then ts[e.id].staged[e.op.index] else []
  }

  /** The edits of a whole run, in the order of the commits. */
  function Published(ts: Traces, w: World, run: seq<Event>, d: DbId): seq<Edit>
    requires Run(w, run) && Traced(ts, w)
    decreases |run|
  {
    if run == [] then []
    else
      TracedStep(ts, w, run[0]);
      PublishedBy(ts, w, run[0], d) + Published(NextTraces(ts, w, run[0]), Next(w, run[0]), run[1..], d)
  }

  lemma SharedStep(ts: Traces, w: World, e: Event, d: DbId)
    requires Sound(ts, w) && CanStep(w, e) && d in w.shared
    ensures d in Next(w, e).shared && Next(w, e).shared[d] == EditAll(w.shared[d], PublishedBy(ts, w, e, d))
  {
    hide After, WorldGuarded;
    if Publishes(w, e, d) {
      var c, t, i := w.conns[e.id], ts[e.id], e.op.index;
      assert Grounded(c, w.shared, i, c.staged[i], t.staged[i]);
    }
  }

  /** After any run in which ROLLBACK TO brings back only what is still grounded, the shared schema of a
      database is what it was with the edits of all transactions published for it, in commit order, less what
      savepoints have undone. */
  lemma {:induction false} SharedIsHistory(ts: Traces, w: World, run: seq<Event>, d: DbId)
    requires Sound(ts, w) && Run(w, run) && CurrentRun(ts, w, run) && d in w.shared
    ensures d in End(w, run).shared && End(w, run).shared[d] == EditAll(w.shared[d], Published(ts, w, run, d))
    decreases |run|
  {
    hide Next, CanStep, Current, NextTraces, PublishedBy, EditAll;
    if run == [] {
      NoEdits(w.shared[d]);
    } else {
      var e, n := run[0], Next(w, run[0]);
      TracedStep(ts, w, e);
      StepSoundIff(ts, w, e);
      SharedStep(ts, w, e, d);
      var us := NextTraces(ts, w, e);
      SharedIsHistory(us, n, run[1..], d);
      EditConcat(w.shared[d], PublishedBy(ts, w, e, d), Published(us, n, run[1..], d));
    }
  }

  lemma NoEdits(s: Schema)
    ensures EditAll(s, []) == s
  {
  }

  // ---------- When every ROLLBACK TO is current ----------

  predicate FrameSound(c: Conn, shared: Shared, f: Frame, edits: map<nat, seq<Edit>>) {
    forall i :: i in f.staged ==> i in edits && Grounded(c, shared, i, f.staged[i], edits[i])
  }

  /** Between commits the snapshots of the open savepoints are grounded as well. */
  predicate FramesSound(t: Trace, c: Conn, shared: Shared) {
    c.phase.Idle? && |t.frames| == |c.frames| ==>
      forall k :: 0 <= k < |c.frames| ==> FrameSound(c, shared, c.frames[k], t.frames[k])
  }

  /** A failing statement takes the transaction with it only where no savepoint is open. */
  predicate Tame(w: World, e: Event)
    requires CanStep(w, e)
  {
    e.op.Abort? ==> w.conns[e.id].frames == []
  }

  lemma GoodIsCurrent(t: Trace, c: Conn, op: Op, shared: Shared)
    requires Good(c) && Enabled(c, op, shared) && Shaped(t, c) && FramesSound(t, c, shared)
    ensures Current(t, c, op, shared)
  {
    hide LastNamed, LastFrame, MarksOf, Grounded;
    if op.RollbackTo? && Found(c, op.name) {
      var j := LastFrame(c.frames, op.name);
      assert FrameGood(c.frames[j], j, c) && FrameSound(c, shared, c.frames[j], t.frames[j]);
    }
  }

  /** A step between commits leaves each old frame grounded. */
  lemma OldFrameSound(t: Trace, c: Conn, op: Op, shared: Shared, k: nat)
    requires Good(c) && c.phase.Idle? && Enabled(c, op, shared) && Shaped(t, c) && FramesSound(t, c, shared)
    requires k < |c.frames|
    ensures FrameSound(After(c, op, shared), shared, c.frames[k], t.frames[k])
  {
    hide After, Enabled, EditAll, MarksOf;
    assert FrameSound(c, shared, c.frames[k], t.frames[k]) && FrameGood(c.frames[k], k, c);
    forall i | i in c.frames[k].staged
      ensures i in t.frames[k] && Grounded(After(c, op, shared), shared, i, c.frames[k].staged[i], t.frames[k][i])
    {
      AttachedStays(c, op, shared, i);
    }
  }

  lemma NewFrameSound(t: Trace, c: Conn, name: string, shared: Shared)
    requires c.phase.Idle? && Shaped(t, c) && StagedSound(t, c, shared)
    ensures var n := After(c, Savepoint(name), shared);
            |n.frames| == |c.frames| + 1 && n.frames[..|c.frames|] == c.frames
            && FrameSound(n, shared, n.frames[|c.frames|], t.staged)
  {
    SavepointSteps(c, shared, name);
    hide After, EditAll;
  }

  /** A commit or a tame failing statement that leads back between commits leaves no frame. */
  lemma NoFramesLeft(c: Conn, op: Op, shared: Shared)
    requires Good(c) && c.phase.Committing? && Enabled(c, op, shared) && (op.Abort? ==> c.frames == [])
    requires After(c, op, shared).phase.Idle?
    ensures After(c, op, shared).frames == []
  {
    hide LastNamed, MarksOf;
  }

  lemma OwnFramesSound(t: Trace, c: Conn, op: Op, shared: Shared)
    requires Good(c) && Shaped(t, c) && StagedSound(t, c, shared) && FramesSound(t, c, shared)
    requires Enabled(c, op, shared) && (op.Abort? ==> c.frames == [])
    ensures FramesSound(TraceAfter(t, c, op, shared), After(c, op, shared), shared)
  {
    var n, u := After(c, op, shared), TraceAfter(t, c, op, shared);
    if n.phase.Idle? {
      if c.phase.Committing? {
        NoFramesLeft(c, op, shared);
      } else {
        if op.Savepoint? { NewFrameSound(t, c, op.name, shared); } else { FramesShrink(c, op, shared); }
        hide After, Enabled, Good, StagedSound;
        forall k | 0 <= k < |n.frames| && |u.frames| == |n.frames|
          ensures FrameSound(n, shared, n.frames[k], u.frames[k])
        {
          if k < |c.frames| {
            assert n.frames[k] == c.frames[k] && u.frames[k] == t.frames[k];
            OldFrameSound(t, c, op, shared, k);
          }
        }
      }
    }
  }

  /** What a step publishes touches no snapshot of a connection between commits. */
  lemma FramesSoundShared(w: World, e: Event, id: ConnId, u: Trace, c: Conn)
    requires WorldGuarded(w) && CanStep(w, e) && id in w.conns && Good(c) && FramesSound(u, c, w.shared)
    requires c.attached == w.conns[id].attached && c.writing == w.conns[id].writing
    requires e.op.CommitAttached? && c.phase.Idle? ==> id != e.id
    ensures FramesSound(u, c, Next(w, e).shared)
  {
    hide After, Enabled, Grounded, WorldGuarded, Publishes, MarksOf;
    if c.phase.Idle? && |u.frames| == |c.frames| && e.op.CommitAttached? {
      forall k | 0 <= k < |c.frames| ensures FrameSound(c, Next(w, e).shared, c.frames[k], u.frames[k]) {
        assert FrameSound(c, w.shared, c.frames[k], u.frames[k]) && FrameGood(c.frames[k], k, c);
        forall i | i in c.frames[k].staged
          ensures i in u.frames[k] && Grounded(c, Next(w, e).shared, i, c.frames[k].staged[i], u.frames[k][i])
        {
          if Publishes(w, e, c.attached[i]) { NotPublished(w, e, id, i); }
          GroundedStays(w, e, c, i, c.frames[k].staged[i], u.frames[k][i]);
        }
      }
    }
  }

  ghost predicate AllGood(ts: Traces, w: World) {
    Sound(ts, w) && forall id :: id in w.conns ==> Good(w.conns[id]) && FramesSound(ts[id], w.conns[id], w.shared)
  }

  lemma OwnStaysGood(ts: Traces, w: World, e: Event)
    requires AllGood(ts, w) && CanStep(w, e) && Tame(w, e)
    ensures Good(Next(w, e).conns[e.id])
    ensures FramesSound(NextTraces(ts, w, e)[e.id], Next(w, e).conns[e.id], Next(w, e).shared)
  {
    var c, t := w.conns[e.id], ts[e.id];
    StepGood(c, e.op, w.shared);
    OwnFramesSound(t, c, e.op, w.shared);
    if e.op.CommitAttached? { CommitStaysCommitting(c, e.op.index, w.shared); }
    hide After, Enabled, TraceAfter, Good, WorldGuarded;
    assert Next(w, e).conns[e.id] == After(c, e.op, w.shared);
    assert e.op.CommitAttached? || Next(w, e).shared == w.shared;
  }

  lemma CommitStaysCommitting(c: Conn, i: nat, shared: Shared)
    requires Enabled(c, CommitAttached(i), shared)
    ensures After(c, CommitAttached(i), shared).phase.Committing?
  {
    CommitAttachedStep(c, shared, i);
    hide After;
  }

  lemma StepAllGood(ts: Traces, w: World, e: Event)
    requires AllGood(ts, w) && CanStep(w, e) && Tame(w, e)
    ensures Current(ts[e.id], w.conns[e.id], e.op, w.shared)
    ensures AllGood(NextTraces(ts, w, e), Next(w, e))
  {
    GoodIsCurrent(ts[e.id], w.conns[e.id], e.op, w.shared);
    StepSoundIff(ts, w, e);
    OwnStaysGood(ts, w, e);
    hide After, Enabled, TraceAfter, Good, WorldGuarded, FramesSound, Current, AllSound;
    var n, us := Next(w, e), NextTraces(ts, w, e);
    forall id | id in n.conns && id != e.id ensures Good(n.conns[id]) && FramesSound(us[id], n.conns[id], n.shared) {
      assert n.conns[id] == w.conns[id] && us[id] == ts[id];
      FramesSoundShared(w, e, id, ts[id], w.conns[id]);
    }
  }

  predicate TameRun(w: World, run: seq<Event>)
    requires Run(w, run)
    decreases |run|
  {
    run == [] || (Tame(w, run[0]) && TameRun(Next(w, run[0]), run[1..]))
  }

  lemma {:induction false} TameIsCurrent(ts: Traces, w: World, run: seq<Event>)
    requires AllGood(ts, w) && Run(w, run) && TameRun(w, run)
    ensures CurrentRun(ts, w, run)
    decreases |run|
  {
    hide Next, CanStep, Tame, Current, NextTraces, WorldGuarded, Good, FramesSound, StagedSound, Shaped;
    if run != [] {
      StepAllGood(ts, w, run[0]);
      TameIsCurrent(NextTraces(ts, w, run[0]), Next(w, run[0]), run[1..]);
    }
  }

  function NoTraces(w: World): Traces { map id | id in w.conns :: NOTHING }

  lemma NewWorldGood(w: World)
    requires forall id :: id in w.conns ==> w.conns[id] == FRESH
    ensures AllGood(NoTraces(w), w)
  {
    NewWorldGuarded(w);
    assert Good(FRESH);
  }

  /** From new connections, if no failing statement takes a transaction with it while savepoints are open: the
      shared schema of every database is its history, so no published change is ever lost. */
  lemma SharedIsHistoryOfTameRuns(w: World, run: seq<Event>, d: DbId)
    requires (forall id :: id in w.conns ==> w.conns[id] == FRESH) && Run(w, run) && TameRun(w, run) && d in w.shared
    ensures AllGood(NoTraces(w), w)
    ensures d in End(w, run).shared && End(w, run).shared[d] == EditAll(w.shared[d], Published(NoTraces(w), w, run, d))
  {
    NewWorldGood(w);
    TameIsCurrent(NoTraces(w), w, run);
    SharedIsHistory(NoTraces(w), w, run, d);
  }

  // ---------- When one is not ----------

  /** The steps by which a connection publishes what a savepoint had staged before a failing statement. */
  function Overwriting(i: nat, name: string): seq<Op> {
    [Begin, Lock(i, true), RollbackTo(name), Commit, CommitAttached(i)]
  }

  lemma OverwritingSteps(c: Conn, shared: Shared, i: nat, name: string)
    requires !c.mainWrites && i in c.attached && c.attached[i] in shared && Shows(c, i, name)
    ensures var begun := Aborted(c).(autoCommit := false);
            var locked := Locked(begun, i, true);
            var ending := StartCommit(RolledBackTo(locked, name));
            && After(Aborted(c), Begin, shared) == begun
            && Enabled(begun, Lock(i, true), shared) && After(begun, Lock(i, true), shared) == locked
            && After(locked, RollbackTo(name), shared) == RolledBackTo(locked, name)
            && RolledBackTo(locked, name).phase.Idle?
            && After(RolledBackTo(locked, name), Commit, shared) == ending
            && Enabled(ending, CommitAttached(i), shared)
            && SharedAfter(ending, CommitAttached(i), shared)
            == shared[c.attached[i] := c.frames[LastFrame(c.frames, name)].staged[i]]
  {
    hide LastNamed, LastFrame, MarksOf, RestoredTemp;
  }

  lemma StepTo(w: World, id: ConnId, op: Op, n: Conn, rest: seq<Event>)
    requires CanStep(w, Event(id, op)) && After(w.conns[id], op, w.shared) == n
    requires Run(World(SharedAfter(w.conns[id], op, w.shared), w.conns[id := n]), rest)
    ensures Run(w, [Event(id, op)] + rest)
    ensures End(w, [Event(id, op)] + rest)
         == End(World(SharedAfter(w.conns[id], op, w.shared), w.conns[id := n]), rest)
  {
    Front(w, Event(id, op), rest);
  }

  /** In any world where a failing statement has left a savepoint with a schema staged for a database that
      nobody writes now: the connection can lock it, roll back to the savepoint and commit, and the shared
      schema is then the one of the savepoint, whatever others have published in between. */
  lemma OverwritesAfterAbort(w: World, id: ConnId, c: Conn, i: nat, name: string) returns (run: seq<Event>)
    requires id in w.conns && w.conns[id] == Aborted(c) && !c.mainWrites
    requires i in c.attached && c.attached[i] in w.shared && Shows(c, i, name)
    requires forall other, j :: !Writes(w, other, j, c.attached[i])
    ensures run == Events(id, Overwriting(i, name)) && Run(w, run)
    ensures End(w, run).shared == w.shared[c.attached[i] := c.frames[LastFrame(c.frames, name)].staged[i]]
  {
    OverwritingSteps(c, w.shared, i, name);
    var d := c.attached[i];
    var begun := Aborted(c).(autoCommit := false);
    var locked := Locked(begun, i, true);
    var back := RolledBackTo(locked, name);
    var ending := StartCommit(back);
    var w1, w2 := World(w.shared, w.conns[id := begun]), World(w.shared, w.conns[id := locked]);
    var w3, w4 := World(w.shared, w.conns[id := back]), World(w.shared, w.conns[id := ending]);
    hide After, SharedAfter, RolledBackTo, Locked, StartCommit, Shows, LastFrame;
    assert w1.conns[id := locked] == w2.conns && w2.conns[id := back] == w3.conns && w3.conns[id := ending] == w4.conns;
    StillFree(w, id, c, i, begun);
    StepTo(w4, id, CommitAttached(i), After(ending, CommitAttached(i), w.shared), []);
    var run4 := [Event(id, CommitAttached(i))] + [];
    QuietShared(back, Commit, w.shared);
    StepTo(w3, id, Commit, ending, run4);
    var run3 := [Event(id, Commit)] + run4;
    QuietShared(locked, RollbackTo(name), w.shared);
    StepTo(w2, id, RollbackTo(name), back, run3);
    var run2 := [Event(id, RollbackTo(name))] + run3;
    QuietShared(begun, Lock(i, true), w.shared);
    StepTo(w1, id, Lock(i, true), locked, run2);
    var run1 := [Event(id, Lock(i, true))] + run2;
    QuietShared(Aborted(c), Begin, w.shared);
    StepTo(w, id, Begin, begun, run1);
    run := [Event(id, Begin)] + run1;
  }

  lemma QuietShared(c: Conn, op: Op, shared: Shared)
    requires Enabled(c, op, shared) && !op.CommitAttached?
    ensures SharedAfter(c, op, shared) == shared
  {
  }

  lemma StillFree(w: World, id: ConnId, c: Conn, i: nat, begun: Conn)
    requires id in w.conns && w.conns[id] == Aborted(c) && i in c.attached && begun == Aborted(c).(autoCommit := false)
    requires forall other, j :: !Writes(w, other, j, c.attached[i])
    ensures i in begun.attached && MayWrite(World(w.shared, w.conns[id := begun]), id, i)
  {
    var n := World(w.shared, w.conns[id := begun]);
    forall other, j | other in n.conns && j in n.conns[other].writing ensures !Writes(n, other, j, c.attached[i]) {
      assert !Writes(w, other, j, c.attached[i]);
    }
  }

  // ---------- A change that is lost ----------

  function Two(shared: Shared, a: Conn, b: Conn): World { World(shared, map[0 := a, 1 := b]) }

  lemma StepFirst(shared: Shared, a: Conn, b: Conn, op: Op, n: Conn, rest: seq<Event>)
    requires Enabled(a, op, shared) && After(a, op, shared) == n && !op.CommitAttached?
    requires op.Lock? ==> a.writing == {} && b.writing == {}
    requires Run(Two(shared, n, b), rest)
    ensures Run(Two(shared, a, b), [Event(0, op)] + rest)
    ensures End(Two(shared, a, b), [Event(0, op)] + rest) == End(Two(shared, n, b), rest)
  {
    hide After, Enabled;
    var w := Two(shared, a, b);
    assert w.conns[0 := n] == map[0 := n, 1 := b];
    StepTo(w, 0, op, n, rest);
  }

  lemma StepSecond(shared: Shared, a: Conn, b: Conn, op: Op, n: Conn, now: Shared, rest: seq<Event>)
    requires Enabled(b, op, shared) && After(b, op, shared) == n && SharedAfter(b, op, shared) == now
    requires op.Lock? ==> a.writing == {} && b.writing == {}
    requires Run(Two(now, a, n), rest)
    ensures Run(Two(shared, a, b), [Event(1, op)] + rest)
    ensures End(Two(shared, a, b), [Event(1, op)] + rest) == End(Two(now, a, n), rest)
  {
    hide After, Enabled, SharedAfter;
    var w := Two(shared, a, b);
    assert w.conns[1 := n] == map[0 := a, 1 := n];
    StepTo(w, 1, op, n, rest);
  }

  const U := Define("u", "create table u (x)")

  /** The second connection, with database 0 attached, and the databases once it has created a table there. */
  const ATTACHED := FRESH.(attached := map[2 := 0])

  const CHANGED: Shared := map[0 := Edited(EMPTY, U), 1 := EMPTY]

  lemma FirstLocks(b: Conn, rest: seq<Event>) returns (run: seq<Event>)
    requires b.writing == {} && Run(Two(DATABASES, WRITING, b), rest)
    ensures run == Events(0, [Attach(2, 0), Begin, Lock(2, true)]) + rest
    ensures Run(Two(DATABASES, FRESH, b), run)
    ensures End(Two(DATABASES, FRESH, b), run) == End(Two(DATABASES, WRITING, b), rest)
  {
    hide LastNamed, MarksOf, Run, End, View, Two;
    var begun := ATTACHED.(autoCommit := false);
    StepFirst(DATABASES, begun, b, Lock(2, true), WRITING, rest);
    run := [Event(0, Lock(2, true))] + rest;
    StepFirst(DATABASES, ATTACHED, b, Begin, begun, run);
    run := [Event(0, Begin)] + run;
    StepFirst(DATABASES, FRESH, b, Attach(2, 0), ATTACHED, run);
    run := [Event(0, Attach(2, 0))] + run;
  }

  lemma FirstSaves(b: Conn, rest: seq<Event>) returns (run: seq<Event>)
    requires Run(Two(DATABASES, SAVING, b), rest)
    ensures run == Events(0, [Ddl(2, T), Savepoint("s")]) + rest
    ensures Run(Two(DATABASES, WRITING, b), run)
    ensures End(Two(DATABASES, WRITING, b), run) == End(Two(DATABASES, SAVING, b), rest)
  {
    hide LastNamed, MarksOf, Run, End, Edited, Two;
    var staged := WRITING.(staged := map[2 := Edited(EMPTY, T)]);
    assert WRITING.staged[2 := Edited(EMPTY, T)] == staged.staged;
    assert WRITING.marks + [Mark("s", false)] == SAVING.marks;
    assert WRITING.frames + [Frame(Mark("s", false), FRESH.temp.live, staged.staged)] == SAVING.frames;
    StepFirst(DATABASES, staged, b, Savepoint("s"), SAVING, rest);
    run := [Event(0, Savepoint("s"))] + rest;
    StepFirst(DATABASES, WRITING, b, Ddl(2, T), staged, run);
    run := [Event(0, Ddl(2, T))] + run;
  }

  const FAILING: seq<Op> := [Attach(2, 0), Begin, Lock(2, true), Ddl(2, T), Savepoint("s"), Abort]

  /** The first connection attaches database 0, begins, creates table t, takes a savepoint, and fails. */
  lemma FirstFails(rest: seq<Event>) returns (run: seq<Event>)
    requires Run(Two(DATABASES, Aborted(SAVING), FRESH), rest)
    ensures run == Events(0, FAILING) + rest
    ensures Run(Two(DATABASES, FRESH, FRESH), run)
    ensures End(Two(DATABASES, FRESH, FRESH), run) == End(Two(DATABASES, Aborted(SAVING), FRESH), rest)
  {
    EndSteps(SAVING, DATABASES);
    hide After, Run, End, Edited, Aborted, Two;
    StepFirst(DATABASES, SAVING, FRESH, Abort, Aborted(SAVING), rest);
    run := FirstSaves(FRESH, [Event(0, Abort)] + rest);
    run := FirstLocks(FRESH, run);
  }

  /** The second connection once it has locked the database and created table u there. */
  const CHANGING := ATTACHED.(reading := {2}, writing := {2}, staged := map[2 := Edited(EMPTY, U)])

  lemma SecondChanges(a: Conn, rest: seq<Event>) returns (run: seq<Event>)
    requires a.writing == {} && Run(Two(DATABASES, a, CHANGING), rest)
    ensures run == Events(1, [Attach(2, 0), Lock(2, true), Ddl(2, U)]) + rest
    ensures Run(Two(DATABASES, a, FRESH), run)
    ensures End(Two(DATABASES, a, FRESH), run) == End(Two(DATABASES, a, CHANGING), rest)
  {
    hide LastNamed, MarksOf, Run, End, Edited, Two;
    var locked := ATTACHED.(reading := {2}, writing := {2});
    assert locked.staged[2 := Edited(EMPTY, U)] == CHANGING.staged;
    StepSecond(DATABASES, a, locked, Ddl(2, U), CHANGING, DATABASES, rest);
    run := [Event(1, Ddl(2, U))] + rest;
    StepSecond(DATABASES, a, ATTACHED, Lock(2, true), locked, DATABASES, run);
    run := [Event(1, Lock(2, true))] + run;
    StepSecond(DATABASES, a, FRESH, Attach(2, 0), ATTACHED, DATABASES, run);
    run := [Event(1, Attach(2, 0))] + run;
  }

  lemma SecondCommits(a: Conn, rest: seq<Event>) returns (run: seq<Event>)
    requires Run(Two(CHANGED, a, ATTACHED), rest)
    ensures run == Events(1, [Finish, CommitAttached(2), CommitDone]) + rest
    ensures Run(Two(DATABASES, a, CHANGING), run)
    ensures End(Two(DATABASES, a, CHANGING), run) == End(Two(CHANGED, a, ATTACHED), rest)
  {
    hide LastNamed, MarksOf, Run, End, Edited, Two;
    var ending := CHANGING.(phase := Committing(false));
    var ended := ATTACHED.(phase := Committing(false));
    assert ending.staged - {2} == map[] && ending.reading - {2} == {};
    assert DATABASES[0 := Edited(EMPTY, U)] == CHANGED;
    StepSecond(CHANGED, a, ended, CommitDone, ATTACHED, CHANGED, rest);
    run := [Event(1, CommitDone)] + rest;
    StepSecond(DATABASES, a, ending, CommitAttached(2), ended, CHANGED, run);
    run := [Event(1, CommitAttached(2))] + run;
    StepSecond(DATABASES, a, CHANGING, Finish, ending, DATABASES, run);
    run := [Event(1, Finish)] + run;
  }

  const PUBLISHING: seq<Op> := [Attach(2, 0), Lock(2, true), Ddl(2, U), Finish, CommitAttached(2), CommitDone]

  /** The second connection attaches it too and creates table u, which is committed and published. */
  lemma SecondPublishes(a: Conn, rest: seq<Event>) returns (run: seq<Event>)
    requires a.writing == {} && Run(Two(CHANGED, a, ATTACHED), rest)
    ensures run == Events(1, PUBLISHING) + rest
    ensures Run(Two(DATABASES, a, FRESH), run)
    ensures End(Two(DATABASES, a, FRESH), run) == End(Two(CHANGED, a, ATTACHED), rest)
  {
    hide After, Run, End, Edited, Two;
    run := SecondCommits(a, rest);
    run := SecondChanges(a, run);
  }

  /** Two new connections: the first fails as above, the second publishes table u, and the first rolls back to
      its savepoint and commits. Table u, committed and seen by all, is gone. */
  lemma LostDdl() returns (run: seq<Event>)
    ensures run == Events(0, FAILING) + (Events(1, PUBLISHING) + Events(0, Overwriting(2, "s")))
    ensures Run(Two(DATABASES, FRESH, FRESH), run)
    ensures End(Two(DATABASES, FRESH, FRESH), run).shared == map[0 := Edited(EMPTY, T), 1 := EMPTY]
    ensures "u" in CHANGED[0].objects && "u" !in Edited(EMPTY, T).objects
  {
    hide Run, End, Overwriting, Shows, LastFrame, LastNamed;
    SavingShows();
    var w := Two(CHANGED, Aborted(SAVING), ATTACHED);
    assert CHANGED[0 := Edited(EMPTY, T)] == map[0 := Edited(EMPTY, T), 1 := EMPTY];
    var overwrite := OverwritesAfterAbort(w, 0, SAVING, 2, "s");
    var published := SecondPublishes(Aborted(SAVING), overwrite);
    run := FirstFails(published);
  }
}
