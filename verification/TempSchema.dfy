/** The temp schema of a connection over every run: the flag that says it changed, the copy kept from
    the last commit, and what a full rollback gives back. */
module TempSchema {
  import opened Common
  import opened ConnectionState
  import Leftovers

  /** The schema that a rollback is meant to restore. */
  function Base(c: Conn): Schema { OrEmpty(c.temp.committed) }

  // ---------- The flag and the database ----------

  /** What the asserts of `commit_temp_schema` and `rollback_temp_schema` check. */
  predicate Initialised(c: Conn) { c.temp.dirty ==> c.temp.live.Some? }

  datatype Event = Event(op: Op, shared: Shared)

  predicate Run(c: Conn, run: seq<Event>)
    decreases |run|
  {
    run == [] || (Enabled(c, run[0].op, run[0].shared) && Run(After(c, run[0].op, run[0].shared), run[1..]))
  }

  function End(c: Conn, run: seq<Event>): Conn
    requires Run(c, run)
    decreases |run|
  {
    if run == [] then c else End(After(c, run[0].op, run[0].shared), run[1..])
  }

  lemma StepInitialised(c: Conn, op: Op, shared: Shared)
    requires Initialised(c) && Enabled(c, op, shared)
    ensures Initialised(After(c, op, shared))
  {
    hide LastNamed, LastFrame, MarksOf, Edited, View;
  }

  /** In every reachable state, failing statements included, a set flag means an initialised temp database. */
  lemma {:induction false} EveryRunInitialised(c: Conn, run: seq<Event>)
    requires Initialised(c) && Run(c, run)
    ensures Initialised(End(c, run))
    decreases |run|
  {
    hide After, Enabled, Initialised;
    if run != [] {
      StepInitialised(c, run[0].op, run[0].shared);
      EveryRunInitialised(After(c, run[0].op, run[0].shared), run[1..]);
    }
  }

  /** Only a statement that needs it initialises the temp database, and only a change of temp store takes it
      away: no commit, no rollback and no savepoint does either. */
  lemma TempDatabaseIff(c: Conn, op: Op, shared: Shared)
    requires Initialised(c) && Enabled(c, op, shared)
    ensures After(c, op, shared).temp.live.Some?
            <==> op.EnsureTemp? || op.TempDdl? || (c.temp.live.Some? && !Resets(c, op))
  {
    hide LastNamed, LastFrame, MarksOf, Edited, View, Ends;
  }

  // ---------- A clear flag ----------

  /** Every open savepoint's snapshot of the temp schema is the given one. */
  predicate Snapshots(c: Conn, s: Schema) {
    forall k :: 0 <= k < |c.frames| ==> OrEmpty(c.frames[k].temp) == s
  }

  /** With the flag clear, the live schema and every savepoint's snapshot of it are the committed one. */
  predicate Tracked(c: Conn) { !c.temp.dirty ==> TempView(c) == Base(c) && Snapshots(c, Base(c)) }

  /** The steps that can lose track, and when they do not: DROP TABLE on another database, which edits
      the temp triggers on the table without setting the flag; a change of temp store that resets the
      temp database; and the end of a statement outside transactions, which commits the live schema but
      leaves frames that a failing statement has left. */
  predicate KeepsTrack(c: Conn, op: Op) {
    match op
    case TempSideEffect(e) => c.temp.dirty || SideEffect(c.temp, e) == c.temp
    case SetTempStore => Resets(c, op) ==> Snapshots(c, EMPTY)
    case CommitDone => c.temp.dirty && c.phase == Committing(false) ==> Snapshots(c, TempView(c))
    case _ => true
  }

  predicate Resets(c: Conn, op: Op) { op.SetTempStore? && (c.autoCommit || c.temp.live.None?) }

  lemma RollbackToTracked(c: Conn, name: string)
    requires Tracked(c)
    ensures Tracked(RolledBackTo(c, name))
  {
    hide LastNamed, LastFrame, MarksOf;
  }

  lemma SavepointsTracked(c: Conn, name: string)
    requires Tracked(c)
    ensures Tracked(Saved(c, name)) && Tracked(Released(c, name)) && Tracked(Refused(c, name))
  {
    hide LastNamed, LastFrame, MarksOf, Ends;
  }

  lemma RollbacksTracked(c: Conn)
    requires Initialised(c) && Tracked(c)
    ensures Tracked(RolledBack(c)) && Tracked(Aborted(c))
  {
  }

  lemma CommitTrackedIff(c: Conn)
    requires Initialised(c) && Tracked(c) && c.phase.Committing?
    ensures Tracked(DoneCommit(c)) <==> KeepsTrack(c, CommitDone)
  {
  }

  /** From any tracked state a step leads to a tracked state exactly under that condition. */
  lemma StepTrackedIff(c: Conn, op: Op, shared: Shared)
    requires Initialised(c) && Tracked(c) && Enabled(c, op, shared)
    ensures Tracked(After(c, op, shared)) <==> KeepsTrack(c, op)
  {
    hide Saved, Released, Refused, RolledBackTo, RolledBack, Aborted, DoneCommit, Edited, View;
    match op
    case Savepoint(name) => SavepointsTracked(c, name);
    case Release(name) => SavepointsTracked(c, name);
    case ReleaseRefused(name) => SavepointsTracked(c, name);
    case RollbackTo(name) => RollbackToTracked(c, name);
    case Rollback => RollbacksTracked(c);
    case Abort => RollbacksTracked(c);
    case CommitDone => CommitTrackedIff(c);
    case EnsureTemp => TempTrackedIff(c, op, shared);
    case TempDdl(_) => TempTrackedIff(c, op, shared);
    case TempSideEffect(_) => TempTrackedIff(c, op, shared);
    case SetTempStore => TempTrackedIff(c, op, shared);
    case _ => OthersTracked(c, op, shared);
  }

  predicate OnTemp(op: Op) { op.EnsureTemp? || op.TempDdl? || op.TempSideEffect? || op.SetTempStore? }

  lemma TempTrackedIff(c: Conn, op: Op, shared: Shared)
    requires Initialised(c) && Tracked(c) && Enabled(c, op, shared) && OnTemp(op)
    ensures Tracked(After(c, op, shared)) <==> KeepsTrack(c, op)
  {
    hide LastNamed, MarksOf, Edited;
  }

  predicate Elsewhere(op: Op) {
    op.Begin? || op.Commit? || op.Finish? || op.CommitAttached? || op.MainWrite? || op.Lock? || op.Ddl? || op.Attach?
    || op.Detach?
  }

  lemma OthersTracked(c: Conn, op: Op, shared: Shared)
    requires Tracked(c) && Enabled(c, op, shared) && Elsewhere(op)
    ensures Tracked(After(c, op, shared)) && KeepsTrack(c, op)
  {
    hide LastNamed, MarksOf, Edited, View;
  }

  /** As long as no failing statement has taken a transaction with it while savepoints were open, only
      unflagged edits can lose track. */
  lemma GoodKeepsTrack(c: Conn, op: Op, shared: Shared)
    requires Good(c) && Initialised(c) && Tracked(c) && Enabled(c, op, shared) && !op.TempSideEffect?
    ensures KeepsTrack(c, op)
  {
    hide MarksOf;
  }

  /** The temp schema as it stood when the last commit ended, or when the temp database was last thrown away. */
  function LastCommitted(c: Conn, op: Op, last: Schema): Schema {
    if op.CommitDone? then TempView(c) else if Resets(c, op) then EMPTY else last
  }

  lemma StepBase(c: Conn, op: Op, shared: Shared)
    requires Initialised(c) && Tracked(c) && Enabled(c, op, shared)
    ensures Base(After(c, op, shared)) == LastCommitted(c, op, Base(c))
  {
    hide LastNamed, LastFrame, MarksOf, Edited, View;
  }

  // ---------- Whole runs ----------

  predicate KeepsTrackThroughout(c: Conn, run: seq<Event>)
    requires Run(c, run)
    decreases |run|
  {
    run == [] || (KeepsTrack(c, run[0].op) && KeepsTrackThroughout(After(c, run[0].op, run[0].shared), run[1..]))
  }

  predicate TrackedThroughout(c: Conn, run: seq<Event>)
    requires Run(c, run)
    decreases |run|
  {
    Tracked(c) && (run == [] || TrackedThroughout(After(c, run[0].op, run[0].shared), run[1..]))
  }

  function LastCommittedOf(c: Conn, run: seq<Event>, last: Schema): Schema
    requires Run(c, run)
    decreases |run|
  {
    if run == [] then last
    else LastCommittedOf(After(c, run[0].op, run[0].shared), run[1..], LastCommitted(c, run[0].op, last))
  }

  /** All states of a run are tracked exactly when all its steps keep track. */
  lemma {:induction false} TrackedThroughoutIff(c: Conn, run: seq<Event>)
    requires Initialised(c) && Tracked(c) && Run(c, run)
    ensures TrackedThroughout(c, run) <==> KeepsTrackThroughout(c, run)
    decreases |run|
  {
    hide After, Enabled, Initialised, Tracked, KeepsTrack;
    if run != [] {
      var next := After(c, run[0].op, run[0].shared);
      StepInitialised(c, run[0].op, run[0].shared);
      StepTrackedIff(c, run[0].op, run[0].shared);
      if Tracked(next) { TrackedThroughoutIff(next, run[1..]); }
    }
  }

  lemma {:induction false} EveryRunTracked(c: Conn, run: seq<Event>)
    requires Initialised(c) && Tracked(c) && Run(c, run) && KeepsTrackThroughout(c, run)
    ensures var end := End(c, run);
            Initialised(end) && Tracked(end) && Base(end) == LastCommittedOf(c, run, Base(c))
    decreases |run|
  {
    hide After, Enabled, Initialised, Tracked, Base, LastCommitted, KeepsTrack;
    if run != [] {
      StepInitialised(c, run[0].op, run[0].shared);
      StepTrackedIff(c, run[0].op, run[0].shared);
      StepBase(c, run[0].op, run[0].shared);
      EveryRunTracked(After(c, run[0].op, run[0].shared), run[1..]);
    }
  }

  /** In every run of a new connection whose steps keep track, failing statements with savepoints open
      included, ROLLBACK of the transaction restores exactly the temp schema of the last commit. */
  lemma RollbackRestores(run: seq<Event>, shared: Shared)
    requires Run(FRESH, run) && KeepsTrackThroughout(FRESH, run)
    requires Enabled(End(FRESH, run), Rollback, shared) && !End(FRESH, run).autoCommit
    ensures var back := After(End(FRESH, run), Rollback, shared);
            TempView(back) == LastCommittedOf(FRESH, run, EMPTY) && !back.temp.dirty
  {
    hide LastCommittedOf, End, Run, KeepsTrackThroughout;
    EveryRunTracked(FRESH, run);
  }

  // ---------- Tracked is the promise ----------

  /** Whatever the connection does from here on in steps that keep track, ROLLBACK of a transaction gives the
      temp schema of the last commit. */
  ghost predicate Promise(c: Conn) {
    forall run, shared: Shared ::
      Run(c, run) && KeepsTrackThroughout(c, run) && End(c, run).phase.Idle? && !End(c, run).autoCommit ==>
        TempView(After(End(c, run), Rollback, shared)) == LastCommittedOf(c, run, Base(c))
  }

  /** Steps that keep track in every state and commit nothing. */
  predicate Mild(op: Op) { !op.TempSideEffect? && !op.SetTempStore? && !op.CommitDone? }

  function Events(ops: seq<Op>, shared: Shared): (run: seq<Event>)
    ensures |run| == |ops| && forall k :: 0 <= k < |ops| ==> run[k] == Event(ops[k], shared)
  {
    seq(|ops|, k requires 0 <= k < |ops| => Event(ops[k], shared))
  }

  lemma {:induction false} Lift(c: Conn, ops: seq<Op>, shared: Shared, last: Schema)
    requires Leftovers.CanRun(c, ops, shared) && forall k :: 0 <= k < |ops| ==> Mild(ops[k])
    ensures Run(c, Events(ops, shared)) && End(c, Events(ops, shared)) == Leftovers.Ran(c, ops, shared)
    ensures KeepsTrackThroughout(c, Events(ops, shared))
    ensures LastCommittedOf(c, Events(ops, shared), last) == last
    decreases |ops|
  {
    hide After, Enabled;
    if ops != [] {
      Lift(After(c, ops[0], shared), ops[1..], shared, last);
      assert Events(ops, shared)[1..] == Events(ops[1..], shared);
    }
  }

  /** A run to a transaction in which the live schema is not the committed one and the flag is clear. */
  predicate Lost(c: Conn, n: Conn) {
    n.phase.Idle? && !n.autoCommit && !n.temp.dirty && Base(n) == Base(c) && TempView(n) != Base(c)
  }

  lemma LiveLost(c: Conn, shared: Shared)
    requires c.phase.Idle? && !c.temp.dirty && TempView(c) != Base(c)
    ensures Leftovers.CanRun(c, [Begin], shared) && Lost(c, Leftovers.Ran(c, [Begin], shared))
  {
    hide LastNamed, MarksOf;
    Leftovers.Front(c, Begin, [], shared);
  }

  lemma TopLost(c: Conn, k: nat, shared: Shared)
    requires !c.temp.dirty && k < |c.frames| && OrEmpty(c.frames[k].temp) != Base(c)
    ensures var name := c.frames[k].mark.name;
            var top := Leftovers.Marked(c, name).(frames := c.frames[..k + 1]);
            var ops := [EnsureTemp, RollbackTo(name)];
            Leftovers.CanRun(top, ops, shared) && Lost(c, Leftovers.Ran(top, ops, shared))
  {
    var name := c.frames[k].mark.name;
    var top := Leftovers.Marked(c, name).(frames := c.frames[..k + 1]);
    var ready := top.(temp := EnsuredTemp(top.temp));
    assert LastFrame(ready.frames, name) == k by { assert ready.frames[k].mark.name == name; }
    assert LastNamed(ready.marks, name) == 0;
    SavepointSteps(ready, shared, name);
    hide LastNamed, LastFrame, MarksOf;
    Leftovers.Front(ready, RollbackTo(name), [], shared);
    Leftovers.Front(top, EnsureTemp, [RollbackTo(name)], shared);
  }

  lemma UntrackedLoses(c: Conn, shared: Shared) returns (ops: seq<Op>)
    requires c.phase.Idle? && !Tracked(c)
    ensures Leftovers.CanRun(c, ops, shared) && Lost(c, Leftovers.Ran(c, ops, shared))
    ensures forall j :: 0 <= j < |ops| ==> Mild(ops[j])
  {
    hide After, Leftovers.CanRun, Leftovers.Ran, Leftovers.Marked, Lost;
    if TempView(c) != Base(c) {
      LiveLost(c, shared);
      ops := [Begin];
    } else {
      var k :| 0 <= k < |c.frames| && OrEmpty(c.frames[k].temp) != Base(c);
      var reach := Leftovers.FrameIsReached(c, k, shared);
      TopLost(c, k, shared);
      var back := [EnsureTemp, RollbackTo(c.frames[k].mark.name)];
      Leftovers.Then(c, reach, back, shared);
      ops := reach + back;
      forall j | 0 <= j < |ops| ensures Mild(ops[j]) {
        if j < |reach| { assert Leftovers.Quiet(reach[j]); }
      }
    }
  }

  /** ROLLBACK after any steps that keep track gives the temp schema of the last commit if and only if the
      connection is tracked, for every connection between statements. */
  lemma TrackedIsThePromise(c: Conn)
    requires Initialised(c) && c.phase.Idle?
    ensures Tracked(c) <==> Promise(c)
  {
    hide After, LastCommittedOf, End, Run, KeepsTrackThroughout, Tracked;
    if Tracked(c) {
      forall run, shared: Shared | Run(c, run) && KeepsTrackThroughout(c, run)
                                   && End(c, run).phase.Idle? && !End(c, run).autoCommit
        ensures TempView(After(End(c, run), Rollback, shared)) == LastCommittedOf(c, run, Base(c))
      {
        EveryRunTracked(c, run);
        TrackedRollsBack(End(c, run), shared);
      }
    } else {
      var shared: Shared := map[];
      var ops := UntrackedLoses(c, shared);
      Lift(c, ops, shared, Base(c));
      var run := Events(ops, shared);
      LostRollsBack(c, End(c, run), shared);
      assert TempView(After(End(c, run), Rollback, shared)) != LastCommittedOf(c, run, Base(c));
    }
  }

  lemma TrackedRollsBack(c: Conn, shared: Shared)
    requires Tracked(c) && c.phase.Idle? && !c.autoCommit
    ensures TempView(After(c, Rollback, shared)) == Base(c)
  {
    hide LastNamed, MarksOf;
  }

  lemma LostRollsBack(c: Conn, n: Conn, shared: Shared)
    requires Lost(c, n)
    ensures TempView(After(n, Rollback, shared)) != Base(c)
  {
    hide LastNamed, MarksOf;
  }

  // ---------- When it does not ----------

  /** In every transaction whatsoever, ROLLBACK restores the committed temp schema exactly when the flag
      is set or the live schema is that one. */
  lemma RollbackRestoresIff(c: Conn, shared: Shared)
    requires c.phase.Idle? && !c.autoCommit
    ensures TempView(After(c, Rollback, shared)) == Base(c) <==> c.temp.dirty || TempView(c) == Base(c)
  {
  }

  /** An unflagged edit, and then ROLLBACK: undone exactly when the flag was set before or nothing changed. */
  lemma UnflaggedEditIff(c: Conn, e: Edit, shared: Shared)
    requires Tracked(c) && c.phase.Idle? && !c.autoCommit
    ensures var changed := After(c, TempSideEffect(e), shared);
            TempView(After(changed, Rollback, shared)) == Base(c)
            <==> c.temp.dirty || c.temp.live.None? || Edited(TempView(c), e) == TempView(c)
  {
    hide LastNamed, MarksOf, Edited;
  }

  /** BEGIN, DROP TABLE of a table that a temp trigger is on, ROLLBACK: the trigger is gone. */
  lemma LostTempTrigger(shared: Shared)
    ensures var s := Schema(1, map["trg" := "create temp trigger trg after insert on main.t begin select 1; end"]);
            var c := FRESH.(autoCommit := false, temp := Temp(Some(s), Some(s), false));
            var back := After(After(c, TempSideEffect(Remove("trg")), shared), Rollback, shared);
            && Initialised(c) && Tracked(c)
            && "trg" in Base(c).objects && "trg" !in TempView(back).objects
  {
    hide LastNamed, MarksOf;
  }

  /** A snapshot that is not the committed schema is what ROLLBACK gives, once ROLLBACK TO has been there
      with the flag clear. */
  lemma SnapshotSurvives(c: Conn, name: string, shared: Shared)
    requires c.phase.Idle? && !c.temp.dirty && c.temp.live.Some?
    requires LastNamed(c.marks, name) >= 0 && LastFrame(c.frames, name) >= 0
    ensures var back := After(After(After(c, RollbackTo(name), shared), Begin, shared), Rollback, shared);
            && Base(back) == Base(c)
            && TempView(back) == OrEmpty(c.frames[LastFrame(c.frames, name)].temp)
  {
    hide LastNamed, LastFrame, MarksOf;
  }

  /** A failing statement rolls the pages back but keeps the temp schema and the flag, so the next
      statement to end commits the temp schema that was to be undone. The committed schema stays what
      it was exactly when the transaction's temp changes come to nothing. */
  lemma AbortThenCommit(c: Conn, shared: Shared)
    requires Tracked(c)
    ensures var aborted := After(c, Abort, shared);
            && Enabled(aborted, Finish, shared)
            && var ended := After(aborted, Finish, shared);
               && Enabled(ended, CommitDone, shared)
               && Base(After(ended, CommitDone, shared)) == TempView(c)
               && (Base(After(ended, CommitDone, shared)) == Base(c) <==> TempView(c) == Base(c))
  {
    hide LastNamed, MarksOf;
  }

  /** SAVEPOINT, temp DDL, a failing statement, and the end of any next statement. */
  function CommittedAfterAbort(c: Conn, name: string, e: Edit): Conn {
    var changed := Saved(c, name).(temp := SideEffect(EnsuredTemp(c.temp), e).(dirty := true));
    DoneCommit(Aborted(changed).(phase := Committing(false)))
  }

  /** The steps of it can all be taken. */
  lemma CommittedAfterAbortIsARun(c: Conn, name: string, e: Edit, shared: Shared)
    requires c.phase.Idle?
    ensures var failed := After(After(After(c, Savepoint(name), shared), TempDdl(e), shared), Abort, shared);
            && Enabled(After(failed, Finish, shared), CommitDone, shared)
            && CommittedAfterAbort(c, name, e) == After(After(failed, Finish, shared), CommitDone, shared)
  {
    hide LastNamed, MarksOf, Edited;
  }

  /** From any connection whose main database is not being written: after those steps, ROLLBACK TO
      the savepoint, BEGIN and ROLLBACK, the temp schema is the one of the savepoint and the committed one
      has the change; so ROLLBACK has restored what was committed exactly when the change was none. */
  lemma LostAfterAbort(c: Conn, name: string, e: Edit, shared: Shared)
    requires c.phase.Idle? && !c.mainWrites
    ensures var back := After(After(After(CommittedAfterAbort(c, name, e), RollbackTo(name), shared), Begin, shared),
                              Rollback, shared);
            && TempView(back) == TempView(c) && Base(back) == Edited(TempView(c), e)
            && (TempView(back) == Base(back) <==> Edited(TempView(c), e) == TempView(c))
  {
    hide LastFrame, LastNamed, MarksOf, Edited;
    var d := CommittedAfterAbort(c, name, e);
    LastPushed(c, name);
    SnapshotSurvives(d, name, shared);
  }

  lemma LastPushed(c: Conn, name: string)
    ensures LastFrame(Saved(c, name).frames, name) == |c.frames|
    ensures LastNamed(Saved(c, name).marks, name) == |c.marks|
  {
    assert Saved(c, name).frames[|c.frames|].mark.name == name;
    assert Saved(c, name).marks[|c.marks|].name == name;
  }

  /** SAVEPOINT, a failing statement, a change of temp store, and the next temp statement. */
  function ResetAfterAbort(c: Conn, name: string): Conn {
    Aborted(Saved(c, name)).(temp := EnsuredTemp(Temp(None, None, false)))
  }

  lemma ResetAfterAbortIsARun(c: Conn, name: string, shared: Shared)
    requires c.phase.Idle?
    ensures var failed := After(After(c, Savepoint(name), shared), Abort, shared);
            && Enabled(failed, SetTempStore, shared)
            && ResetAfterAbort(c, name) == After(After(failed, SetTempStore, shared), EnsureTemp, shared)
  {
    hide LastNamed, MarksOf;
  }

  /** The same with a change of temp store: a schema thrown away comes back, unless it was empty. */
  lemma ReturnsAfterReset(c: Conn, name: string, shared: Shared)
    requires c.phase.Idle? && !c.mainWrites
    ensures var back := After(After(After(ResetAfterAbort(c, name), RollbackTo(name), shared), Begin, shared),
                              Rollback, shared);
            && TempView(back) == TempView(c) && Base(back) == EMPTY
            && (TempView(back) == Base(back) <==> TempView(c) == EMPTY)
  {
    hide LastFrame, LastNamed, MarksOf;
    LastPushed(c, name);
    SnapshotSurvives(ResetAfterAbort(c, name), name, shared);
  }
}
