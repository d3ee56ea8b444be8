/** What ends a transaction, and that it does: ROLLBACK, COMMIT and the RELEASE that stands for one, from
    their start to their last step. */
module TransactionEnd {
  import opened CommitOrder
  import opened ConnectionState
  import Runs = TempSchema

  /** The connection is between transactions and holds nothing of the last one. */
  predicate Ended(c: Conn) {
    && c.autoCommit && c.phase.Idle? && !c.mainWrites
    && c.marks == [] && c.frames == []
    && c.reading == {} && c.writing == {}
  }

  /** There is nothing left to roll back, and nothing keeps a database from being detached. */
  lemma EndedIsFree(c: Conn, shared: Shared)
    requires Ended(c)
    ensures After(c, Rollback, shared) == c
    ensures forall i :: i in c.attached ==> After(c, Detach(i), shared).attached == c.attached - {i}
    ensures forall i :: i in c.attached ==> i !in After(c, Detach(i), shared).staged
  {
    EndSteps(c, shared);
    forall i | i in c.attached
      ensures After(c, Detach(i), shared).attached == c.attached - {i} && i !in After(c, Detach(i), shared).staged
    {
      DetachStep(c, shared, i);
    }
    hide After;
  }

  /** ROLLBACK inside a transaction ends it, on every connection. */
  lemma RollbackEnds(c: Conn, shared: Shared)
    requires c.phase.Idle? && !c.autoCommit
    ensures var n := After(c, Rollback, shared);
            Ended(n) && n.attached == c.attached && After(n, Rollback, shared) == n
            && forall i :: i in c.attached ==> After(n, Detach(i), shared).attached == c.attached - {i}
  {
    EndSteps(c, shared);
    hide After;
    EndedIsFree(After(c, Rollback, shared), shared);
  }

  /** The commits of the attached databases leave the rest of the connection alone. */
  lemma {:induction false} CommittedKeeps(c: Conn, shared: Shared, order: seq<nat>)
    requires CanCommit(c, shared, order)
    ensures var n := Committed(c, shared, order);
            n == c.(staged := n.staged, reading := n.reading, writing := n.writing)
    decreases |order|
  {
    if order != [] {
      var before, i := order[..|order| - 1], order[|order| - 1];
      CommittedKeeps(c, shared, before);
      CommitAttachedStep(Committed(c, shared, before), SharedCommitted(c, shared, before), i);
      hide After, SharedAfter;
    }
  }

  /** The whole of a commit that has begun: the attached databases in some order, then the end. */
  predicate CanEnd(c: Conn, shared: Shared, order: seq<nat>) {
    CanCommit(c, shared, order) && Enabled(Committed(c, shared, order), CommitDone, SharedCommitted(c, shared, order))
  }

  function End(c: Conn, shared: Shared, order: seq<nat>): Conn
    requires CanEnd(c, shared, order)
  {
    After(Committed(c, shared, order), CommitDone, SharedCommitted(c, shared, order))
  }

  lemma EndFields(c: Conn, shared: Shared, order: seq<nat>)
    requires CanEnd(c, shared, order)
    ensures var n := End(c, shared, order);
            && n.phase.Idle? && !n.mainWrites && n.reading == {} && n.writing == {}
            && n.autoCommit == c.autoCommit && n.attached == c.attached
            && (c.phase == Committing(true) ==> n.marks == [] && n.frames == [])
            && (c.phase == Committing(false) ==>
                  n.frames == c.frames && n.marks == if c.mainWrites then [] else c.marks)
  {
    CommittedKeeps(c, shared, order);
    EndSteps(Committed(c, shared, order), SharedCommitted(c, shared, order));
    hide After, Committed, SharedCommitted, CommittedTemp;
  }

  /** COMMIT inside a transaction, in whatever order its attached databases are committed, ends it. */
  lemma CommitEnds(c: Conn, shared: Shared, order: seq<nat>)
    requires c.phase.Idle? && !c.autoCommit && CanEnd(After(c, Commit, shared), shared, order)
    ensures var n := End(After(c, Commit, shared), shared, order);
            Ended(n) && n.attached == c.attached && After(n, Rollback, shared) == n
            && forall i :: i in c.attached ==> After(n, Detach(i), shared).attached == c.attached - {i}
  {
    var begun := After(c, Commit, shared);
    assert begun.phase == Committing(true) && begun.autoCommit && begun.attached == c.attached;
    hide After, CanEnd, End;
    EndFields(begun, shared, order);
    EndedIsFree(End(begun, shared, order), shared);
  }

  /** A commit does not look at the frames. */
  lemma {:induction false} FramesDoNotMatter(c: Conn, frames: seq<Frame>, shared: Shared, order: seq<nat>)
    ensures var d := c.(frames := frames);
            && (CanCommit(d, shared, order) <==> CanCommit(c, shared, order))
            && (CanCommit(c, shared, order) ==>
                  && Committed(d, shared, order) == Committed(c, shared, order).(frames := frames)
                  && SharedCommitted(d, shared, order) == SharedCommitted(c, shared, order))
    decreases |order|
  {
    if order != [] {
      var d, before, i := c.(frames := frames), order[..|order| - 1], order[|order| - 1];
      FramesDoNotMatter(c, frames, shared, before);
      if CanCommit(c, shared, order) {
        CommitAttachedStep(Committed(c, shared, before), SharedCommitted(c, shared, before), i);
        CommitAttachedStep(Committed(d, shared, before), SharedCommitted(d, shared, before), i);
        hide After;
      }
    }
  }

  /** The RELEASE that closes the savepoint which began the transaction ends exactly as COMMIT does, on the
      connection and on the shared schemas. */
  lemma ReleaseIsCommit(c: Conn, name: string, shared: Shared, order: seq<nat>)
    requires c.phase.Idle? && !c.autoCommit && Ends(c.marks, LastNamed(c.marks, name))
    requires CanEnd(After(c, Commit, shared), shared, order)
    ensures var committing, releasing := After(c, Commit, shared), After(c, Release(name), shared);
            && CanEnd(releasing, shared, order)
            && End(releasing, shared, order) == End(committing, shared, order)
            && SharedCommitted(releasing, shared, order) == SharedCommitted(committing, shared, order)
  {
    var committing, releasing := After(c, Commit, shared), After(c, Release(name), shared);
    assert releasing == committing.(frames := releasing.frames) && committing.phase == Committing(true);
    hide After, LastNamed;
    FramesDoNotMatter(committing, releasing.frames, shared, order);
    CommittedKeeps(committing, shared, order);
    EndSteps(Committed(committing, shared, order), SharedCommitted(committing, shared, order));
    EndSteps(Committed(releasing, shared, order), SharedCommitted(releasing, shared, order));
    hide Committed, SharedCommitted, CanCommit, CommittedTemp;
  }

  /** Outside a transaction COMMIT and ROLLBACK are refused and change nothing. */
  lemma NothingToEnd(c: Conn, shared: Shared)
    requires c.phase.Idle? && c.autoCommit
    ensures After(c, Commit, shared) == c && After(c, Rollback, shared) == c
  {
  }

  /** A statement outside transactions, from its end to the end of its commit: what savepoint frames there are
      stay, and the main pager's savepoints go with a write to main. */
  lemma StatementEnds(c: Conn, shared: Shared, order: seq<nat>)
    requires c.phase.Idle? && c.autoCommit && CanEnd(After(c, Finish, shared), shared, order)
    ensures var n := End(After(c, Finish, shared), shared, order);
            && n.autoCommit && n.phase.Idle? && !n.mainWrites && n.reading == {} && n.writing == {}
            && n.attached == c.attached && n.frames == c.frames && n.marks == if c.mainWrites then [] else c.marks
  {
    var begun := After(c, Finish, shared);
    assert begun == c.(phase := Committing(false));
    hide After, CanEnd, End;
    EndFields(begun, shared, order);
  }

  /** A failing statement ends the transaction too, but leaves frames and temp schema, and the main pager's
      savepoints unless main was written since the last end. */
  lemma FailureEnds(c: Conn, shared: Shared)
    ensures var n := After(c, Abort, shared);
            && n.autoCommit && n.phase.Idle? && !n.mainWrites && n.reading == {} && n.writing == {}
            && n.attached == c.attached && n.frames == c.frames && n.temp == c.temp
            && (!c.mainWrites ==> n.marks == c.marks)
    ensures c.phase.Idle? ==> After(After(c, MainWrite, shared), Abort, shared).marks == []
  {
    EndSteps(c, shared);
    if c.phase.Idle? {
      var written := After(c, MainWrite, shared);
      assert written.mainWrites;
      EndSteps(written, shared);
    }
    hide After;
  }

  /** A lock on an attached database, for reading or for writing, keeps it from being detached. */
  lemma LockedStays(c: Conn, i: nat, write: bool, shared: Shared)
    requires c.phase.Idle? && i in c.attached
    ensures var n := After(c, Lock(i, write), shared);
            i in n.reading && (write ==> i in n.writing) && i in n.attached && After(n, Detach(i), shared) == n
  {
    var n := After(c, Lock(i, write), shared);
    assert n.phase.Idle? && n.attached == c.attached;
    DetachStep(n, shared, i);
    hide After;
  }

  predicate Innermost(marks: seq<Mark>, name: string, k: nat) {
    k < |marks| && marks[k].name == name && forall j :: k < j < |marks| ==> marks[j].name != name
  }

  /** ROLLBACK TO keeps the marks up to the innermost of that name; without a frame of the name it changes
      nothing else, and without a mark nothing at all. */
  lemma MarksAfterRollbackTo(c: Conn, name: string, shared: Shared, k: nat)
    requires c.phase.Idle?
    ensures var n := After(c, RollbackTo(name), shared);
            && ((forall m :: m in c.marks ==> m.name != name) ==> n == c)
            && (Innermost(c.marks, name, k) ==>
                  && n.marks == c.marks[..k + 1]
                  && ((forall f :: f in c.frames ==> f.mark.name != name) ==> n == c.(marks := n.marks)))
  {
    SavepointSteps(c, shared, name);
    hide After, RestoredTemp;
    assert LastNamed(c.marks, name) >= 0 ==> c.marks[LastNamed(c.marks, name)] in c.marks;
    assert LastFrame(c.frames, name) >= 0 ==> c.frames[LastFrame(c.frames, name)] in c.frames;
  }

  // ---------- When a connection is inside a transaction ----------

  predicate Opens(op: Op) { op.Begin? || op.Savepoint? }

  /** COMMIT, ROLLBACK, a failing statement, and RELEASE of the savepoint that began the transaction where it
      is at the bottom of the main pager's stack. */
  predicate Closes(c: Conn, op: Op) {
    op.Commit? || op.Rollback? || op.Abort? || (op.Release? && Ends(c.marks, LastNamed(c.marks, op.name)))
  }

  predicate NoneOpens(run: seq<Runs.Event>) { forall k :: 0 <= k < |run| ==> !Opens(run[k].op) }

  predicate NoneCloses(c: Conn, run: seq<Runs.Event>)
    requires Runs.Run(c, run)
    decreases |run|
  {
    run == [] || (!Closes(c, run[0].op) && NoneCloses(After(c, run[0].op, run[0].shared), run[1..]))
  }

  lemma StepOpens(c: Conn, op: Op, shared: Shared)
    requires Enabled(c, op, shared)
    ensures After(c, op, shared).autoCommit <==> !Opens(op) && (c.autoCommit || Closes(c, op))
  {
    hide LastNamed, LastFrame, MarksOf, Edited, View, EnsuredTemp, SideEffect, RestoredTemp, CommittedTemp,
         RolledBackTemp;
  }

  lemma {:induction false} StaysInside(c: Conn, run: seq<Runs.Event>)
    requires Runs.Run(c, run) && !c.autoCommit && NoneCloses(c, run)
    ensures !Runs.End(c, run).autoCommit
    decreases |run|
  {
    hide After, Enabled;
    if run != [] {
      StepOpens(c, run[0].op, run[0].shared);
      StaysInside(After(c, run[0].op, run[0].shared), run[1..]);
    }
  }

  lemma {:induction false} StaysOutside(c: Conn, run: seq<Runs.Event>)
    requires Runs.Run(c, run) && c.autoCommit && NoneOpens(run)
    ensures Runs.End(c, run).autoCommit
    decreases |run|
  {
    hide After, Enabled;
    if run != [] {
      StepOpens(c, run[0].op, run[0].shared);
      StaysOutside(After(c, run[0].op, run[0].shared), run[1..]);
    }
  }

  /** BEGIN or SAVEPOINT and any later steps leave the connection inside a transaction as long as none of them
      closes it; a step that does, and any later ones, leave it outside as long as none opens another. */
  lemma InsideSince(c: Conn, e: Runs.Event, run: seq<Runs.Event>)
    requires Enabled(c, e.op, e.shared) && Runs.Run(After(c, e.op, e.shared), run)
    ensures var n := After(c, e.op, e.shared);
            && (Opens(e.op) && NoneCloses(n, run) ==> !Runs.End(n, run).autoCommit)
            && (Closes(c, e.op) && NoneOpens(run) ==> Runs.End(n, run).autoCommit)
  {
    hide After, Enabled;
    StepOpens(c, e.op, e.shared);
    var n := After(c, e.op, e.shared);
    if Opens(e.op) && NoneCloses(n, run) { StaysInside(n, run); }
    if Closes(c, e.op) && NoneOpens(run) { StaysOutside(n, run); }
  }
}
