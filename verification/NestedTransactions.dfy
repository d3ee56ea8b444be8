/** Savepoint frames with schema snapshots refine nested transactions. The reference has no
    snapshots: it is a log of the schema changes made so far with a mark for each open savepoint,
    where ROLLBACK TO cuts the log at a mark and RELEASE only takes marks out. */
module NestedTransactions {
  import opened Common
  import opened ConnectionState

  /** What a savepoint protects. */
  datatype Schemas = Schemas(temp: Schema, staged: map<nat, Schema>)

  function SchemasOf(c: Conn): Schemas { Schemas(TempView(c), c.staged) }

  function FrameSchemas(f: Frame): Schemas { Schemas(OrEmpty(f.temp), f.staged) }

  datatype Entry =
    | Marked(mark: Mark)
    | TempChange(edit: Edit)
    | Change(index: nat, base: Schema, edit: Edit)
    | Dropped(index: nat)

  type Log = seq<Entry>

  function Applied(s: Schemas, e: Entry): Schemas {
    match e
    case Marked(_) => s
    case TempChange(edit) => s.(temp := Edited(s.temp, edit))
    case Dropped(i) => s.(staged := s.staged - {i})
    case Change(i, base, edit) => s.(staged := s.staged[i := Edited(if i in s.staged then s.staged[i] else base, edit)])
  }

  function Replay(s: Schemas, log: Log): Schemas {
    if log == [] then s else Applied(Replay(s, log[..|log| - 1]), log[|log| - 1])
  }

  predicate IsMark(e: Entry, name: string) { e.Marked? && e.mark.name == name }

  predicate HasMark(log: Log, name: string) {
    log != [] && (IsMark(log[|log| - 1], name) || HasMark(log[..|log| - 1], name))
  }

  /** The log up to and including the last mark of that name. */
  function Cut(log: Log, name: string): (cut: Log)
    requires HasMark(log, name)
    ensures cut != [] && IsMark(cut[|cut| - 1], name)
  {
    if IsMark(log[|log| - 1], name) then log else Cut(log[..|log| - 1], name)
  }

  /** The log without the last mark of that name and without the marks after it. */
  function Merged(log: Log, name: string): Log
    requires HasMark(log, name)
  {
    var rest := log[..|log| - 1];
    if IsMark(log[|log| - 1], name) then rest
    else if log[|log| - 1].Marked? then Merged(rest, name)
    else Merged(rest, name) + [log[|log| - 1]]
  }

  function MarkCount(log: Log): nat {
    if log == [] then 0 else MarkCount(log[..|log| - 1]) + (if log[|log| - 1].Marked? then 1 else 0)
  }

  /** Releasing the outermost mark of a transaction that a savepoint started is its commit. */
  predicate ReleaseCommits(log: Log, name: string)
    requires HasMark(log, name)
  {
    var cut := Cut(log, name);
    MarkCount(cut) == 1 && cut[|cut| - 1].mark.starts
  }

  /** The steps that a transaction is made of. */
  predicate Inside(op: Op) {
    op.Savepoint? || op.Release? || op.ReleaseRefused? || op.RollbackTo? || op.MainWrite? || op.Lock? || op.Ddl?
    || op.EnsureTemp? || op.TempDdl? || op.TempSideEffect? || op.Attach? || op.Detach?
  }

  function LogAfter(log: Log, c: Conn, op: Op, shared: Shared): Log
    requires Enabled(c, op, shared)
  {
    match op
    case Savepoint(name) => log + [Marked(Mark(name, c.autoCommit))]
    case RollbackTo(name) => if HasMark(log, name) then Cut(log, name) else log
    case Release(name) => if HasMark(log, name) && !ReleaseCommits(log, name) then Merged(log, name) else log
    case Ddl(i, e) => log + [Change(i, shared[c.attached[i]], e)]
    case TempDdl(e) => log + [TempChange(e)]
    case TempSideEffect(e) => if c.temp.live.Some? then log + [TempChange(e)] else log
    case Detach(i) => if i in c.reading || i in c.writing then log else log + [Dropped(i)]
    case _ => log
  }

  // ---------- The simulation ----------

  /** The frames are the marks of the log, and each holds the replay of what came before its mark. */
  predicate FramesMatch(frames: seq<Frame>, s: Schemas, log: Log) {
    if log == [] then frames == []
    else
      var rest := log[..|log| - 1];
      if log[|log| - 1].Marked? then
        && frames != []
        && frames[|frames| - 1].mark == log[|log| - 1].mark
        && FrameSchemas(frames[|frames| - 1]) == Replay(s, rest)
        && FramesMatch(frames[..|frames| - 1], s, rest)
      else FramesMatch(frames, s, rest)
  }

  predicate Simulates(c: Conn, s: Schemas, log: Log) {
    SchemasOf(c) == Replay(s, log) && FramesMatch(c.frames, s, log)
  }

  lemma Extend(s: Schemas, log: Log, e: Entry)
    ensures Replay(s, log + [e]) == Applied(Replay(s, log), e)
  {
    assert (log + [e])[..|log|] == log;
  }

  lemma ExtendFrames(frames: seq<Frame>, s: Schemas, log: Log, e: Entry)
    requires FramesMatch(frames, s, log) && !e.Marked?
    ensures FramesMatch(frames, s, log + [e])
  {
    assert (log + [e])[..|log|] == log;
  }

  lemma PushFrame(frames: seq<Frame>, s: Schemas, log: Log, f: Frame)
    requires FramesMatch(frames, s, log) && FrameSchemas(f) == Replay(s, log)
    ensures FramesMatch(frames + [f], s, log + [Marked(f.mark)])
  {
    assert (log + [Marked(f.mark)])[..|log|] == log;
    assert (frames + [f])[..|frames|] == frames;
  }

  lemma LastFrameInit(frames: seq<Frame>, name: string)
    requires frames != [] && frames[|frames| - 1].mark.name != name
    ensures LastFrame(frames, name) == LastFrame(frames[..|frames| - 1], name)
  {
    var marks := MarksOf(frames);
    PrefixMarks(frames, |frames| - 1);
    assert LastNamed(marks, name) == LastNamed(marks[..|marks| - 1], name);
  }

  lemma {:induction false} MarksAgree(frames: seq<Frame>, s: Schemas, log: Log, name: string)
    requires FramesMatch(frames, s, log)
    ensures HasMark(log, name) <==> LastFrame(frames, name) >= 0
    ensures MarkCount(log) == |frames|
    decreases |log|
  {
    if log != [] {
      var rest := log[..|log| - 1];
      if log[|log| - 1].Marked? {
        MarksAgree(frames[..|frames| - 1], s, rest, name);
        if !IsMark(log[|log| - 1], name) { LastFrameInit(frames, name); }
      } else {
        MarksAgree(frames, s, rest, name);
      }
    }
  }

  lemma {:induction false} CutMatches(frames: seq<Frame>, s: Schemas, log: Log, name: string)
    requires FramesMatch(frames, s, log) && HasMark(log, name)
    ensures var k := LastFrame(frames, name);
            var cut := Cut(log, name);
            && k >= 0
            && cut != [] && IsMark(cut[|cut| - 1], name)
            && FramesMatch(frames[..k + 1], s, cut)
            && FrameSchemas(frames[k]) == Replay(s, cut)
            && frames[k].mark == cut[|cut| - 1].mark
    decreases |log|
  {
    MarksAgree(frames, s, log, name);
    var rest := log[..|log| - 1];
    if IsMark(log[|log| - 1], name) {
      assert frames[..|frames|] == frames;
    } else if log[|log| - 1].Marked? {
      LastFrameInit(frames, name);
      CutMatches(frames[..|frames| - 1], s, rest, name);
      var k := LastFrame(frames, name);
      assert frames[..|frames| - 1][..k + 1] == frames[..k + 1];
    } else {
      CutMatches(frames, s, rest, name);
    }
  }

  lemma {:induction false} MergedMatches(frames: seq<Frame>, s: Schemas, log: Log, name: string)
    requires FramesMatch(frames, s, log) && HasMark(log, name)
    ensures LastFrame(frames, name) >= 0
    ensures FramesMatch(frames[..LastFrame(frames, name)], s, Merged(log, name))
    ensures Replay(s, Merged(log, name)) == Replay(s, log)
    decreases |log|
  {
    MarksAgree(frames, s, log, name);
    var rest := log[..|log| - 1];
    if !IsMark(log[|log| - 1], name) {
      if log[|log| - 1].Marked? {
        LastFrameInit(frames, name);
        MergedMatches(frames[..|frames| - 1], s, rest, name);
        var k := LastFrame(frames, name);
        assert frames[..|frames| - 1][..k] == frames[..k];
      } else {
        MergedMatches(frames, s, rest, name);
        Extend(s, Merged(rest, name), log[|log| - 1]);
        ExtendFrames(frames[..LastFrame(frames, name)], s, Merged(rest, name), log[|log| - 1]);
      }
    }
  }

  // ---------- One step ----------

  /** All that the simulation asks of a connection besides the log: the two stacks are in step, frames are open
      inside transactions only, and the temp database is not taken away from under them. */
  predicate Stacked(c: Conn) {
    && c.marks == MarksOf(c.frames)
    && (c.phase.Idle? && c.autoCommit ==> c.frames == [])
    && forall k :: 0 <= k < |c.frames| ==> TempKept(c.frames[k], c)
  }

  predicate TempKept(f: Frame, c: Conn) { f.temp.Some? ==> c.temp.live.Some? }

  lemma SavepointsStacked(c: Conn, name: string)
    requires Stacked(c) && c.phase.Idle?
    ensures Stacked(Saved(c, name)) && Stacked(Released(c, name)) && Stacked(RolledBackTo(c, name))
  {
    assert MarksOf(Saved(c, name).frames) == Saved(c, name).marks;
    LastFrameInStep(c, name);
    var k := LastFrame(c.frames, name);
    if k >= 0 {
      PrefixMarks(c.frames, k);
      PrefixMarks(c.frames, k + 1);
    }
  }

  lemma StepStacked(c: Conn, op: Op, shared: Shared)
    requires Stacked(c) && c.phase.Idle? && Enabled(c, op, shared) && Inside(op)
    ensures Stacked(After(c, op, shared))
  {
    hide Saved, Released, RolledBackTo, Refused, Edited, View, LastNamed, MarksOf;
    match op
    case Savepoint(name) => SavepointsStacked(c, name);
    case Release(name) => SavepointsStacked(c, name);
    case ReleaseRefused(name) => RefusedInStep(c, name);
    case RollbackTo(name) => SavepointsStacked(c, name);
    case _ =>
  }

  lemma RollbackToSimulates(c: Conn, s: Schemas, log: Log, name: string)
    requires Stacked(c) && c.phase.Idle? && Simulates(c, s, log)
    ensures Simulates(RolledBackTo(c, name), s, if HasMark(log, name) then Cut(log, name) else log)
  {
    hide Cut, HasMark, FramesMatch, Replay, LastFrame, LastNamed, MarksOf;
    LastFrameInStep(c, name);
    MarksAgree(c.frames, s, log, name);
    if HasMark(log, name) {
      CutMatches(c.frames, s, log, name);
      var k := LastFrame(c.frames, name);
      assert TempKept(c.frames[k], c);
    }
  }

  /** The mark that a release names is the bottom frame exactly when it is the log's only mark up to there. */
  lemma CommitAgrees(frames: seq<Frame>, s: Schemas, log: Log, name: string)
    requires FramesMatch(frames, s, log) && HasMark(log, name)
    ensures LastFrame(frames, name) >= 0
    ensures ReleaseCommits(log, name) <==> Ends(MarksOf(frames), LastFrame(frames, name))
  {
    CutMatches(frames, s, log, name);
    MarksAgree(frames[..LastFrame(frames, name) + 1], s, Cut(log, name), name);
  }

  lemma ReleaseSimulates(c: Conn, s: Schemas, log: Log, name: string)
    requires Stacked(c) && c.phase.Idle? && Simulates(c, s, log)
    ensures Simulates(Released(c, name), s,
                      if HasMark(log, name) && !ReleaseCommits(log, name) then Merged(log, name) else log)
    ensures Released(c, name).phase.Committing? <==> HasMark(log, name) && ReleaseCommits(log, name)
  {
    LastFrameInStep(c, name);
    MarksAgree(c.frames, s, log, name);
    if HasMark(log, name) {
      CommitAgrees(c.frames, s, log, name);
      MergedMatches(c.frames, s, log, name);
    }
  }

  lemma StepSimulates(c: Conn, s: Schemas, log: Log, op: Op, shared: Shared)
    requires Stacked(c) && c.phase.Idle? && Enabled(c, op, shared) && Inside(op)
    requires Simulates(c, s, log)
    ensures Simulates(After(c, op, shared), s, LogAfter(log, c, op, shared))
  {
    hide Simulates;
    match op
    case Savepoint(name) =>
      SavepointSimulates(c, s, log, name);
    case Release(name) => ReleaseSimulates(c, s, log, name);
    case RollbackTo(name) => RollbackToSimulates(c, s, log, name);
    case _ => ChangeSimulates(c, s, log, op, shared);
  }

  lemma SavepointSimulates(c: Conn, s: Schemas, log: Log, name: string)
    requires Simulates(c, s, log)
    ensures Simulates(Saved(c, name), s, log + [Marked(Mark(name, c.autoCommit))])
  {
    var mark := Mark(name, c.autoCommit);
    Extend(s, log, Marked(mark));
    PushFrame(c.frames, s, log, Frame(mark, c.temp.live, c.staged));
  }

  predicate IsChange(op: Op) {
    Inside(op) && !op.Savepoint? && !op.Release? && !op.ReleaseRefused? && !op.RollbackTo?
  }

  /** A change touches the schemas as its log entry says, and the frames not at all. */
  lemma ChangeApplies(c: Conn, op: Op, shared: Shared, log: Log)
    requires Enabled(c, op, shared) && IsChange(op)
    ensures After(c, op, shared).frames == c.frames
    ensures var next := LogAfter(log, c, op, shared);
            || (next == log && SchemasOf(After(c, op, shared)) == SchemasOf(c))
            || (exists e ::
                  next == log + [e] && !e.Marked? && SchemasOf(After(c, op, shared)) == Applied(SchemasOf(c), e))
  {
    hide LastNamed, MarksOf, Cut, Merged, HasMark;
    match op
    case Ddl(i, e) =>
      assert LogAfter(log, c, op, shared) == log + [Change(i, shared[c.attached[i]], e)];
    case TempDdl(e) =>
      assert LogAfter(log, c, op, shared) == log + [TempChange(e)];
    case TempSideEffect(e) =>
      assert c.temp.live.Some? ==> LogAfter(log, c, op, shared) == log + [TempChange(e)];
    case Detach(i) =>
      assert i !in c.reading && i !in c.writing ==> LogAfter(log, c, op, shared) == log + [Dropped(i)];
    case _ =>
  }

  lemma ChangeSimulates(c: Conn, s: Schemas, log: Log, op: Op, shared: Shared)
    requires Stacked(c) && Enabled(c, op, shared) && (IsChange(op) || op.ReleaseRefused?)
    requires Simulates(c, s, log)
    ensures Simulates(After(c, op, shared), s, LogAfter(log, c, op, shared))
  {
    if op.ReleaseRefused? {
      hide LastNamed, LastFrame, MarksOf, Replay, FramesMatch;
      RefusedInStep(c, op.name);
    } else {
      ChangeApplies(c, op, shared, log);
      hide After, LogAfter, Applied, Replay, FramesMatch, Enabled, Stacked;
      var next := LogAfter(log, c, op, shared);
      if next != log {
        var e :| next == log + [e] && !e.Marked? && SchemasOf(After(c, op, shared)) == Applied(SchemasOf(c), e);
        Extend(s, log, e);
        ExtendFrames(c.frames, s, log, e);
      }
    }
  }

  // ---------- Whole transactions ----------

  /** A step together with the shared schemas at that moment, which other connections may have changed
      since the last one. */
  datatype Event = Event(op: Op, shared: Shared)

  /** A run inside one transaction. A release that commits can only be the last step. */
  predicate Transaction(c: Conn, run: seq<Event>)
    decreases |run|
  {
    run == [] || (&& c.phase.Idle? && Inside(run[0].op) && Enabled(c, run[0].op, run[0].shared)
                  && Transaction(After(c, run[0].op, run[0].shared), run[1..]))
  }

  function RunOf(c: Conn, run: seq<Event>): Conn
    requires Transaction(c, run)
    decreases |run|
  {
    if run == [] then c else RunOf(After(c, run[0].op, run[0].shared), run[1..])
  }

  function LogOf(c: Conn, log: Log, run: seq<Event>): Log
    requires Transaction(c, run)
    decreases |run|
  {
    if run == [] then log
    else LogOf(After(c, run[0].op, run[0].shared), LogAfter(log, c, run[0].op, run[0].shared), run[1..])
  }

  lemma {:induction false} RunSimulates(c: Conn, s: Schemas, log: Log, run: seq<Event>)
    requires Stacked(c) && Simulates(c, s, log) && Transaction(c, run)
    ensures Stacked(RunOf(c, run)) && Simulates(RunOf(c, run), s, LogOf(c, log, run))
    decreases |run|
  {
    hide Simulates, Stacked;
    if run != [] {
      var next := After(c, run[0].op, run[0].shared);
      StepStacked(c, run[0].op, run[0].shared);
      StepSimulates(c, s, log, run[0].op, run[0].shared);
      RunSimulates(next, s, LogAfter(log, c, run[0].op, run[0].shared), run[1..]);
    }
  }

  /** Every run of savepoints, releases, partial rollbacks and schema changes that starts with no
      savepoint open leaves the connection with the schemas that replaying the log gives, and with
      one frame for each open mark. */
  lemma RefinesNestedTransactions(c: Conn, run: seq<Event>)
    requires c.frames == [] && c.marks == [] && Transaction(c, run)
    ensures SchemasOf(RunOf(c, run)) == Replay(SchemasOf(c), LogOf(c, [], run))
    ensures FramesMatch(RunOf(c, run).frames, SchemasOf(c), LogOf(c, [], run))
  {
    RunSimulates(c, SchemasOf(c), [], run);
  }

  // ---------- What a user of savepoints relies on ----------

  /** Partial rollback twice is the same as once, in every state. */
  lemma RollbackToIdempotent(c: Conn, name: string)
    ensures RolledBackTo(RolledBackTo(c, name), name) == RolledBackTo(c, name)
  {
    hide LastFrame, LastNamed, MarksOf;
    var k := LastNamed(c.marks, name);
    var j := LastFrame(c.frames, name);
    if k >= 0 {
      CutLast(c.marks, name);
      if j >= 0 { CutFrame(c.frames, name); }
    }
  }

  lemma CutLast(marks: seq<Mark>, name: string)
    requires LastNamed(marks, name) >= 0
    ensures LastNamed(marks[..LastNamed(marks, name) + 1], name) == LastNamed(marks, name)
    ensures marks[..LastNamed(marks, name) + 1][..LastNamed(marks, name) + 1] == marks[..LastNamed(marks, name) + 1]
  {
    assert marks[..LastNamed(marks, name) + 1][LastNamed(marks, name)].name == name;
  }

  lemma CutFrame(frames: seq<Frame>, name: string)
    requires LastFrame(frames, name) >= 0
    ensures LastFrame(frames[..LastFrame(frames, name) + 1], name) == LastFrame(frames, name)
    ensures var kept := frames[..LastFrame(frames, name) + 1]; kept[..LastFrame(frames, name) + 1] == kept
  {
    PrefixMarks(frames, LastFrame(frames, name) + 1);
    CutLast(MarksOf(frames), name);
  }

  // ---------- Savepoints on any connection ----------

  /** Every state of the run has more than k frames and more than m marks. */
  predicate Above(c: Conn, run: seq<Event>, k: nat, m: nat)
    requires Transaction(c, run)
    decreases |run|
  {
    |c.frames| > k && |c.marks| > m && (run == [] || Above(After(c, run[0].op, run[0].shared), run[1..], k, m))
  }

  predicate SameFrames(c: Conn, n: Conn, k: nat) {
    |c.frames| > k && |n.frames| > k ==> n.frames[..k + 1] == c.frames[..k + 1]
  }

  predicate SameMarks(c: Conn, n: Conn, m: nat) {
    |c.marks| > m && |n.marks| > m ==> n.marks[..m + 1] == c.marks[..m + 1]
  }

  /** A prefix of both stacks is the same. */
  predicate SamePrefix(c: Conn, n: Conn, k: nat, m: nat) { SameFrames(c, n, k) && SameMarks(c, n, m) }

  lemma SavepointsKeepFrames(c: Conn, name: string, k: nat)
    ensures SameFrames(c, Saved(c, name), k) && SameFrames(c, Released(c, name), k)
    ensures SameFrames(c, Refused(c, name), k) && SameFrames(c, RolledBackTo(c, name), k)
  {
    hide LastFrame, LastNamed, MarksOf, RestoredTemp, Ends;
  }

  lemma SavepointsKeepMarks(c: Conn, name: string, m: nat)
    ensures SameMarks(c, Saved(c, name), m) && SameMarks(c, Released(c, name), m)
    ensures SameMarks(c, Refused(c, name), m) && SameMarks(c, RolledBackTo(c, name), m)
  {
    hide LastFrame, LastNamed, MarksOf, RestoredTemp, Ends, ReleasedFrames;
  }

  lemma SavepointsKeepPrefix(c: Conn, name: string, k: nat, m: nat)
    ensures SamePrefix(c, Saved(c, name), k, m) && SamePrefix(c, Released(c, name), k, m)
    ensures SamePrefix(c, Refused(c, name), k, m) && SamePrefix(c, RolledBackTo(c, name), k, m)
  {
    hide SameFrames, SameMarks, Saved, Released, Refused, RolledBackTo;
    SavepointsKeepFrames(c, name, k);
    SavepointsKeepMarks(c, name, m);
  }

  lemma StepKeepsPrefix(c: Conn, op: Op, shared: Shared, k: nat, m: nat)
    requires Enabled(c, op, shared) && Inside(op)
    ensures SamePrefix(c, After(c, op, shared), k, m)
  {
    hide Saved, Released, RolledBackTo, Refused, Edited, View, EnsuredTemp, SideEffect;
    match op
    case Savepoint(name) => SavepointsKeepPrefix(c, name, k, m);
    case Release(name) => SavepointsKeepPrefix(c, name, k, m);
    case ReleaseRefused(name) => SavepointsKeepPrefix(c, name, k, m);
    case RollbackTo(name) => SavepointsKeepPrefix(c, name, k, m);
    case _ =>
  }

  /** Inside a transaction the temp database stays initialised, and the transaction ends only by a commit. */
  lemma StepStaysInside(c: Conn, op: Op, shared: Shared)
    requires c.phase.Idle? && !c.autoCommit && Enabled(c, op, shared) && Inside(op)
    ensures c.temp.live.Some? ==> After(c, op, shared).temp.live.Some?
    ensures After(c, op, shared).phase.Idle? ==> !After(c, op, shared).autoCommit
  {
    hide LastFrame, LastNamed, MarksOf, Edited, View;
  }

  lemma {:induction false} RunKeepsOpen(c: Conn, run: seq<Event>, k: nat, m: nat)
    requires c.phase.Idle? && !c.autoCommit && Transaction(c, run) && Above(c, run, k, m)
    ensures var end := RunOf(c, run);
            && |end.frames| > k && |end.marks| > m && SamePrefix(c, end, k, m)
            && (end.phase.Idle? ==> !end.autoCommit && (c.temp.live.Some? ==> end.temp.live.Some?))
    decreases |run|
  {
    hide After, Enabled, Inside;
    if run != [] {
      var next := After(c, run[0].op, run[0].shared);
      StepKeepsPrefix(c, run[0].op, run[0].shared, k, m);
      StepStaysInside(c, run[0].op, run[0].shared);
      if next.phase.Idle? {
        RunKeepsOpen(next, run[1..], k, m);
      } else {
        assert run[1..] == [];
      }
    }
  }

  /** SAVEPOINT name was followed by a run in which it stayed open on both stacks, and it is the innermost of
      its name. */
  predicate StaysOpen(c: Conn, name: string, run: seq<Event>) {
    && c.phase.Idle? && Transaction(Saved(c, name), run)
    && Above(Saved(c, name), run, |c.frames|, |c.marks|)
    && var end := RunOf(Saved(c, name), run);
       && end.phase.Idle?
       && LastFrame(end.frames, name) == |c.frames| && LastNamed(end.marks, name) == |c.marks|
  }

  /** What stays at the place of the savepoint. */
  lemma OpenSavepoint(c: Conn, name: string, run: seq<Event>)
    requires StaysOpen(c, name, run)
    ensures var end := RunOf(Saved(c, name), run);
            && |end.frames| > |c.frames| && |end.marks| > |c.marks|
            && end.frames[..|c.frames| + 1] == Saved(c, name).frames && end.frames[..|c.frames|] == c.frames
            && end.marks[..|c.marks| + 1] == Saved(c, name).marks && end.marks[..|c.marks|] == c.marks
            && end.frames[|c.frames|] == Frame(Mark(name, c.autoCommit), c.temp.live, c.staged)
            && end.marks[|c.marks|] == Mark(name, c.autoCommit)
            && !end.autoCommit && (c.temp.live.Some? ==> end.temp.live.Some?)
  {
    hide RunOf, Transaction, Above, LastFrame, LastNamed;
    var open, k, m := Saved(c, name), |c.frames|, |c.marks|;
    RunKeepsOpen(open, run, k, m);
    var end := RunOf(open, run);
    assert open.frames[..k + 1] == open.frames && open.marks[..m + 1] == open.marks;
    assert end.frames[..k] == end.frames[..k + 1][..k] && end.marks[..m] == end.marks[..m + 1][..m];
    assert end.frames[k] == end.frames[..k + 1][k] && end.marks[m] == end.marks[..m + 1][m];
  }

  /** On every connection: SAVEPOINT, any run that does not close it, ROLLBACK TO restore the schemas of the
      moment of the SAVEPOINT, and leave it open with exactly what was below it on both stacks. */
  lemma RollbackToUndoes(c: Conn, name: string, run: seq<Event>)
    requires StaysOpen(c, name, run)
    ensures var back := RolledBackTo(RunOf(Saved(c, name), run), name);
            && SchemasOf(back) == SchemasOf(c)
            && back.frames == Saved(c, name).frames && back.marks == Saved(c, name).marks
  {
    hide RunOf, Transaction, Above, LastFrame, LastNamed, MarksOf;
    OpenSavepoint(c, name, run);
  }

  /** On every connection: SAVEPOINT, any run that does not close it, RELEASE lose nothing that the run did. The
      commit starts if and only if the savepoint began the transaction and the main pager had no other; if not,
      the transaction goes on with exactly what was below the savepoint on both stacks. */
  lemma ReleaseCloses(c: Conn, name: string, run: seq<Event>)
    requires StaysOpen(c, name, run)
    ensures var end := RunOf(Saved(c, name), run);
            var closed := Released(end, name);
            && SchemasOf(closed) == SchemasOf(end)
            && (closed.phase == Committing(true) <==> c.autoCommit && c.marks == [])
            && (closed.phase == Committing(true) || (closed.phase == Idle && !closed.autoCommit))
            && closed.marks == (if c.autoCommit && c.marks == [] then end.marks else c.marks)
            && closed.frames == (if c.autoCommit && c.frames == [] then end.frames else c.frames)
  {
    hide RunOf, Transaction, Above, LastFrame, LastNamed;
    OpenSavepoint(c, name, run);
  }

  /** So a savepoint that begins a transaction may be released without committing it: after a failing statement
      that left an earlier savepoint on the main pager, SAVEPOINT and RELEASE leave the connection inside a
      transaction. */
  lemma ReleaseWithoutCommit(c: Conn, s: string, a: string, shared: Shared)
    requires c.phase.Idle? && !c.mainWrites
    ensures var failed := After(After(c, Savepoint(s), shared), Abort, shared);
            var released := After(After(failed, Savepoint(a), shared), Release(a), shared);
            && failed.autoCommit && released.phase == Idle && !released.autoCommit
  {
    var failed := Aborted(Saved(c, s));
    SavepointSteps(c, shared, s);
    EndSteps(Saved(c, s), shared);
    SavepointSteps(failed, shared, a);
    SavepointSteps(Saved(failed, a), shared, a);
    hide After, Released, LastFrame, LastNamed;
    NewIsInnermost(failed, a);
    ReleaseCloses(failed, a, []);
  }

  lemma NewIsInnermost(c: Conn, name: string)
    ensures LastFrame(Saved(c, name).frames, name) == |c.frames| && LastNamed(Saved(c, name).marks, name) == |c.marks|
  {
    assert Saved(c, name).frames[|c.frames|].mark.name == name;
    assert Saved(c, name).marks[|c.marks|].name == name;
  }

  /** BEGIN, SAVEPOINT s, a failing statement, SAVEPOINT a, RELEASE a, from a new connection. */
  lemma ReleaseWithoutCommitExample(shared: Shared)
    ensures var failed := After(After(After(FRESH, Begin, shared), Savepoint("s"), shared), Abort, shared);
            var released := After(After(failed, Savepoint("a"), shared), Release("a"), shared);
            failed.autoCommit && released.phase == Idle && !released.autoCommit
  {
    ReleaseWithoutCommit(After(FRESH, Begin, shared), "s", "a", shared);
  }
}
