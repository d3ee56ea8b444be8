/** The schema and savepoint state of one connection in WAL mode, as a value, and the
    steps that change it: savepoints, schema changes, commit in its phases, rollback,
    ATTACH and DETACH. */
module ConnectionState {
  import opened Common

  type DbId = nat

  type Shared = map<DbId, Schema>

  const TEMP_DB_ID: nat := 1

  datatype Schema = Schema(version: nat, objects: map<string, string>)

  const EMPTY := Schema(0, map[])

  datatype Edit = Define(name: string, sql: string) | Remove(name: string) | SetVersion(version: nat)

  function Edited(s: Schema, e: Edit): Schema {
    match e
    case Define(name, sql) => s.(objects := s.objects[name := sql])
    case Remove(name) => s.(objects := s.objects - {name})
    case SetVersion(version) => s.(version := version)
  }

  function OrEmpty(s: Option<Schema>): Schema { if s.Some? then s.value else EMPTY }

  /** A named savepoint as the main pager keeps it. */
  datatype Mark = Mark(name: string, starts: bool)

  /** The same savepoint as the connection keeps it, with the schemas of that moment. */
  datatype Frame = Frame(mark: Mark, temp: Option<Schema>, staged: map<nat, Schema>)

  /** The temp database: its schema once it is initialised, the copy taken at the last commit,
      and the flag that temp DDL has run since. */
  datatype Temp = Temp(live: Option<Schema>, committed: Option<Schema>, dirty: bool)

  datatype Phase = Idle | Committing(explicit: bool)

  datatype Conn = Conn(
    phase: Phase,
    autoCommit: bool,
    mainWrites: bool,
    marks: seq<Mark>,
    frames: seq<Frame>,
    staged: map<nat, Schema>,
    temp: Temp,
    attached: map<nat, DbId>,
    reading: set<nat>,
    writing: set<nat>)

  const FRESH := Conn(Idle, true, false, [], [], map[], Temp(None, None, false), map[], {}, {})

  /** The schema that the connection sees for an attached database. */
  function View(c: Conn, shared: Shared, index: nat): Schema
    requires index in c.attached && c.attached[index] in shared
  {
    if index in c.staged then c.staged[index] else shared[c.attached[index]]
  }

  function TempView(c: Conn): Schema { OrEmpty(c.temp.live) }

  // ---------- Savepoint stacks ----------

  function MarksOf(frames: seq<Frame>): (marks: seq<Mark>)
    ensures |marks| == |frames|
    ensures forall k :: 0 <= k < |frames| ==> marks[k] == frames[k].mark
  {
    seq(|frames|, k requires 0 <= k < |frames| => frames[k].mark)
  }

  /** `rposition` of a name; -1 when it is absent. */
  function LastNamed(marks: seq<Mark>, name: string): (k: int)
    ensures -1 <= k < |marks|
    ensures k >= 0 ==> marks[k].name == name
    ensures forall j :: k < j < |marks| ==> marks[j].name != name
  {
    if marks == [] then -1
    else if marks[|marks| - 1].name == name then |marks| - 1
    else LastNamed(marks[..|marks| - 1], name)
  }

  function LastFrame(frames: seq<Frame>, name: string): (k: int)
    ensures -1 <= k < |frames|
    ensures k >= 0 ==> frames[k].mark.name == name
    ensures forall j :: k < j < |frames| ==> frames[j].mark.name != name
  {
    LastNamed(MarksOf(frames), name)
  }

  /** Whether releasing position k ends the transaction. */
  predicate Ends(marks: seq<Mark>, k: int) { k == 0 && marks != [] && marks[0].starts }

  function ReleasedFrames(frames: seq<Frame>, name: string): seq<Frame> {
    var k := LastFrame(frames, name);
    if k < 0 || Ends(MarksOf(frames), k) then frames else frames[..k]
  }

  // ---------- Steps ----------

  datatype Op =
    | Begin | Commit | Finish | CommitAttached(index: nat) | CommitDone
    | Rollback | Abort
    | Savepoint(name: string) | Release(name: string) | ReleaseRefused(name: string) | RollbackTo(name: string)
    | MainWrite | Lock(index: nat, write: bool)
    | Ddl(index: nat, edit: Edit)
    | EnsureTemp | TempDdl(edit: Edit) | TempSideEffect(edit: Edit) | SetTempStore
    | Attach(index: nat, db: DbId) | Detach(index: nat)

  predicate Enabled(c: Conn, op: Op, shared: Shared) {
    match op
    case Abort => true
    case CommitAttached(i) => c.phase.Committing? && i in c.writing && i in c.attached && c.attached[i] in shared
    case CommitDone => c.phase.Committing? && c.writing == {}
    case Finish => c.phase.Idle? && c.autoCommit
    case ReleaseRefused(name) => c.phase.Idle? && !c.autoCommit && Ends(c.marks, LastNamed(c.marks, name))
    case Lock(i, _) => c.phase.Idle? && i in c.attached
    case Ddl(i, _) => c.phase.Idle? && i in c.writing && i in c.attached && c.attached[i] in shared
    case Attach(i, d) => c.phase.Idle? && i > TEMP_DB_ID && i !in c.attached && d in shared
    case Detach(i) => c.phase.Idle? && i in c.attached
    case _ => c.phase.Idle?
  }

  /** COMMIT outside a transaction is an error and changes nothing. */
  function StartCommit(c: Conn): Conn {
    if c.autoCommit then c else c.(autoCommit := true, phase := Committing(true))
  }

  function CommittedTemp(t: Temp): Temp {
    if t.dirty then Temp(t.live, Some(OrEmpty(t.live)), false) else t
  }

  function RolledBackTemp(t: Temp): Temp {
    if t.dirty then Temp(Some(OrEmpty(t.committed)), t.committed, false) else t
  }

  function PublishedAttached(c: Conn, i: nat): Conn {
    c.(staged := c.staged - {i}, reading := c.reading - {i}, writing := c.writing - {i})
  }

  /** The main pager's savepoints go with a commit of main; the connection's frames only with COMMIT, or
      with the RELEASE that stands for one. */
  function DoneCommit(c: Conn): Conn {
    var explicit := c.phase == Committing(true);
    c.(phase := Idle, mainWrites := false, temp := CommittedTemp(c.temp), reading := {},
       marks := if explicit || c.mainWrites then [] else c.marks,
       frames := if explicit then [] else c.frames)
  }

  /** What every kind of full rollback does to the attached databases. */
  function Unlocked(c: Conn): Conn {
    c.(staged := c.staged - c.attached.Keys, reading := {}, writing := {})
  }

  function RolledBack(c: Conn): Conn {
    if c.autoCommit then c
    else Unlocked(c).(autoCommit := true, mainWrites := false, marks := [], frames := [],
                      temp := RolledBackTemp(c.temp))
  }

  /** A statement that fails and takes the transaction with it: the connection's frames and its
      temp schema are left alone, and the main pager's savepoints go only if it was writing. */
  function Aborted(c: Conn): Conn {
    Unlocked(c).(phase := Idle, autoCommit := true, mainWrites := false,
                 marks := if c.mainWrites then [] else c.marks)
  }

  function Saved(c: Conn, name: string): Conn {
    var mark := Mark(name, c.autoCommit);
    c.(autoCommit := false, marks := c.marks + [mark], frames := c.frames + [Frame(mark, c.temp.live, c.staged)])
  }

  function Released(c: Conn, name: string): Conn {
    var k := LastNamed(c.marks, name);
    if k < 0 then c
    else
      var d := c.(frames := ReleasedFrames(c.frames, name));
      if Ends(c.marks, k) then StartCommit(d) else d.(marks := c.marks[..k])
  }

  /** RELEASE of the savepoint that started the transaction takes the frame off before it turns to the
      commit, which writes in progress or deferred foreign keys can refuse. */
  function Refused(c: Conn, name: string): Conn { c.(frames := ReleasedFrames(c.frames, name)) }

  function RestoredTemp(t: Temp, snapshot: Option<Schema>): Temp {
    if t.live.Some? then t.(live := Some(OrEmpty(snapshot))) else t
  }

  function RestoredFrame(c: Conn, k: int): Conn
    requires 0 <= k < |c.frames|
  {
    c.(frames := c.frames[..k + 1], temp := RestoredTemp(c.temp, c.frames[k].temp), staged := c.frames[k].staged)
  }

  function RolledBackTo(c: Conn, name: string): Conn {
    var k := LastNamed(c.marks, name);
    var j := LastFrame(c.frames, name);
    if k < 0 then c
    else if j < 0 then c.(marks := c.marks[..k + 1])
    else RestoredFrame(c, j).(marks := c.marks[..k + 1])
  }

  function Locked(c: Conn, i: nat, write: bool): Conn {
    c.(reading := c.reading + {i}, writing := if write then c.writing + {i} else c.writing)
  }

  function Detached(c: Conn, i: nat): Conn {
    if i in c.reading || i in c.writing then c else c.(attached := c.attached - {i}, staged := c.staged - {i})
  }

  function EnsuredTemp(t: Temp): Temp { t.(live := Some(OrEmpty(t.live))) }

  function SideEffect(t: Temp, e: Edit): Temp {
    if t.live.Some? then t.(live := Some(Edited(t.live.value, e))) else t
  }

  function After(c: Conn, op: Op, shared: Shared): Conn
    requires Enabled(c, op, shared)
  {
    match op
    case Begin => c.(autoCommit := false)
    case Commit => StartCommit(c)
    case Finish => c.(phase := Committing(false))
    case CommitAttached(i) => PublishedAttached(c, i)
    case CommitDone => DoneCommit(c)
    case Rollback => RolledBack(c)
    case Abort => Aborted(c)
    case Savepoint(name) => Saved(c, name)
    case Release(name) => Released(c, name)
    case ReleaseRefused(name) => Refused(c, name)
    case RollbackTo(name) => RolledBackTo(c, name)
    case MainWrite => c.(mainWrites := true)
    case Lock(i, write) => Locked(c, i, write)
    case Ddl(i, e) => c.(staged := c.staged[i := Edited(View(c, shared, i), e)])
    case EnsureTemp => c.(temp := EnsuredTemp(c.temp))
    case TempDdl(e) => c.(temp := SideEffect(EnsuredTemp(c.temp), e).(dirty := true))
    case TempSideEffect(e) => c.(temp := SideEffect(c.temp, e))
    case SetTempStore => if !c.autoCommit && c.temp.live.Some? then c else c.(temp := Temp(None, None, false))
    case Attach(i, d) => c.(attached := c.attached[i := d])
    case Detach(i) => Detached(c, i)
  }

  /** Only `publish_database_schema` changes what other connections see. */
  function SharedAfter(c: Conn, op: Op, shared: Shared): Shared
    requires Enabled(c, op, shared)
  {
    if op.CommitAttached? && op.index in c.staged then shared[c.attached[op.index] := c.staged[op.index]] else shared
  }

  /** The steps, case by case. */
  lemma SavepointSteps(c: Conn, shared: Shared, name: string)
    requires c.phase.Idle?
    ensures After(c, Savepoint(name), shared) == Saved(c, name)
    ensures After(c, Release(name), shared) == Released(c, name)
    ensures After(c, RollbackTo(name), shared) == RolledBackTo(c, name)
    ensures Enabled(c, ReleaseRefused(name), shared) ==> After(c, ReleaseRefused(name), shared) == Refused(c, name)
  {
    hide Saved, Released, RolledBackTo, Refused;
  }

  lemma EndSteps(c: Conn, shared: Shared)
    ensures After(c, Abort, shared) == Aborted(c)
    ensures c.phase.Idle? ==> After(c, Rollback, shared) == RolledBack(c)
    ensures c.phase.Committing? && c.writing == {} ==> After(c, CommitDone, shared) == DoneCommit(c)
  {
    hide Aborted, RolledBack, DoneCommit;
  }

  lemma DetachStep(c: Conn, shared: Shared, i: nat)
    requires c.phase.Idle? && i in c.attached
    ensures After(c, Detach(i), shared) == Detached(c, i)
  {
    hide Detached;
  }

  lemma CommitAttachedStep(c: Conn, shared: Shared, i: nat)
    requires Enabled(c, CommitAttached(i), shared)
    ensures After(c, CommitAttached(i), shared) == PublishedAttached(c, i)
  {
    hide PublishedAttached;
  }

  lemma TempDdlStep(c: Conn, shared: Shared, e: Edit)
    requires c.phase.Idle?
    ensures After(c, TempDdl(e), shared) == c.(temp := SideEffect(EnsuredTemp(c.temp), e).(dirty := true))
  {
    hide SideEffect, EnsuredTemp;
  }

  // ---------- What the steps keep ----------

  /** Schemas are staged only under the write lock of an attached database. */
  predicate Guarded(c: Conn) {
    c.staged.Keys <= c.writing <= c.reading <= c.attached.Keys
  }

  predicate FrameGood(f: Frame, k: nat, c: Conn) {
    && f.staged.Keys <= c.writing
    && (f.temp.Some? ==> c.temp.live.Some?)
    && (f.mark.starts ==> k == 0)
  }

  /** Between commits: frames exist only inside a transaction, only the bottom one may have started
      it, their snapshots too speak only of databases whose write lock is held, and the temp
      database is not taken away from under them. */
  predicate FramesGood(c: Conn) {
    && (c.autoCommit ==> c.frames == [])
    && forall k :: 0 <= k < |c.frames| ==> FrameGood(c.frames[k], k, c)
  }

  predicate Good(c: Conn) {
    && Guarded(c)
    && c.marks == MarksOf(c.frames)
    && (c.phase.Idle? ==> FramesGood(c))
    && (c.phase == Committing(false) ==> c.frames == [])
  }

  lemma LastFrameInStep(c: Conn, name: string)
    requires c.marks == MarksOf(c.frames)
    ensures LastFrame(c.frames, name) == LastNamed(c.marks, name)
  {
  }

  lemma PrefixMarks(frames: seq<Frame>, k: nat)
    requires k <= |frames|
    ensures MarksOf(frames[..k]) == MarksOf(frames)[..k]
  {
  }

  lemma SavedGood(c: Conn, name: string)
    requires Good(c) && c.phase.Idle?
    ensures Good(Saved(c, name))
  {
    var d := Saved(c, name);
    assert MarksOf(d.frames) == d.marks;
  }

  lemma ReleasedGood(c: Conn, name: string)
    requires Good(c) && c.phase.Idle?
    ensures Good(Released(c, name))
  {
    LastFrameInStep(c, name);
    var k := LastFrame(c.frames, name);
    if k >= 0 { PrefixMarks(c.frames, k); }
  }

  /** On stacks in step a refused RELEASE changes nothing. */
  lemma RefusedInStep(c: Conn, name: string)
    requires c.marks == MarksOf(c.frames) && Ends(c.marks, LastNamed(c.marks, name))
    ensures Refused(c, name) == c
  {
    LastFrameInStep(c, name);
  }

  lemma RolledBackToGood(c: Conn, name: string)
    requires Good(c) && c.phase.Idle?
    ensures Good(RolledBackTo(c, name))
  {
    LastFrameInStep(c, name);
    var k := LastFrame(c.frames, name);
    if k >= 0 {
      PrefixMarks(c.frames, k + 1);
      assert FrameGood(c.frames[k], k, c);
    }
  }

  /** The one step that does not keep a connection good is a failing statement that takes the
      transaction with it while savepoints are open. */
  lemma StepGood(c: Conn, op: Op, shared: Shared)
    requires Good(c) && Enabled(c, op, shared)
    ensures Good(After(c, op, shared)) <==> (op.Abort? ==> c.frames == [])
  {
    match op
    case Savepoint(name) => SavedGood(c, name);
    case Release(name) => ReleasedGood(c, name);
    case ReleaseRefused(name) => RefusedInStep(c, name);
    case RollbackTo(name) => RolledBackToGood(c, name);
    case _ =>
  }

  // ---------- What a partial rollback may bring back ----------

  /** ROLLBACK TO brings staged schemas back only for databases whose write lock is held. */
  predicate Backed(c: Conn, op: Op) {
    op.RollbackTo? && LastNamed(c.marks, op.name) >= 0 && LastFrame(c.frames, op.name) >= 0 ==>
      c.frames[LastFrame(c.frames, op.name)].staged.Keys <= c.writing
  }

  /** Whatever the connection has been through, a step keeps schemas staged under write locks only
      exactly when it is not a ROLLBACK TO a snapshot of a database that is no longer locked. */
  lemma StepGuardedIff(c: Conn, op: Op, shared: Shared)
    requires Guarded(c) && Enabled(c, op, shared)
    ensures Guarded(After(c, op, shared)) <==> Backed(c, op)
  {
    hide LastNamed, LastFrame, MarksOf, Edited, View, EnsuredTemp, SideEffect, RestoredTemp, CommittedTemp,
         RolledBackTemp;
  }

  /** A good connection only takes backed steps. */
  lemma GoodIsBacked(c: Conn, op: Op, shared: Shared)
    requires Good(c) && Enabled(c, op, shared)
    ensures Backed(c, op)
  {
    hide LastNamed, LastFrame, MarksOf;
    if op.RollbackTo? && LastFrame(c.frames, op.name) >= 0 {
      assert FrameGood(c.frames[LastFrame(c.frames, op.name)], LastFrame(c.frames, op.name), c);
    }
  }
}
