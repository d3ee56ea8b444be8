/** The connection object: the savepoint stack, staged schemas and temp database as fields that its
    methods update, over databases that connections share. Each method that ends a piece of the protocol
    is proved to be the step of the connection's value, so that the theorems about runs are about it. */
module Connections {
  import opened Common
  import opened CommitOrder
  import opened ConnectionState

  /** A database that connections share. */
  class Database {
    const id: DbId
    var schema: Schema

    constructor (id: DbId, schema: Schema)
      ensures this.id == id && this.schema == schema
    {
      this.id := id;
      this.schema := schema;
    }
  }

  ghost function IdsOf(attached: map<nat, Database>): (ids: map<nat, DbId>)
    ensures ids.Keys == attached.Keys
  {
    map i | i in attached :: attached[i].id
  }

  datatype SavepointResult = CommitTransaction | CommitRefused | Freed | NotFound

  datatype DetachError = ConnectionClosed | CannotDetach | NoSuchDatabase | IsLocked

  class Connection {
    var closed: bool
    var phase: Phase
    var autoCommit: bool
    var mainWrites: bool
    var marks: seq<Mark>
    var savepoints: seq<Frame>
    var staged: map<nat, Schema>
    var live: Option<Schema>
    var committed: Option<Schema>
    var dirty: bool
    var names: map<string, nat>
    var attached: map<nat, Database>
    var reading: set<nat>
    var writing: set<nat>

    ghost function TempState(): Temp
      reads this`live, this`committed, this`dirty
    {
      Temp(live, committed, dirty)
    }

    /** The connection as the value that the state machines speak of. */
    ghost function Value(): Conn
      reads this
    {
      Conn(phase, autoCommit, mainWrites, marks, savepoints, staged, Temp(live, committed, dirty), IdsOf(attached),
           reading, writing)
    }

    /** The shared schemas are those of the attached databases. */
    ghost predicate Reflects(shared: Shared)
      reads this, attached.Values
    {
      && (forall i :: i in attached ==> attached[i].id in shared && shared[attached[i].id] == attached[i].schema)
      && (forall i, j :: i in attached && j in attached && attached[i].id == attached[j].id ==>
            attached[i] == attached[j])
    }

    /** Each alias names an attached index of its own, which is not that of the temp database. */
    ghost predicate Valid()
      reads this
    {
      && TEMP_DB_ID !in attached
      && (forall alias :: alias in names ==> names[alias] in attached)
      && (forall a, b :: a in names && b in names && names[a] == names[b] ==> a == b)
    }

    // ---------- Savepoints ----------

    method RPosition(name: string) returns (k: int)
      ensures k == LastFrame(savepoints, name)
    {
      k := |savepoints| - 1;
      while k >= 0 && savepoints[k].mark.name != name
        invariant -1 <= k < |savepoints|
        invariant forall j :: k < j < |savepoints| ==> savepoints[j].mark.name != name
      {
        k := k - 1;
      }
    }

    /** The same scan in the main pager. */
    method MarkPosition(name: string) returns (k: int)
      ensures k == LastNamed(marks, name)
    {
      k := |marks| - 1;
      while k >= 0 && marks[k].name != name
        invariant -1 <= k < |marks|
        invariant forall j :: k < j < |marks| ==> marks[j].name != name
      {
        k := k - 1;
      }
    }

    method PushNamedSavepoint(mark: Mark)
      modifies this`savepoints
      ensures savepoints == old(savepoints) + [Frame(mark, live, staged)]
    {
      savepoints := savepoints + [Frame(mark, live, staged)];
    }

    method Savepoint(name: string, ghost shared: Shared)
      requires phase.Idle?
      modifies this`marks, this`savepoints, this`autoCommit
      ensures Value() == After(old(Value()), Op.Savepoint(name), shared)
    {
      var startsTransaction := autoCommit;
      var mark := Mark(name, startsTransaction);
      marks := marks + [mark];
      PushNamedSavepoint(mark);
      if startsTransaction { autoCommit := false; }
    }

    method ReleaseNamedSavepointFrame(name: string) returns (result: SavepointResult)
      modifies this`savepoints
      ensures savepoints == ReleasedFrames(old(savepoints), name)
      ensures result == NotFound <==> forall f :: f in old(savepoints) ==> f.mark.name != name
      ensures result == CommitTransaction <==> Ends(MarksOf(old(savepoints)), LastFrame(old(savepoints), name))
      ensures result == Freed ==> savepoints < old(savepoints)
    {
      var target := RPosition(name);
      if target < 0 { return NotFound; }
      assert savepoints[target] in savepoints;
      if savepoints[target].mark.starts && target == 0 { return CommitTransaction; }
      savepoints := savepoints[..target];
      return Freed;
    }

    /** RELEASE: what the main pager says decides, and a release that commits begins the commit, unless
        writes in progress or deferred foreign keys refuse it. */
    method ReleaseSavepoint(name: string, refused: bool, ghost shared: Shared) returns (result: SavepointResult)
      requires phase.Idle?
      modifies this`marks, this`savepoints, this`autoCommit, this`phase
      ensures result == NotFound <==> LastNamed(old(marks), name) < 0
      ensures result == CommitTransaction || result == CommitRefused <==> Ends(old(marks), LastNamed(old(marks), name))
      ensures result == CommitRefused <==>
        Ends(old(marks), LastNamed(old(marks), name)) && refused && !old(autoCommit)
      ensures Value() ==
        After(old(Value()), if result == CommitRefused then Op.ReleaseRefused(name) else Op.Release(name), shared)
    {
      hide After, LastNamed, LastFrame, MarksOf, ReleasedFrames, IdsOf;
      SavepointSteps(Value(), shared, name);
      var target := MarkPosition(name);
      if target < 0 { return NotFound; }
      var _ := ReleaseNamedSavepointFrame(name);
      if marks[target].starts && target == 0 {
        if !autoCommit {
          if refused { return CommitRefused; }
          autoCommit, phase := true, Committing(true);
        }
        return CommitTransaction;
      }
      marks := marks[..target];
      return Freed;
    }

    method RollbackNamedSavepointFrame(name: string) returns (info: Option<Frame>)
      modifies this`savepoints
      ensures var k := LastFrame(old(savepoints), name);
              if k < 0 then info == None && savepoints == old(savepoints)
              else info == Some(old(savepoints)[k]) && savepoints == old(savepoints)[..k + 1]
    {
      var target := RPosition(name);
      if target < 0 { return None; }
      info := Some(savepoints[target]);
      savepoints := savepoints[..target + 1];
    }

    /** ROLLBACK TO, refused when the main pager does not know the savepoint. */
    method RollbackTo(name: string, ghost shared: Shared) returns (found: bool)
      requires phase.Idle?
      modifies this`marks, this`savepoints, this`live, this`staged
      ensures Value() == After(old(Value()), Op.RollbackTo(name), shared)
      ensures found <==> LastNamed(old(marks), name) >= 0
    {
      hide After, LastNamed, LastFrame, MarksOf, IdsOf, RestoredTemp;
      SavepointSteps(Value(), shared, name);
      var target := MarkPosition(name);
      if target < 0 { return false; }
      marks := marks[..target + 1];
      var info := RollbackNamedSavepointFrame(name);
      if info.Some? { RestoreSchemas(info.value); }
      return true;
    }

    method RestoreSchemas(f: Frame)
      modifies this`live, this`staged
      ensures TempState() == RestoredTemp(old(TempState()), f.temp) && staged == f.staged
    {
      if live.Some? { live := Some(OrEmpty(f.temp)); }
      staged := f.staged;
    }

    // ---------- The temp database ----------

    method EnsureTempDatabase()
      modifies this`live
      ensures TempState() == EnsuredTemp(old(TempState()))
    {
      if live.None? { live := Some(EMPTY); }
    }

    method ResetTempDatabase()
      modifies this`live, this`committed, this`dirty
      ensures TempState() == Temp(None, None, false)
    {
      live, committed, dirty := None, None, false;
    }

    /** PRAGMA temp_store with another value: refused inside a transaction that has a temp database. */
    method SetTempStore(ghost shared: Shared) returns (accepted: bool)
      requires phase.Idle?
      modifies this`live, this`committed, this`dirty
      ensures Value() == After(old(Value()), Op.SetTempStore, shared)
      ensures accepted <==> autoCommit || old(live).None?
    {
      if !autoCommit && live.Some? { return false; }
      ResetTempDatabase();
      return true;
    }

    method MarkTempSchemaDidChange()
      requires live.Some?
      modifies this`dirty
      ensures dirty
    {
      dirty := true;
    }

    /** A temp DDL statement: its transaction initialises the temp database, so the assert of the mark holds. */
    method TempDdl(e: Edit, ghost shared: Shared)
      requires phase.Idle?
      modifies this`live, this`staged, this`dirty
      ensures Value() == After(old(Value()), Op.TempDdl(e), shared)
    {
      hide After, IdsOf, Edited;
      TempDdlStep(Value(), shared, e);
      EnsureTempDatabase();
      MarkTempSchemaDidChange();
      WithDatabaseSchemaMut(TEMP_DB_ID, e);
    }

    method CommitTempSchema()
      requires dirty ==> live.Some?
      modifies this`committed, this`dirty
      ensures TempState() == CommittedTemp(old(TempState()))
    {
      if !dirty { return; }
      assert live.Some?;
      committed := live;
      dirty := false;
    }

    method RollbackTempSchema()
      requires dirty ==> live.Some?
      modifies this`live, this`dirty
      ensures TempState() == RolledBackTemp(old(TempState()))
    {
      if !dirty { return; }
      assert live.Some?;
      live := match committed case Some(s) => Some(s) case None => Some(EMPTY);
      dirty := false;
    }

    // ---------- Attached databases ----------

    /** What a statement is compiled against. */
    method CachedNonMainSchema(i: nat, ghost shared: Shared) returns (s: Schema)
      requires Valid() && Reflects(shared) && (i == TEMP_DB_ID || i in attached)
      ensures s == if i == TEMP_DB_ID then TempView(Value()) else View(Value(), shared, i)
    {
      if i == TEMP_DB_ID { return OrEmpty(live); }
      if i in staged { return staged[i]; }
      return attached[i].schema;
    }

    method WithDatabaseSchemaMut(i: nat, e: Edit)
      requires if i == TEMP_DB_ID then live.Some? else i in staged || i in attached
      modifies this`live, this`staged
      ensures i == TEMP_DB_ID ==> staged == old(staged) && TempState() == SideEffect(old(TempState()), e)
      ensures i != TEMP_DB_ID ==>
        && live == old(live)
        && staged == old(staged)[i := Edited(if i in old(staged) then old(staged)[i] else attached[i].schema, e)]
    {
      if i == TEMP_DB_ID {
        live := Some(Edited(live.value, e));
      } else {
        if i !in staged { staged := staged[i := attached[i].schema]; }
        staged := staged[i := Edited(staged[i], e)];
      }
    }

    /** DDL on an attached database, under its write lock. */
    method AttachedDdl(i: nat, e: Edit, ghost shared: Shared)
      requires Valid() && Reflects(shared) && phase.Idle? && i in writing && i in attached
      modifies this`live, this`staged
      ensures Value() == After(old(Value()), Ddl(i, e), shared) && Reflects(shared)
    {
      WithDatabaseSchemaMut(i, e);
    }

    method PublishDatabaseSchema(i: nat)
      modifies this`staged, if i in attached then {attached[i]} else {}
      ensures staged == if i == TEMP_DB_ID then old(staged) else old(staged) - {i}
      ensures i in attached ==>
        attached[i].schema == if i != TEMP_DB_ID && i in old(staged) then old(staged)[i] else old(attached[i].schema)
    {
      if i == TEMP_DB_ID { return; }
      if i in staged {
        if i in attached { attached[i].schema := staged[i]; }
        staged := staged - {i};
      }
    }

    /** The commit of one attached database, seen by every connection that shares it. */
    method EndAttachedTxn(i: nat, ghost shared: Shared)
      requires Valid() && Reflects(shared) && phase.Committing? && i in writing && i in attached
      modifies this`staged, this`reading, this`writing, attached[i]
      ensures Valid() && writing == old(writing) - {i}
      ensures Value() == After(old(Value()), CommitAttached(i), shared)
      ensures Reflects(SharedAfter(old(Value()), CommitAttached(i), shared))
    {
      hide After;
      CommitAttachedStep(Value(), shared, i);
      PublishDatabaseSchema(i);
      writing := writing - {i};
      reading := reading - {i};
    }

    lemma CommitEnabled(i: nat, shared: Shared)
      requires Reflects(shared) && phase.Committing? && i in writing && i in attached
      ensures Enabled(Value(), CommitAttached(i), shared)
    {
    }

    /** Commits the attached databases one after the other, in whatever order: each is a step, and
        none that is written is left out. */
    method EndAttachedTxns(ghost shared: Shared) returns (ghost order: seq<nat>)
      requires Valid() && Reflects(shared) && phase.Committing? && writing <= attached.Keys
      modifies this`staged, this`reading, this`writing, attached.Values
      ensures Valid() && writing == {} && CanCommit(old(Value()), shared, order)
      ensures Value() == Committed(old(Value()), shared, order)
      ensures Reflects(SharedCommitted(old(Value()), shared, order))
    {
      hide After, Enabled, SharedAfter, Reflects, Value, Committed, SharedCommitted, CanCommit;
      order := [];
      CommitNothing(Value(), shared);
      while writing != {}
        invariant Valid() && phase.Committing? && writing <= attached.Keys
        invariant CanCommit(old(Value()), shared, order) && Value() == Committed(old(Value()), shared, order)
        invariant Reflects(SharedCommitted(old(Value()), shared, order))
        decreases |writing|
      {
        var i :| i in writing;
        ghost var now := SharedCommitted(old(Value()), shared, order);
        CommitEnabled(i, now);
        EndAttachedTxn(i, now);
        CommitOneMore(old(Value()), shared, order, i);
        order := order + [i];
      }
    }

    /** The end of a commit, once every attached database that was written has been committed. */
    method EndCommit(ghost shared: Shared)
      requires phase.Committing? && writing == {} && (dirty ==> live.Some?)
      modifies this`phase, this`mainWrites, this`marks, this`savepoints, this`committed, this`dirty, this`reading
      ensures Value() == After(old(Value()), CommitDone, shared)
      ensures phase.Idle? && !mainWrites && reading == {} && (old(phase).explicit ==> marks == [] && savepoints == [])
    {
      hide After, IdsOf, CommittedTemp;
      EndSteps(Value(), shared);
      CommitTempSchema();
      reading := {};
      if mainWrites { marks := []; }
      mainWrites := false;
      if phase.explicit { marks, savepoints := [], []; }
      phase := Idle;
    }

    method DiscardStaged()
      modifies this`staged
      ensures staged == old(staged) - attached.Keys
    {
      var left := attached.Keys;
      while left != {}
        invariant left <= attached.Keys
        invariant staged == old(staged) - (attached.Keys - left)
        decreases |left|
      {
        var i :| i in left;
        staged := staged - {i};
        left := left - {i};
      }
    }

    /** Every kind of full rollback: no lock and no staged schema of an attached database stays. */
    method RollbackAttachedWalTxns()
      requires writing <= attached.Keys && reading <= attached.Keys
      modifies this`staged, this`reading, this`writing
      ensures Value() == Unlocked(old(Value()))
    {
      hide IdsOf;
      DiscardStaged();
      var left := attached.Keys;
      while left != {}
        invariant left <= attached.Keys && reading <= left && writing <= left
        modifies this`reading, this`writing
        decreases |left|
      {
        var i :| i in left;
        reading, writing := reading - {i}, writing - {i};
        left := left - {i};
      }
    }

    /** ROLLBACK, refused outside a transaction. */
    method Rollback(ghost shared: Shared) returns (accepted: bool)
      requires phase.Idle? && writing <= attached.Keys && reading <= attached.Keys && (dirty ==> live.Some?)
      modifies this`autoCommit, this`mainWrites, this`marks, this`savepoints, this`staged, this`reading, this`writing,
               this`live, this`dirty
      ensures Value() == After(old(Value()), Op.Rollback, shared)
      ensures accepted <==> !old(autoCommit)
      ensures accepted ==>
        && autoCommit && phase.Idle? && !mainWrites && marks == [] && savepoints == [] && reading == {} && writing == {}
    {
      hide After, IdsOf, RolledBackTemp;
      EndSteps(Value(), shared);
      if autoCommit { return false; }
      RollbackAttachedWalTxns();
      RollbackTempSchema();
      EndTransaction();
      return true;
    }

    method EndTransaction()
      modifies this`autoCommit, this`mainWrites, this`marks, this`savepoints
      ensures Value() == old(Value()).(autoCommit := true, mainWrites := false, marks := [], frames := [])
    {
      autoCommit, mainWrites := true, false;
      marks, savepoints := [], [];
    }

    /** A failing statement that takes the transaction with it. */
    method RollbackCurrentTxnState(ghost shared: Shared)
      requires writing <= attached.Keys && reading <= attached.Keys
      modifies this`phase, this`autoCommit, this`mainWrites, this`marks, this`staged, this`reading, this`writing
      ensures Value() == After(old(Value()), Abort, shared)
    {
      hide After, IdsOf;
      EndSteps(Value(), shared);
      if mainWrites { marks := []; }
      mainWrites := false;
      autoCommit := true;
      RollbackAttachedWalTxns();
      phase := Idle;
    }

    method DetachDatabase(alias: string, ghost shared: Shared) returns (r: Result<nat, DetachError>)
      requires Valid() && phase.Idle?
      modifies this`names, this`attached, this`staged
      ensures Valid()
      ensures r == if closed then Err(ConnectionClosed)
                   else if alias == "main" || alias == "temp" then Err(CannotDetach)
                   else if alias !in old(names) then Err(NoSuchDatabase)
                   else if old(names)[alias] in reading + writing then Err(IsLocked)
                   else Ok(old(names)[alias])
      ensures r.Err? ==> Value() == old(Value()) && names == old(names)
      ensures r.Ok? ==> Value() == After(old(Value()), Detach(r.value), shared) && names == old(names) - {alias}
      ensures r.Ok? ==> r.value !in attached && r.value !in staged
    {
      hide After;
      if closed { return Err(ConnectionClosed); }
      if alias == "main" || alias == "temp" { return Err(CannotDetach); }
      if alias !in names { return Err(NoSuchDatabase); }
      var id := names[alias];
      DetachStep(Value(), shared, id);
      if id in reading || id in writing { return Err(IsLocked); }
      names := names - {alias};
      attached := attached - {id};
      staged := staged - {id};
      assert IdsOf(attached) == IdsOf(old(attached)) - {id};
      return Ok(id);
    }
  }
}
