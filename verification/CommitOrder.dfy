/** The commit of a connection's attached databases, one after the other in some order. */
module CommitOrder {
  import opened ConnectionState

  /** Attached databases are committed in this order. */
  predicate CanCommit(c: Conn, shared: Shared, order: seq<nat>)
    decreases |order|, 0
  {
    order == [] ||
    (&& CanCommit(c, shared, order[..|order| - 1])
     && Enabled(Committed(c, shared, order[..|order| - 1]), CommitAttached(order[|order| - 1]),
                SharedCommitted(c, shared, order[..|order| - 1])))
  }

  function Committed(c: Conn, shared: Shared, order: seq<nat>): Conn
    requires CanCommit(c, shared, order)
    decreases |order|, 1
  {
    if order == [] then c
    else After(Committed(c, shared, order[..|order| - 1]), CommitAttached(order[|order| - 1]),
               SharedCommitted(c, shared, order[..|order| - 1]))
  }

  function SharedCommitted(c: Conn, shared: Shared, order: seq<nat>): Shared
    requires CanCommit(c, shared, order)
    decreases |order|, 1
  {
    if order == [] then shared
    else SharedAfter(Committed(c, shared, order[..|order| - 1]), CommitAttached(order[|order| - 1]),
                     SharedCommitted(c, shared, order[..|order| - 1]))
  }

  lemma CommitNothing(c: Conn, shared: Shared)
    ensures CanCommit(c, shared, []) && Committed(c, shared, []) == c && SharedCommitted(c, shared, []) == shared
  {
  }

  lemma CommitOneMore(c: Conn, shared: Shared, order: seq<nat>, i: nat)
    requires CanCommit(c, shared, order)
    requires Enabled(Committed(c, shared, order), CommitAttached(i), SharedCommitted(c, shared, order))
    ensures CanCommit(c, shared, order + [i])
    ensures Committed(c, shared, order + [i])
         == After(Committed(c, shared, order), CommitAttached(i), SharedCommitted(c, shared, order))
    ensures SharedCommitted(c, shared, order + [i])
         == SharedAfter(Committed(c, shared, order), CommitAttached(i), SharedCommitted(c, shared, order))
  {
    assert (order + [i])[..|order|] == order;
  }

  // ---------- What a whole commit does ----------

  /** No two indices hold the write lock of one database. */
  predicate OneIndexPerWriter(c: Conn) {
    forall i, j :: i in c.writing * c.attached.Keys && j in c.writing * c.attached.Keys ==>
      c.attached[i] == c.attached[j] ==> i == j
  }

  /** The schema that the commit gives a database: the one staged for it, or what it has. */
  ghost predicate IsPublished(c: Conn, shared: Shared, done: set<nat>, d: DbId, s: Schema) {
    && (forall i :: i in done && i in c.staged && i in c.attached && c.attached[i] == d ==> s == c.staged[i])
    && ((forall i :: i in done && i in c.staged && i in c.attached ==> c.attached[i] != d) ==>
          d in shared && s == shared[d])
  }

  /** Where the commit stands after the databases of some indices. */
  ghost predicate Progress(c: Conn, shared: Shared, done: set<nat>, n: Conn, now: Shared) {
    && done <= c.writing
    && n == c.(staged := c.staged - done, reading := c.reading - done, writing := c.writing - done)
    && now.Keys == shared.Keys
    && forall d :: d in now ==> IsPublished(c, shared, done, d, now[d])
  }

  lemma ProgressStep(c: Conn, shared: Shared, done: set<nat>, n: Conn, now: Shared, i: nat)
    requires c.phase.Committing? && c.writing <= c.attached.Keys && OneIndexPerWriter(c)
    requires Progress(c, shared, done, n, now) && Enabled(n, CommitAttached(i), now)
    ensures Progress(c, shared, done + {i}, After(n, CommitAttached(i), now), SharedAfter(n, CommitAttached(i), now))
  {
    CommitAttachedStep(n, now, i);
    hide After;
    var next := SharedAfter(n, CommitAttached(i), now);
    assert c.staged - done - {i} == c.staged - (done + {i});
    assert c.reading - done - {i} == c.reading - (done + {i});
    assert c.writing - done - {i} == c.writing - (done + {i});
    forall d | d in next ensures IsPublished(c, shared, done + {i}, d, next[d]) {
      assert IsPublished(c, shared, done, d, now[d]);
    }
  }

  lemma {:induction false} CommitProgress(c: Conn, shared: Shared, order: seq<nat>) returns (done: set<nat>)
    requires c.phase.Committing? && c.writing <= c.attached.Keys && OneIndexPerWriter(c)
    requires CanCommit(c, shared, order)
    ensures Progress(c, shared, done, Committed(c, shared, order), SharedCommitted(c, shared, order))
    decreases |order|
  {
    hide After, SharedAfter, Enabled, Progress, OneIndexPerWriter;
    if order == [] {
      done := {};
      NothingDone(c, shared);
    } else {
      var before, i := order[..|order| - 1], order[|order| - 1];
      done := CommitProgress(c, shared, before);
      ProgressStep(c, shared, done, Committed(c, shared, before), SharedCommitted(c, shared, before), i);
      done := done + {i};
    }
  }

  lemma NothingDone(c: Conn, shared: Shared)
    ensures Progress(c, shared, {}, c, shared)
  {
    assert c.staged - {} == c.staged;
  }

  /** From the start of a commit to its end, in whatever order: a guarded connection has nothing left staged,
      each database that it staged a schema for has that one, every other is as it was, and at every index
      that it wrote the connection sees what it saw. */
  lemma CommitPublishes(c: Conn, shared: Shared, order: seq<nat>)
    requires c.phase.Committing? && Guarded(c) && OneIndexPerWriter(c) && CanCommit(c, shared, order)
    requires forall i :: i in c.attached ==> c.attached[i] in shared
    requires Committed(c, shared, order).writing == {}
    ensures var n := DoneCommit(Committed(c, shared, order));
            var now := SharedCommitted(c, shared, order);
            && n.staged == map[] && n.attached == c.attached && now.Keys == shared.Keys
            && (forall i :: i in c.staged ==> now[c.attached[i]] == c.staged[i])
            && (forall d :: d in shared && (forall i :: i in c.staged ==> c.attached[i] != d) ==> now[d] == shared[d])
            && (forall i :: i in c.writing ==> View(n, now, i) == View(c, shared, i))
  {
    hide CanCommit, Committed, SharedCommitted, CommittedTemp, IsPublished;
    var done := CommitProgress(c, shared, order);
    var now := SharedCommitted(c, shared, order);
    assert forall x :: x in c.writing && x !in done ==> x in Committed(c, shared, order).writing;
    assert done == c.writing;
    assert c.staged - done == map[];
    forall i | i in c.staged ensures now[c.attached[i]] == c.staged[i] {
      PublishedStaged(c, shared, now[c.attached[i]], i);
    }
    forall d | d in shared && (forall i :: i in c.staged ==> c.attached[i] != d) ensures now[d] == shared[d] {
      PublishedOther(c, shared, now[d], d);
    }
    forall i | i in c.writing && i !in c.staged ensures now[c.attached[i]] == shared[c.attached[i]] {
      WrittenUnstaged(c, i);
      PublishedOther(c, shared, now[c.attached[i]], c.attached[i]);
    }
  }

  lemma PublishedStaged(c: Conn, shared: Shared, s: Schema, i: nat)
    requires Guarded(c) && i in c.staged && IsPublished(c, shared, c.writing, c.attached[i], s)
    ensures s == c.staged[i]
  {
  }

  lemma PublishedOther(c: Conn, shared: Shared, s: Schema, d: DbId)
    requires Guarded(c) && IsPublished(c, shared, c.writing, d, s) && forall i :: i in c.staged ==> c.attached[i] != d
    ensures d in shared && s == shared[d]
  {
  }

  lemma WrittenUnstaged(c: Conn, i: nat)
    requires Guarded(c) && OneIndexPerWriter(c) && i in c.writing && i !in c.staged
    ensures forall j :: j in c.staged ==> c.attached[j] != c.attached[i]
  {
  }
}
