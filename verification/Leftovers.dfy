/** Savepoint frames that a failing statement has left on the connection are not out of reach, even where
    the main pager has forgotten its savepoints: a new savepoint of the same name, and a RELEASE of it whose
    commit is refused, put the pager's mark back over the old frame. */
module Leftovers {
  import opened ConnectionState

  predicate CanRun(c: Conn, ops: seq<Op>, shared: Shared)
    decreases |ops|
  {
    ops == [] || (Enabled(c, ops[0], shared) && CanRun(After(c, ops[0], shared), ops[1..], shared))
  }

  function Ran(c: Conn, ops: seq<Op>, shared: Shared): Conn
    requires CanRun(c, ops, shared)
    decreases |ops|
  {
    if ops == [] then c else Ran(After(c, ops[0], shared), ops[1..], shared)
  }

  lemma Front(c: Conn, op: Op, ops: seq<Op>, shared: Shared)
    requires Enabled(c, op, shared) && CanRun(After(c, op, shared), ops, shared)
    ensures CanRun(c, [op] + ops, shared) && Ran(c, [op] + ops, shared) == Ran(After(c, op, shared), ops, shared)
  {
    assert ([op] + ops)[1..] == ops;
  }

  lemma {:induction false} Then(c: Conn, first: seq<Op>, rest: seq<Op>, shared: Shared)
    requires CanRun(c, first, shared) && CanRun(Ran(c, first, shared), rest, shared)
    ensures CanRun(c, first + rest, shared)
    ensures Ran(c, first + rest, shared) == Ran(Ran(c, first, shared), rest, shared)
    decreases |first|
  {
    hide After, Enabled;
    if first == [] {
      assert first + rest == rest;
    } else {
      assert (first + rest)[1..] == first[1..] + rest;
      Then(After(c, first[0], shared), first[1..], rest, shared);
    }
  }

  /** The steps used here: they touch neither schemas nor databases. */
  predicate Quiet(op: Op) { op.MainWrite? || op.Abort? || op.Savepoint? || op.ReleaseRefused? }

  predicate AllQuiet(ops: seq<Op>) { forall k :: 0 <= k < |ops| ==> Quiet(ops[k]) }

  /** Inside a transaction, with one mark over the frames and nothing locked. */
  function Marked(c: Conn, name: string): Conn {
    Unlocked(c).(phase := Idle, autoCommit := false, mainWrites := false, marks := [Mark(name, true)])
  }

  function Cleared(c: Conn): Conn {
    Unlocked(c).(phase := Idle, autoCommit := true, mainWrites := false, marks := [])
  }

  lemma ClearSteps(c: Conn, shared: Shared)
    requires c.phase.Idle?
    ensures CanRun(c, [MainWrite, Abort], shared) && Ran(c, [MainWrite, Abort], shared) == Cleared(c)
  {
    hide LastNamed, MarksOf;
    var writing := c.(mainWrites := true);
    assert After(writing, Abort, shared) == Cleared(c);
    Front(writing, Abort, [], shared);
    Front(c, MainWrite, [Abort], shared);
  }

  /** The new savepoint lies over old frames, so the refused RELEASE of it takes its frame and leaves its mark. */
  lemma MarkSteps(c: Conn, name: string, shared: Shared)
    requires c.frames != []
    ensures var ops := [Savepoint(name), ReleaseRefused(name)];
            CanRun(Cleared(c), ops, shared) && Ran(Cleared(c), ops, shared) == Marked(c, name)
  {
    var saved := Saved(Cleared(c), name);
    NewOnTop(c, name);
    SavepointSteps(Cleared(c), shared, name);
    SavepointSteps(saved, shared, name);
    hide After, Saved, Refused, LastNamed, LastFrame;
    Front(saved, ReleaseRefused(name), [], shared);
    Front(Cleared(c), Savepoint(name), [ReleaseRefused(name)], shared);
  }

  lemma NewOnTop(c: Conn, name: string)
    requires c.frames != []
    ensures var saved := Saved(Cleared(c), name);
            && saved.phase.Idle? && !saved.autoCommit && saved.marks == [Mark(name, true)]
            && LastNamed(saved.marks, name) == 0 && Ends(saved.marks, 0)
            && Refused(saved, name) == Marked(c, name)
  {
    var saved := Saved(Cleared(c), name);
    assert saved.marks == [Mark(name, true)];
    assert saved.frames[|c.frames|].mark.name == name;
    assert LastFrame(saved.frames, name) == |c.frames|;
    assert saved.frames[..|c.frames|] == c.frames;
  }

  lemma MarkedIsReached(c: Conn, name: string, shared: Shared)
    requires c.phase.Idle? && c.frames != []
    ensures var ops := [MainWrite, Abort, Savepoint(name), ReleaseRefused(name)];
            CanRun(c, ops, shared) && AllQuiet(ops) && Ran(c, ops, shared) == Marked(c, name)
  {
    hide CanRun, Ran, Cleared, Marked;
    ClearSteps(c, shared);
    MarkSteps(c, name, shared);
    Then(c, [MainWrite, Abort], [Savepoint(name), ReleaseRefused(name)], shared);
    assert [MainWrite, Abort] + [Savepoint(name), ReleaseRefused(name)]
        == [MainWrite, Abort, Savepoint(name), ReleaseRefused(name)];
  }

  /** A second refusal takes the top frame. */
  lemma TopIsPopped(c: Conn, shared: Shared)
    requires |c.frames| > 1
    ensures var top := |c.frames| - 1;
            var name := c.frames[top].mark.name;
            var marked := Marked(c, name);
            && CanRun(marked, [ReleaseRefused(name)], shared)
            && Ran(marked, [ReleaseRefused(name)], shared) == marked.(frames := c.frames[..top])
  {
    var top := |c.frames| - 1;
    var name := c.frames[top].mark.name;
    var marked := Marked(c, name);
    assert LastFrame(marked.frames, name) == top;
    assert LastNamed(marked.marks, name) == 0;
    SavepointSteps(marked, shared, name);
    assert Refused(marked, name) == marked.(frames := c.frames[..top]);
    hide After, Refused, LastNamed, LastFrame;
    Front(marked, ReleaseRefused(name), [], shared);
  }

  /** Every frame is reached: a run of such steps makes it the top one, with a mark of its name over it. */
  lemma {:induction false} FrameIsReached(c: Conn, k: nat, shared: Shared) returns (ops: seq<Op>)
    requires c.phase.Idle? && k < |c.frames|
    ensures CanRun(c, ops, shared) && AllQuiet(ops)
    ensures Ran(c, ops, shared) == Marked(c, c.frames[k].mark.name).(frames := c.frames[..k + 1])
    decreases |c.frames|
  {
    hide CanRun, Ran, After;
    var top := |c.frames| - 1;
    var name := c.frames[top].mark.name;
    var mark := [MainWrite, Abort, Savepoint(name), ReleaseRefused(name)];
    MarkedIsReached(c, name, shared);
    if k == top {
      assert c.frames[..k + 1] == c.frames;
      ops := mark;
    } else {
      TopIsPopped(c, shared);
      Then(c, mark, [ReleaseRefused(name)], shared);
      var popped := Marked(c, name).(frames := c.frames[..top]);
      var rest := FrameIsReached(popped, k, shared);
      Then(c, mark + [ReleaseRefused(name)], rest, shared);
      ops := mark + [ReleaseRefused(name)] + rest;
      PoppedAgrees(c, k, name);
    }
  }

  lemma PoppedAgrees(c: Conn, k: nat, name: string)
    requires k + 1 < |c.frames|
    ensures var popped := Marked(c, name).(frames := c.frames[..|c.frames| - 1]);
            var reached := Marked(popped, popped.frames[k].mark.name).(frames := popped.frames[..k + 1]);
            reached == Marked(c, c.frames[k].mark.name).(frames := c.frames[..k + 1])
  {
    assert c.frames[..|c.frames| - 1][..k + 1] == c.frames[..k + 1];
  }
}
