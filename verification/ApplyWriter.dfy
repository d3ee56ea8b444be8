/** The writer behind `.clone`: SQL text arrives in pieces of any size, is cut
    into statements at a semicolon before a line end, and each statement is run
    on the target as soon as it is complete. */
module ApplyWriter {
  import opened Common

  const SEMICOLON: Byte := 0x3B
  const LF: Byte := 0x0A
  const CR: Byte := 0x0D

  // ---------- Where a statement ends ----------

  /** Length of the terminator at index i, semicolon included, or 0. */
  function TerminatorAt(buf: Bytes, i: nat): nat {
    if i < |buf| && buf[i] == SEMICOLON then
      if i + 1 < |buf| && buf[i + 1] == LF then 2
      else if i + 2 < |buf| && buf[i + 1] == CR && buf[i + 2] == LF then 3
      else 0
    else 0
  }

  ghost predicate IsFirstEnd(buf: Bytes, i: nat) {
    TerminatorAt(buf, i) > 0 && forall j: nat :: j < i ==> TerminatorAt(buf, j) == 0
  }

  function EndFrom(buf: Bytes, i: nat): (r: Option<nat>)
    requires i <= |buf| && forall j: nat :: j < i ==> TerminatorAt(buf, j) == 0
    ensures r.Some? ==> IsFirstEnd(buf, r.value) && r.value + 2 <= r.value + TerminatorAt(buf, r.value) <= |buf|
    ensures r.None? ==> forall j: nat :: TerminatorAt(buf, j) == 0
    decreases |buf| - i
  {
    if i == |buf| then None
    else if TerminatorAt(buf, i) > 0 then Some(i)
    else EndFrom(buf, i + 1)
  }

  function FirstEnd(buf: Bytes): (r: Option<nat>)
    ensures r.Some? ==> IsFirstEnd(buf, r.value) && r.value + 2 <= r.value + TerminatorAt(buf, r.value) <= |buf|
    ensures r.None? ==> forall j: nat :: TerminatorAt(buf, j) == 0
  {
    EndFrom(buf, 0)
  }

  lemma FirstEndUnique(buf: Bytes, i: nat)
    requires IsFirstEnd(buf, i)
    ensures FirstEnd(buf) == Some(i)
  {
  }

  /** The statements of a text, each up to its semicolon. */
  function Statements(buf: Bytes): seq<Bytes>
    decreases |buf|
  {
    match FirstEnd(buf)
    case None => []
    case Some(i) => [buf[..i + 1]] + Statements(buf[i + TerminatorAt(buf, i)..])
  }

  function Remainder(buf: Bytes): Bytes
    decreases |buf|
  {
    match FirstEnd(buf)
    case None => buf
    case Some(i) => Remainder(buf[i + TerminatorAt(buf, i)..])
  }

  // ---------- The writer ----------

  datatype IoError = NonUtf8 | Rejected

  /** What was run so far, what is buffered, and whether a statement failed. */
  datatype Progress = Progress(executed: seq<Bytes>, buf: Bytes, error: Option<IoError>)

  /** Whether the target runs a statement, after those it has run. */
  type Target = (seq<Bytes>, Bytes) -> bool

  function Exec(target: Target, executed: seq<Bytes>, stmt: Bytes): Option<IoError> {
    if !IsUtf8(stmt) then Some(NonUtf8) else if !target(executed, stmt) then Some(Rejected) else None
  }

  function Flush(target: Target, executed: seq<Bytes>, buf: Bytes): Progress
    decreases |buf|
  {
    match FirstEnd(buf)
    case None => Progress(executed, buf, None)
    case Some(i) =>
      var stmt, rest := buf[..i + 1], buf[i + TerminatorAt(buf, i)..];
      var error := Exec(target, executed, stmt);
      if error.Some? then Progress(executed, rest, error) else Flush(target, executed + [stmt], rest)
  }

  class Writer {
    const target: Target
    var buf: Bytes
    var executed: seq<Bytes>

    constructor (target: Target)
      ensures this.target == target && buf == [] && executed == []
    {
      this.target := target;
      buf, executed := [], [];
    }

    static method FindStmtEnd(buf: Bytes) returns (r: Option<(nat, nat)>)
      ensures match FirstEnd(buf) case None => r == None case Some(i) => r == Some((i, TerminatorAt(buf, i)))
    {
      var i := 0;
      while i < |buf|
        invariant 0 <= i <= |buf| && forall j: nat :: j < i ==> TerminatorAt(buf, j) == 0
        invariant FirstEnd(buf) == EndFrom(buf, i)
      {
        if buf[i] == SEMICOLON {
          if i + 1 < |buf| && buf[i + 1] == LF {
            return Some((i, 2));
          }
          if i + 2 < |buf| && buf[i + 1] == CR && buf[i + 2] == LF {
            return Some((i, 3));
          }
        }
        i := i + 1;
      }
      r := None;
    }

    method ExecStmtBytes(stmt: Bytes) returns (error: Option<IoError>)
      modifies this`executed
      ensures error == Exec(target, old(executed), stmt)
      ensures executed == if error.None? then old(executed) + [stmt] else old(executed)
    {
      if !IsUtf8(stmt) {
        return Some(NonUtf8);
      }
      if !target(executed, stmt) {
        return Some(Rejected);
      }
      executed := executed + [stmt];
      error := None;
    }

    method FlushCompleteStatements() returns (error: Option<IoError>)
      modifies this
      ensures Progress(executed, buf, error) == Flush(target, old(executed), old(buf))
    {
      while true
        invariant Flush(target, executed, buf) == Flush(target, old(executed), old(buf))
        decreases |buf|
      {
        var end := FindStmtEnd(buf);
        if end.None? {
          return None;
        }
        var (endInclusive, drainLen) := end.value;
        var stmtBytes := buf[..endInclusive + 1];
        buf := buf[endInclusive + drainLen..];
        error := ExecStmtBytes(stmtBytes);
        if error.Some? {
          return;
        }
      }
    }

    method Write(data: Bytes) returns (r: Result<nat, IoError>)
      modifies this
      ensures var p := Flush(target, old(executed), old(buf) + data);
              executed == p.executed && buf == p.buf && r == if p.error.None? then Ok(|data|) else Err(p.error.value)
    {
      buf := buf + data;
      var error := FlushCompleteStatements();
      if error.Some? {
        return Err(error.value);
      }
      r := Ok(|data|);
    }

    /** Runs a last statement that ends in a semicolon followed by blanks only. */
    method Finish() returns (r: Result<(), IoError>)
      modifies this
      ensures buf == if Trailing(old(buf)).Some? then [] else old(buf)
      ensures var last := Trailing(old(buf));
              if last.None? then r == Ok(()) && executed == old(executed)
              else var error := Exec(target, old(executed), last.value);
                if error.Some? then r == Err(error.value) && executed == old(executed)
                else r == Ok(()) && executed == old(executed) + [last.value]
    {
      var i := |buf|;
      while i > 0 && buf[i - 1] != SEMICOLON
        invariant 0 <= i <= |buf| && forall j :: i <= j < |buf| ==> buf[j] != SEMICOLON
      {
        i := i - 1;
      }
      LastSemicolon(buf, i);
      if i > 0 && (forall j :: i <= j < |buf| ==> IsBlank(buf[j])) {
        var stmtBytes := buf[..i];
        buf := [];
        var error := ExecStmtBytes(stmtBytes);
        if error.Some? {
          return Err(error.value);
        }
      }
      r := Ok(());
    }
  }

  predicate IsBlank(b: Byte) { b in {0x20, 0x09, CR, LF} }

  function Trailing(buf: Bytes): Option<Bytes> {
    if buf == [] then None
    else if buf[|buf| - 1] == SEMICOLON then Some(buf)
    else if IsBlank(buf[|buf| - 1]) then Trailing(buf[..|buf| - 1])
    else None
  }

  lemma {:induction false} LastSemicolon(buf: Bytes, i: nat)
    requires i <= |buf| && (i == 0 || buf[i - 1] == SEMICOLON) && forall j :: i <= j < |buf| ==> buf[j] != SEMICOLON
    ensures Trailing(buf) == if i > 0 && (forall j :: i <= j < |buf| ==> IsBlank(buf[j])) then Some(buf[..i]) else None
  {
    if i < |buf| {
      var shorter := buf[..|buf| - 1];
      LastSemicolon(shorter, i);
      assert shorter[..i] == buf[..i];
      assert forall j :: i <= j < |shorter| ==> shorter[j] == buf[j];
      if IsBlank(buf[|buf| - 1]) {
        assert (forall j :: i <= j < |buf| ==> IsBlank(buf[j]))
          <==> (forall j :: i <= j < |shorter| ==> IsBlank(shorter[j]));
      }
    } else {
      assert buf[..i] == buf;
    }
  }

  /** Spaces, tabs and line ends. */
  predicate AllBlank(b: Bytes) { forall i :: 0 <= i < |b| ==> b[i] as int as char in " \t\r\n" }

  predicate EndsInSemicolon(b: Bytes) { b != [] && b[|b| - 1] == SEMICOLON }

  /** There is a last statement exactly when the buffer is one, up to its semicolon, and blanks. */
  lemma {:induction false} TrailingIff(buf: Bytes, s: Bytes)
    ensures Trailing(buf) == Some(s) <==>
            s <= buf && EndsInSemicolon(s) && AllBlank(buf[|s|..])
  {
    if buf != [] {
      var last, shorter := buf[|buf| - 1], buf[..|buf| - 1];
      if last == SEMICOLON {
        assert EndsInSemicolon(s) && s <= buf && |s| < |buf| ==> buf[|s|..][|buf| - |s| - 1] == last;
        assert |s| == |buf| && s <= buf ==> s == buf;
      } else {
        TrailingIff(shorter, s);
        if s <= buf && EndsInSemicolon(s) {
          assert s != buf && s <= shorter;
          assert buf[|s|..] == shorter[|s|..] + [last];
          assert AllBlank(buf[|s|..]) <==> AllBlank(shorter[|s|..]) && IsBlank(last) by {
            assert forall i :: 0 <= i < |shorter[|s|..]| ==> shorter[|s|..][i] == buf[|s|..][i];
            assert buf[|s|..][|buf| - |s| - 1] == last;
          }
        }
      }
    }
  }

  // ---------- Only the bytes matter, not the pieces ----------

  lemma FirstEndGrows(a: Bytes, b: Bytes)
    requires FirstEnd(a).Some?
    ensures FirstEnd(a + b) == FirstEnd(a)
    ensures TerminatorAt(a + b, FirstEnd(a).value) == TerminatorAt(a, FirstEnd(a).value)
  {
    var i := FirstEnd(a).value;
    forall j: nat | j <= i ensures TerminatorAt(a + b, j) == TerminatorAt(a, j) {
      assert i + 1 < |a|;
    }
    FirstEndUnique(a + b, i);
  }

  /** Flushing early and then receiving more is receiving all at once. */
  lemma {:induction false} FlushTwice(target: Target, executed: seq<Bytes>, a: Bytes, b: Bytes)
    ensures var p, q := Flush(target, executed, a), Flush(target, executed, a + b);
            if p.error.Some? then q.executed == p.executed && q.error == p.error
            else q == Flush(target, p.executed, p.buf + b)
    decreases |a|
  {
    hide FirstEnd, TerminatorAt, IsFirstEnd, Exec;
    if FirstEnd(a).Some? {
      FirstEndGrows(a, b);
      var i := FirstEnd(a).value;
      var n := i + TerminatorAt(a, i);
      assert (a + b)[..i + 1] == a[..i + 1];
      assert (a + b)[n..] == a[n..] + b;
      FlushTwice(target, executed + [a[..i + 1]], a[n..], b);
    }
  }

  /** A run of writes, stopped by the first error. */
  function WriteAll(target: Target, p: Progress, chunks: seq<Bytes>): Progress
    decreases |chunks|
  {
    if chunks == [] || p.error.Some? then p
    else WriteAll(target, Flush(target, p.executed, p.buf + chunks[0]), chunks[1..])
  }

  function Concat(chunks: seq<Bytes>): Bytes {
    if chunks == [] then [] else chunks[0] + Concat(chunks[1..])
  }

  lemma {:induction false} WritesFromFlushed(target: Target, p: Progress, chunks: seq<Bytes>)
    requires p.error.None? && p == Flush(target, p.executed, p.buf)
    ensures var w, whole := WriteAll(target, p, chunks), Flush(target, p.executed, p.buf + Concat(chunks));
            w.executed == whole.executed && w.error == whole.error && (w.error.None? ==> w == whole)
    decreases |chunks|
  {
    hide Flush;
    if chunks == [] {
      assert p.buf + [] == p.buf;
    } else {
      var next := Flush(target, p.executed, p.buf + chunks[0]);
      FlushTwice(target, p.executed, p.buf + chunks[0], Concat(chunks[1..]));
      assert p.buf + chunks[0] + Concat(chunks[1..]) == p.buf + Concat(chunks);
      if next.error.None? {
        FlushAgain(target, p.executed, p.buf + chunks[0]);
        WritesFromFlushed(target, next, chunks[1..]);
      } else {
        assert WriteAll(target, next, chunks[1..]) == next;
      }
    }
  }

  lemma {:induction false} FlushAgain(target: Target, executed: seq<Bytes>, buf: Bytes)
    ensures var p := Flush(target, executed, buf);
            p.error.None? ==> p == Flush(target, p.executed, p.buf)
    decreases |buf|
  {
    hide FirstEnd, TerminatorAt, IsFirstEnd, Exec;
    if FirstEnd(buf).Some? {
      var i := FirstEnd(buf).value;
      FlushAgain(target, executed + [buf[..i + 1]], buf[i + TerminatorAt(buf, i)..]);
    }
  }

  /** However a text is cut into writes, the same statements run, the same error
      is met, and without one the same bytes are left over. */
  lemma ChunksDoNotMatter(target: Target, xs: seq<Bytes>, ys: seq<Bytes>)
    requires Concat(xs) == Concat(ys)
    ensures var a, b := WriteAll(target, Progress([], [], None), xs), WriteAll(target, Progress([], [], None), ys);
            a.executed == b.executed && a.error == b.error && (a.error.None? ==> a == b)
  {
    var start := Progress([], [], None);
    WritesFromFlushed(target, start, xs);
    WritesFromFlushed(target, start, ys);
  }

  // ---------- Nothing is lost ----------

  /** A run without error has run exactly the statements of the text. */
  lemma {:induction false} FlushRunsStatements(target: Target, executed: seq<Bytes>, buf: Bytes)
    ensures var p := Flush(target, executed, buf);
            p.error.None? ==> p.executed == executed + Statements(buf) && p.buf == Remainder(buf)
    decreases |buf|
  {
    hide FirstEnd, TerminatorAt, IsFirstEnd, Exec;
    if FirstEnd(buf).Some? {
      var i := FirstEnd(buf).value;
      var rest := buf[i + TerminatorAt(buf, i)..];
      FlushRunsStatements(target, executed + [buf[..i + 1]], rest);
      assert executed + [buf[..i + 1]] + Statements(rest) == executed + Statements(buf);
    } else {
      assert executed + [] == executed;
    }
  }

  /** The error that stopped the writer: the statements before the k-th have run, the k-th is not UTF-8 or the
      target refused it, and what follows it is still in the buffer. */
  ghost predicate StoppedAt(target: Target, executed: seq<Bytes>, buf: Bytes, p: Progress, k: nat) {
    && k < |Statements(buf)|
    && p.executed == executed + Statements(buf)[..k]
    && (if IsUtf8(Statements(buf)[k]) then p.error == Some(Rejected) && !target(p.executed, Statements(buf)[k])
        else p.error == Some(NonUtf8))
    && Statements(p.buf) == Statements(buf)[k + 1..] && Remainder(p.buf) == Remainder(buf)
  }

  /** The first k statements are text that the target runs. */
  ghost predicate RunsUpTo(target: Target, executed: seq<Bytes>, all: seq<Bytes>, k: nat) {
    k <= |all| && forall j :: 0 <= j < k ==> IsUtf8(all[j]) && target(executed + all[..j], all[j])
  }

  lemma RunsOneMore(target: Target, executed: seq<Bytes>, stmt: Bytes, later: seq<Bytes>, m: nat)
    requires IsUtf8(stmt) && target(executed, stmt) && RunsUpTo(target, executed + [stmt], later, m)
    ensures RunsUpTo(target, executed, [stmt] + later, m + 1)
    ensures executed + ([stmt] + later)[..m + 1] == executed + [stmt] + later[..m]
  {
    hide IsUtf8;
    var all := [stmt] + later;
    assert all[..m + 1] == [stmt] + later[..m];
    forall j | 0 <= j < m + 1 ensures IsUtf8(all[j]) && target(executed + all[..j], all[j]) {
      if j > 0 {
        assert executed + all[..j] == executed + [stmt] + later[..j - 1];
      } else {
        assert executed + all[..0] == executed;
      }
    }
  }

  lemma FirstStatement(buf: Bytes)
    requires FirstEnd(buf).Some?
    ensures var i := FirstEnd(buf).value;
            var rest := buf[i + TerminatorAt(buf, i)..];
            Statements(buf) == [buf[..i + 1]] + Statements(rest) && Remainder(buf) == Remainder(rest)
  {
    hide FirstEnd, TerminatorAt;
  }

  lemma {:induction false} FlushStops(target: Target, executed: seq<Bytes>, buf: Bytes) returns (k: nat)
    requires Flush(target, executed, buf).error.Some?
    ensures StoppedAt(target, executed, buf, Flush(target, executed, buf), k)
    ensures RunsUpTo(target, executed, Statements(buf), k)
    decreases |buf|
  {
    hide FirstEnd, TerminatorAt, IsFirstEnd, IsUtf8, Statements, Remainder, RunsUpTo;
    FirstStatement(buf);
    var i := FirstEnd(buf).value;
    var stmt, rest := buf[..i + 1], buf[i + TerminatorAt(buf, i)..];
    var all, later := Statements(buf), Statements(rest);
    if Exec(target, executed, stmt).Some? {
      k := 0;
      assert all[..0] == [] && executed + [] == executed && all[1..] == later;
      RunsNone(target, executed, all);
    } else {
      var m := FlushStops(target, executed + [stmt], rest);
      k := m + 1;
      RunsOneMore(target, executed, stmt, later, m);
      assert all[k] == later[m] && all[k + 1..] == later[m + 1..];
    }
  }

  lemma RunsNone(target: Target, executed: seq<Bytes>, all: seq<Bytes>)
    ensures RunsUpTo(target, executed, all, 0)
  {
  }

  predicate IsLineEnd(b: Bytes) { b == [LF] || b == [CR, LF] }

  function Join(stmts: seq<Bytes>, ends: seq<Bytes>): Bytes
    requires |stmts| == |ends|
  {
    if stmts == [] then [] else stmts[0] + ends[0] + Join(stmts[1..], ends[1..])
  }

  /** Every statement ends in its semicolon and is followed by a line end. */
  predicate LineEnds(stmts: seq<Bytes>, ends: seq<Bytes>) {
    |ends| == |stmts| && forall k :: 0 <= k < |ends| ==> IsLineEnd(ends[k]) && EndsInSemicolon(stmts[k])
  }

  lemma JoinFront(stmt: Bytes, stmts: seq<Bytes>, end: Bytes, ends: seq<Bytes>, tail: Bytes)
    requires LineEnds(stmts, ends) && IsLineEnd(end) && EndsInSemicolon(stmt)
    ensures LineEnds([stmt] + stmts, [end] + ends)
    ensures Join([stmt] + stmts, [end] + ends) + tail == stmt + end + (Join(stmts, ends) + tail)
  {
    hide IsLineEnd, EndsInSemicolon;
    assert ([stmt] + stmts)[1..] == stmts && ([end] + ends)[1..] == ends;
  }

  lemma LineEndAt(buf: Bytes, i: nat)
    requires FirstEnd(buf) == Some(i)
    ensures var n := i + TerminatorAt(buf, i);
            EndsInSemicolon(buf[..i + 1]) && IsLineEnd(buf[i + 1..n]) && buf == buf[..i + 1] + buf[i + 1..n] + buf[n..]
  {
  }

  /** Executed statements, the line ends between them and the remaining buffer
      are all bytes received, in order. */
  lemma {:induction false} NothingLost(buf: Bytes) returns (ends: seq<Bytes>)
    ensures LineEnds(Statements(buf), ends)
    ensures buf == Join(Statements(buf), ends) + Remainder(buf)
    decreases |buf|
  {
    hide FirstEnd, TerminatorAt, IsFirstEnd, Join;
    if FirstEnd(buf).None? {
      ends := [];
      JoinNothing();
    } else {
      hide LineEnds, IsLineEnd, EndsInSemicolon;
      var i := FirstEnd(buf).value;
      var n := i + TerminatorAt(buf, i);
      LineEndAt(buf, i);
      var rest := NothingLost(buf[n..]);
      ends := [buf[i + 1..n]] + rest;
      JoinFront(buf[..i + 1], Statements(buf[n..]), buf[i + 1..n], rest, Remainder(buf[n..]));
    }
  }

  lemma JoinNothing()
    ensures Join([], []) == []
  {
  }

  // ---------- When a dump survives the cut ----------

  /** The text of a dump: every statement followed by a semicolon and a line end. */
  function Dump(stmts: seq<Bytes>): Bytes {
    if stmts == [] then [] else stmts[0] + [SEMICOLON, LF] + Dump(stmts[1..])
  }

  function Terminated(stmts: seq<Bytes>): seq<Bytes> {
    seq(|stmts|, i requires 0 <= i < |stmts| => stmts[i] + [SEMICOLON])
  }

  lemma FirstEndOfDump(s: Bytes, tail: Bytes)
    ensures var text := s + [SEMICOLON, LF] + tail;
            FirstEnd(text) == if FirstEnd(s).Some? then FirstEnd(s) else Some(|s|)
  {
    var text := s + [SEMICOLON, LF] + tail;
    if FirstEnd(s).Some? {
      FirstEndGrows(s, [SEMICOLON, LF] + tail);
      assert text == s + ([SEMICOLON, LF] + tail);
    } else {
      forall j: nat | j < |s| ensures TerminatorAt(text, j) == 0 {
        assert TerminatorAt(s, j) == 0;
      }
      assert TerminatorAt(text, |s|) == 2;
      FirstEndUnique(text, |s|);
    }
  }

  lemma DumpFirst(s: Bytes, tail: Bytes)
    ensures var text := s + [SEMICOLON, LF] + tail;
            if FirstEnd(s).None? then
              Statements(text) == [s + [SEMICOLON]] + Statements(tail) && Remainder(text) == Remainder(tail)
            else Statements(text) != [] && |Statements(text)[0]| <= |s|
  {
    var text := s + [SEMICOLON, LF] + tail;
    FirstEndOfDump(s, tail);
    if FirstEnd(s).None? {
      assert TerminatorAt(text, |s|) == 2;
      assert text[..|s| + 1] == s + [SEMICOLON];
      assert text[|s| + 2..] == tail;
    }
  }

  /** The statements of a dump are run one by one as they were written, with
      nothing left over, if and only if none of them contains a semicolon before
      a line end. A trigger body or a text value may contain one. */
  lemma {:induction false} DumpReplays(stmts: seq<Bytes>)
    ensures (Statements(Dump(stmts)) == Terminated(stmts) && Remainder(Dump(stmts)) == [])
            <==> forall k :: 0 <= k < |stmts| ==> FirstEnd(stmts[k]).None?
  {
    if stmts == [] {
      assert FirstEnd([]).None?;
    } else {
      var s, rest := stmts[0], stmts[1..];
      hide FirstEnd, Statements, Remainder;
      DumpFirst(s, Dump(rest));
      DumpReplays(rest);
      assert Terminated(stmts) == [s + [SEMICOLON]] + Terminated(rest);
      if FirstEnd(s).None? {
        var all, tail := Statements(Dump(stmts)), Statements(Dump(rest));
        assert all[1..] == tail && Terminated(stmts)[1..] == Terminated(rest);
        assert forall k :: 0 < k < |stmts| ==> stmts[k] == rest[k - 1];
        assert forall k :: 0 <= k < |rest| ==> rest[k] == stmts[k + 1];
      }
    }
  }
}
