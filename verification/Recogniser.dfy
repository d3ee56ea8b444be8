/** The shell's test for "is this SQL complete": a tokenizer that skips quoted
    text and comments, and a state machine that knows that a trigger body ends
    only at `; END ;`. */
module Recogniser {
  datatype ReadState = Invalid | Start | Normal | ExplainSeen | CreateSeen | InTrigger | SemiSeen | EndSeen

  datatype Token = Semi | Whitespace | Other | Explain | Create | Temp | Trigger | End

  function Transition(state: ReadState, token: Token): ReadState {
    match state
    case Invalid =>
      (match token
       case Semi => Start
       case Whitespace => Invalid
       case Explain => ExplainSeen
       case Create => CreateSeen
       case _ => Normal)
    case Start =>
      (match token
       case Semi => Start
       case Whitespace => Start
       case Explain => ExplainSeen
       case Create => CreateSeen
       case _ => Normal)
    case Normal => if token == Semi then Start else Normal
    case ExplainSeen =>
      (match token
       case Semi => Start
       case Whitespace => ExplainSeen
       case Other => ExplainSeen
       case Create => CreateSeen
       case _ => Normal)
    case CreateSeen =>
      (match token
       case Semi => Start
       case Whitespace => CreateSeen
       case Temp => CreateSeen
       case Trigger => InTrigger
       case _ => Normal)
    case InTrigger => if token == Semi then SemiSeen else InTrigger
    case SemiSeen =>
      (match token
       case Semi => SemiSeen
       case Whitespace => SemiSeen
       case End => EndSeen
       case _ => InTrigger)
    case EndSeen =>
      (match token
       case Semi => Start
       case Whitespace => EndSeen
       case _ => InTrigger)
  }

  function Init<T>(s: seq<T>): seq<T> requires s != [] { s[..|s| - 1] }

  function Last<T>(s: seq<T>): T requires s != [] { s[|s| - 1] }

  function Fold(state: ReadState, ts: seq<Token>): ReadState {
    if ts == [] then state else Transition(Fold(state, Init(ts)), Last(ts))
  }

  // ---------- Which token sequences are statements ----------

  predicate All(ts: seq<Token>, lo: int, hi: int, t: Token)
    requires 0 <= lo && hi <= |ts|
  {
    forall i :: lo <= i < hi ==> ts[i] == t
  }

  predicate IsExplainPart(p: seq<Token>) {
    p != [] && p[0] == Explain && All(p, 1, |p|, Other)
  }

  /** [EXPLAIN other*] CREATE TEMP*, with CREATE at index c. */
  predicate CreateAt(p: seq<Token>, c: int) {
    && 0 <= c < |p| && p[c] == Create && All(p, c + 1, |p|, Temp)
    && (c == 0 || IsExplainPart(p[..c]))
  }

  predicate IsCreatePart(p: seq<Token>) { exists c :: 0 <= c < |p| && CreateAt(p, c) }

  /** The first k tokens are [EXPLAIN other*] CREATE TEMP* TRIGGER. */
  predicate HeadAt(ts: seq<Token>, k: nat) {
    0 < k <= |ts| && ts[k - 1] == Trigger && IsCreatePart(ts[..k - 1])
  }

  predicate TriggerEndAt(ts: seq<Token>, k: nat, n: nat) {
    k + 3 <= n <= |ts| && ts[n - 3] == Semi && ts[n - 2] == End && ts[n - 1] == Semi
  }

  predicate SemiAt(ts: seq<Token>, n: nat) { 0 < n <= |ts| && ts[n - 1] == Semi }

  /** The first n tokens are the first statement: a trigger up to the first
      `; END ;` after its head, or anything else up to its first semicolon. */
  ghost predicate StatementEnd(ts: seq<Token>, n: nat) {
    || (exists k :: HeadAt(ts, k) && TriggerEndAt(ts, k, n) && forall m: nat :: m < n ==> !TriggerEndAt(ts, k, m))
    || ((forall k :: !HeadAt(ts, k)) && SemiAt(ts, n) && forall m: nat :: m < n ==> !SemiAt(ts, m))
  }

  predicate Idle(state: ReadState) { state.Invalid? || state.Start? }

  /** From an idle machine, the n-th token is the first after which it reports a
      complete statement. */
  ghost predicate CompletesAt(idle: ReadState, ts: seq<Token>, n: nat) {
    && 0 < n <= |ts| && Fold(idle, ts[..n]) == Start
    && forall m :: 0 < m < n ==> Fold(idle, ts[..m]) != Start
  }

  // ---------- The machine follows that description ----------

  lemma FoldPrefix(idle: ReadState, ts: seq<Token>, n: nat)
    requires 0 < n <= |ts|
    ensures Fold(idle, ts[..n]) == Transition(Fold(idle, ts[..n - 1]), ts[n - 1])
  {
    assert Init(ts[..n]) == ts[..n - 1];
  }

  lemma {:induction false} ExplainState(idle: ReadState, p: seq<Token>)
    requires Idle(idle) && IsExplainPart(p)
    ensures Fold(idle, p) == ExplainSeen
  {
    if |p| > 1 {
      ExplainState(idle, Init(p));
    } else {
      assert Fold(idle, Init(p)) == idle;
    }
  }

  lemma {:induction false} CreateState(idle: ReadState, p: seq<Token>, c: int)
    requires Idle(idle) && CreateAt(p, c)
    ensures Fold(idle, p) == CreateSeen
  {
    if c < |p| - 1 {
      assert Init(p)[..c] == p[..c];
      CreateState(idle, Init(p), c);
    } else {
      assert Init(p) == p[..c];
      if c > 0 { ExplainState(idle, p[..c]); }
    }
  }

  lemma HeadState(idle: ReadState, ts: seq<Token>, k: nat)
    requires Idle(idle) && HeadAt(ts, k)
    ensures Fold(idle, ts[..k]) == InTrigger
    ensures forall m :: 0 < m <= k ==> !SemiAt(ts, m)
  {
    var p := ts[..k - 1];
    var c :| 0 <= c < |p| && CreateAt(p, c);
    CreateState(idle, p, c);
    FoldPrefix(idle, ts, k);
    forall m | 0 < m <= k ensures !SemiAt(ts, m) {
      if m < k {
        assert ts[m - 1] == p[m - 1];
        if m - 1 < c { assert p[m - 1] == p[..c][m - 1]; }
      }
    }
  }

  /** State of the trigger part from its last tokens. */
  function BodyState(ts: seq<Token>, k: nat, m: nat): ReadState
    requires k <= m <= |ts|
  {
    if m >= k + 2 && ts[m - 2] == Semi && ts[m - 1] == End then EndSeen
    else if m >= k + 1 && ts[m - 1] == Semi then SemiSeen
    else InTrigger
  }

  lemma {:induction false} BodyFold(idle: ReadState, ts: seq<Token>, k: nat, m: nat)
    requires Idle(idle) && HeadAt(ts, k) && k <= m <= |ts| && Whitespace !in ts
    requires forall i: nat :: i <= m ==> !TriggerEndAt(ts, k, i)
    ensures Fold(idle, ts[..m]) == BodyState(ts, k, m)
    decreases m
  {
    if m == k {
      HeadState(idle, ts, k);
    } else {
      BodyFold(idle, ts, k, m - 1);
      FoldPrefix(idle, ts, m);
      assert !TriggerEndAt(ts, k, m);
      assert ts[m - 1] in ts;
    }
  }

  lemma PartsStep(p: seq<Token>)
    requires |p| > 1
    ensures IsExplainPart(p) <==> IsExplainPart(Init(p)) && Last(p) == Other
    ensures IsCreatePart(p) <==>
            (IsCreatePart(Init(p)) && Last(p) == Temp) || (IsExplainPart(Init(p)) && Last(p) == Create)
  {
    var q := Init(p);
    if IsExplainPart(q) && Last(p) == Create {
      assert p[..|q|] == q;
      assert CreateAt(p, |q|);
    } else if IsCreatePart(q) && Last(p) == Temp {
      var c :| 0 <= c < |q| && CreateAt(q, c);
      assert p[..c] == q[..c];
      assert CreateAt(p, c);
    }
    if IsCreatePart(p) {
      var c :| 0 <= c < |p| && CreateAt(p, c);
      if c < |q| {
        assert p[..c] == q[..c];
        assert Last(p) == Temp;
        assert CreateAt(q, c);
      } else {
        assert p[..c] == q;
      }
    }
  }

  lemma {:induction false} PlainState(idle: ReadState, ts: seq<Token>, m: nat)
    requires Idle(idle) && 0 < m <= |ts| && Whitespace !in ts
    requires forall k :: !HeadAt(ts, k)
    requires forall i: nat :: i <= m ==> !SemiAt(ts, i)
    ensures Fold(idle, ts[..m]) ==
            if IsExplainPart(ts[..m]) then ExplainSeen else if IsCreatePart(ts[..m]) then CreateSeen else Normal
    decreases m
  {
    var p := ts[..m];
    FoldPrefix(idle, ts, m);
    assert ts[m - 1] in ts && !SemiAt(ts, m);
    if m == 1 {
      assert CreateAt(p, 0) <==> p[0] == Create;
    } else {
      PlainState(idle, ts, m - 1);
      PartsStep(p);
      assert Init(p) == ts[..m - 1] && Last(p) == ts[m - 1];
      assert !HeadAt(ts, m);
      ExplainNotCreate(Init(p));
    }
  }

  lemma ExplainNotCreate(p: seq<Token>)
    ensures !(IsExplainPart(p) && IsCreatePart(p))
  {
    if IsCreatePart(p) {
      var c :| 0 <= c < |p| && CreateAt(p, c);
      assert p[c] == Create;
    }
  }

  lemma StartNeedsSemi(idle: ReadState, ts: seq<Token>, n: nat)
    requires 0 < n <= |ts| && Whitespace !in ts && Fold(idle, ts[..n]) == Start
    ensures SemiAt(ts, n)
  {
    FoldPrefix(idle, ts, n);
    assert ts[n - 1] in ts;
  }

  lemma TriggerCompletes(idle: ReadState, ts: seq<Token>, k: nat, n: nat)
    requires Idle(idle) && Whitespace !in ts && HeadAt(ts, k)
    requires TriggerEndAt(ts, k, n) && forall m: nat :: m < n ==> !TriggerEndAt(ts, k, m)
    ensures CompletesAt(idle, ts, n)
  {
    HeadState(idle, ts, k);
    BodyFold(idle, ts, k, n - 1);
    FoldPrefix(idle, ts, n);
    forall m | 0 < m < n ensures Fold(idle, ts[..m]) != Start {
      if m >= k {
        BodyFold(idle, ts, k, m);
      } else if Fold(idle, ts[..m]) == Start {
        StartNeedsSemi(idle, ts, m);
      }
    }
  }

  lemma PlainCompletes(idle: ReadState, ts: seq<Token>, n: nat)
    requires Idle(idle) && Whitespace !in ts && (forall k :: !HeadAt(ts, k))
    requires SemiAt(ts, n) && forall m: nat :: m < n ==> !SemiAt(ts, m)
    ensures CompletesAt(idle, ts, n)
  {
    FoldPrefix(idle, ts, n);
    if n > 1 {
      PlainState(idle, ts, n - 1);
    } else {
      assert ts[..0] == [];
    }
    forall m | 0 < m < n ensures Fold(idle, ts[..m]) != Start {
      if Fold(idle, ts[..m]) == Start {
        StartNeedsSemi(idle, ts, m);
      }
    }
  }

  lemma {:induction false} FirstTriggerEnd(ts: seq<Token>, k: nat, n: nat) returns (first: nat)
    requires TriggerEndAt(ts, k, n)
    ensures first <= n && TriggerEndAt(ts, k, first) && forall m: nat :: m < first ==> !TriggerEndAt(ts, k, m)
    decreases n
  {
    if m: nat :| m < n && TriggerEndAt(ts, k, m) {
      first := FirstTriggerEnd(ts, k, m);
    } else {
      first := n;
    }
  }

  lemma {:induction false} FirstSemi(ts: seq<Token>, n: nat) returns (first: nat)
    requires SemiAt(ts, n)
    ensures first <= n && SemiAt(ts, first) && forall m: nat :: m < first ==> !SemiAt(ts, m)
    decreases n
  {
    if m: nat :| m < n && SemiAt(ts, m) {
      first := FirstSemi(ts, m);
    } else {
      first := n;
    }
  }

  lemma CompletionIsEnd(idle: ReadState, ts: seq<Token>, n: nat)
    requires Idle(idle) && Whitespace !in ts && CompletesAt(idle, ts, n)
    ensures StatementEnd(ts, n)
  {
    StartNeedsSemi(idle, ts, n);
    if k: nat :| HeadAt(ts, k) {
      HeadState(idle, ts, k);
      assert n > k;
      if m: nat :| m <= n && TriggerEndAt(ts, k, m) {
        var first := FirstTriggerEnd(ts, k, m);
        TriggerCompletes(idle, ts, k, first);
        assert first == n;
      } else {
        BodyFold(idle, ts, k, n);
      }
    } else {
      var first := FirstSemi(ts, n);
      PlainCompletes(idle, ts, first);
      assert first == n;
    }
  }

  /** On any token sequence without whitespace the machine first reports a
      complete statement exactly where the statement ends. */
  lemma CompletesExactly(idle: ReadState, ts: seq<Token>, n: nat)
    requires Idle(idle) && Whitespace !in ts
    ensures CompletesAt(idle, ts, n) <==> StatementEnd(ts, n)
  {
    if CompletesAt(idle, ts, n) {
      CompletionIsEnd(idle, ts, n);
    }
    if StatementEnd(ts, n) {
      if forall k :: !HeadAt(ts, k) {
        PlainCompletes(idle, ts, n);
      } else {
        var k: nat :| HeadAt(ts, k) && TriggerEndAt(ts, k, n) && forall m: nat :: m < n ==> !TriggerEndAt(ts, k, m);
        TriggerCompletes(idle, ts, k, n);
      }
    }
  }

  /** A nonempty sequence of statements, one after the other. */
  ghost predicate IsScript(ts: seq<Token>)
    decreases |ts|
  {
    exists n :: 0 < n <= |ts| && StatementEnd(ts, n) && (n == |ts| || IsScript(ts[n..]))
  }

  lemma {:induction false} FoldSplit(state: ReadState, ts: seq<Token>, n: nat)
    requires n <= |ts|
    ensures Fold(state, ts) == Fold(Fold(state, ts[..n]), ts[n..])
    decreases |ts|
  {
    if n == |ts| {
      assert ts[..n] == ts;
    } else {
      FoldSplit(state, Init(ts), n);
      assert Init(ts)[..n] == ts[..n] && Init(ts[n..]) == Init(ts)[n..];
    }
  }

  lemma {:induction false} FirstCompletion(idle: ReadState, ts: seq<Token>, n: nat) returns (first: nat)
    requires 0 < n <= |ts| && Fold(idle, ts[..n]) == Start
    ensures first <= n && CompletesAt(idle, ts, first)
    decreases n
  {
    if m: nat :| 0 < m < n && Fold(idle, ts[..m]) == Start {
      first := FirstCompletion(idle, ts, m);
    } else {
      first := n;
    }
  }

  /** The machine ends in its complete state exactly on scripts. */
  lemma {:induction false} CompleteIffScript(idle: ReadState, ts: seq<Token>)
    requires Idle(idle) && Whitespace !in ts
    ensures ts != [] ==> (Fold(idle, ts) == Start <==> IsScript(ts))
    decreases |ts|
  {
    if ts != [] && Fold(idle, ts) == Start {
      assert ts[..|ts|] == ts;
      var n := FirstCompletion(idle, ts, |ts|);
      CompletesExactly(idle, ts, n);
      FoldSplit(idle, ts, n);
      if n < |ts| {
        CompleteIffScript(Start, ts[n..]);
      }
    }
    if IsScript(ts) {
      var n :| 0 < n <= |ts| && StatementEnd(ts, n) && (n == |ts| || IsScript(ts[n..]));
      CompletesExactly(idle, ts, n);
      FoldSplit(idle, ts, n);
      if n < |ts| {
        CompleteIffScript(Start, ts[n..]);
      } else {
        assert ts[..n] == ts;
      }
    }
  }

  // ---------- Whitespace ----------

  function Erase(ts: seq<Token>): (es: seq<Token>)
    ensures Whitespace !in es
  {
    if ts == [] then []
    else Erase(Init(ts)) + (if Last(ts) == Whitespace then [] else [Last(ts)])
  }

  lemma {:induction false} EraseFold(state: ReadState, ts: seq<Token>)
    ensures Fold(state, ts) == Fold(state, Erase(ts))
  {
    if ts != [] {
      EraseFold(state, Init(ts));
      if Last(ts) != Whitespace {
        assert Init(Erase(ts)) == Erase(Init(ts));
      } else {
        assert Erase(ts) == Erase(Init(ts));
      }
    }
  }
}
