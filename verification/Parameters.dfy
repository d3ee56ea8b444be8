/** Bind parameters of a statement: how `?`, `?N` and named parameters get their
    indices, over every order in which a statement mentions them. */
module Parameters {
  import opened Common

  datatype Parameter = Indexed(i: nat) | Named(name: string, i: nat)

  datatype State = State(nextIndex: nat, list: seq<Parameter>)

  const EMPTY := State(1, [])

  predicate HasIndex(list: seq<Parameter>, index: nat) {
    list != [] && (list[0].i == index || HasIndex(list[1..], index))
  }

  /** The first entry of that index. */
  function FirstAt(list: seq<Parameter>, index: nat): Option<Parameter> {
    if list == [] then None else if list[0].i == index then Some(list[0]) else FirstAt(list[1..], index)
  }

  function IndexOf(list: seq<Parameter>, name: string): Option<nat> {
    if list == [] then None
    else if list[0].Named? && list[0].name == name then Some(list[0].i)
    else IndexOf(list[1..], name)
  }

  /** `retain` of the entries of other indices. */
  function Without(list: seq<Parameter>, index: nat): seq<Parameter> {
    if list == [] then []
    else (if list[0].i == index then [] else [list[0]]) + Without(list[1..], index)
  }

  // ---------- The operations on values ----------

  function Reach(nextIndex: nat, index: nat): nat { if index >= nextIndex then index + 1 else nextIndex }

  function AddIndex(s: State, index: nat): State {
    State(Reach(s.nextIndex, index), if HasIndex(s.list, index) then s.list else s.list + [Indexed(index)])
  }

  predicate NamedAt(list: seq<Parameter>, index: nat) {
    FirstAt(list, index).Some? && FirstAt(list, index).value.Named?
  }

  function AddNamedAt(s: State, name: string, index: nat): State {
    State(Reach(s.nextIndex, index),
          if NamedAt(s.list, index) then s.list else Without(s.list, index) + [Named(name, index)])
  }

  datatype Op = PushName(name: string) | PushIndex(index: nat) | PushNamedAt(name: string, index: nat)

  predicate Legal(op: Op) { !op.PushName? ==> op.index >= 1 }

  /** The index that a mention resolves to. */
  function Resolved(s: State, op: Op): nat {
    match op
    case PushName(name) => if IndexOf(s.list, name).Some? then IndexOf(s.list, name).value else s.nextIndex
    case PushIndex(index) => index
    case PushNamedAt(_, index) => index
  }

  function Apply(s: State, op: Op): State {
    match op
    case PushName(name) =>
      if IndexOf(s.list, name).Some? then s
      else AddNamedAt(State(s.nextIndex + 1, s.list), name, s.nextIndex)
    case PushIndex(index) => AddIndex(s, index)
    case PushNamedAt(name, index) => AddNamedAt(s, name, index)
  }

  function RunAll(ops: seq<Op>): State {
    if ops == [] then EMPTY else Apply(RunAll(ops[..|ops| - 1]), ops[|ops| - 1])
  }

  // ---------- The object ----------

  class Parameters {
    var nextIndex: nat
    var list: seq<Parameter>

    ghost function Now(): State reads this { State(nextIndex, list) }

    constructor ()
      ensures Now() == EMPTY
    {
      nextIndex, list := 1, [];
    }

    method PushIndex(index: nat) returns (r: nat)
      requires index >= 1
      modifies this
      ensures Now() == Apply(old(Now()), Op.PushIndex(index)) && r == index
    {
      if index >= nextIndex {
        nextIndex := index + 1;
      }
      if !HasIndex(list, index) {
        list := list + [Indexed(index)];
      }
      r := index;
    }

    method PushNamedAt(name: string, index: nat) returns (r: nat)
      requires index >= 1
      modifies this
      ensures Now() == Apply(old(Now()), Op.PushNamedAt(name, index)) && r == index
    {
      if index >= nextIndex {
        nextIndex := index + 1;
      }
      r := index;
      var found := FirstAt(list, index);
      if found.Some? && found.value.Named? {
        return;
      }
      if HasIndex(list, index) {
        list := Without(list, index);
      } else {
        WithoutAbsent(list, index);
      }
      list := list + [Named(name, index)];
    }

    /** The branch of `push` for names that start with $, :, @ or #. */
    method PushName(name: string) returns (r: nat)
      requires nextIndex >= 1
      modifies this
      ensures Now() == Apply(old(Now()), Op.PushName(name)) && r == Resolved(old(Now()), Op.PushName(name))
    {
      var known := IndexOf(list, name);
      if known.Some? {
        return known.value;
      }
      var index := nextIndex;
      nextIndex := nextIndex + 1;
      r := PushNamedAt(name, index);
    }
  }

  lemma {:induction false} WithoutAbsent(list: seq<Parameter>, index: nat)
    requires !HasIndex(list, index)
    ensures Without(list, index) == list
  {
    if list != [] {
      WithoutAbsent(list[1..], index);
      assert list == [list[0]] + list[1..];
    }
  }

  // ---------- Every run ----------

  predicate Distinct(list: seq<Parameter>) {
    list == [] || (!HasIndex(list[1..], list[0].i) && Distinct(list[1..]))
  }

  ghost predicate Good(s: State) {
    s.nextIndex >= 1 && Distinct(s.list) && forall i: nat :: HasIndex(s.list, i) ==> 1 <= i < s.nextIndex
  }

  lemma {:induction false} Pushed(list: seq<Parameter>, p: Parameter, i: nat, name: string)
    ensures HasIndex(list + [p], i) <==> HasIndex(list, i) || p.i == i
    ensures FirstAt(list + [p], i) ==
            if FirstAt(list, i).Some? then FirstAt(list, i) else if p.i == i then Some(p) else None
    ensures IndexOf(list + [p], name) ==
            if IndexOf(list, name).Some? then IndexOf(list, name)
            else if p.Named? && p.name == name then Some(p.i) else None
    ensures Distinct(list) && !HasIndex(list, p.i) ==> Distinct(list + [p])
  {
    if list == [] {
      assert list + [p] == [p] && [p][1..] == [];
    } else {
      assert (list + [p])[1..] == list[1..] + [p];
      Pushed(list[1..], p, i, name);
      Pushed(list[1..], p, list[0].i, name);
    }
  }

  lemma {:induction false} Removed(list: seq<Parameter>, index: nat, i: nat, name: string)
    requires Distinct(list)
    ensures var w := Without(list, index);
            && (HasIndex(w, i) <==> HasIndex(list, i) && i != index)
            && Distinct(w)
            && (i != index ==> FirstAt(w, i) == FirstAt(list, i))
            && (!NamedAt(list, index) ==> IndexOf(w, name) == IndexOf(list, name))
  {
    if list != [] {
      var w := Without(list[1..], index);
      Removed(list[1..], index, i, name);
      Removed(list[1..], index, list[0].i, name);
      if list[0].i == index {
        WithoutAbsent(list[1..], index);
        assert [] + w == w;
      } else {
        assert ([list[0]] + w)[1..] == w;
      }
    }
  }

  /** A name once resolved keeps its index, an index once named keeps its name,
      and the mentioned index is recorded; indices stay distinct and in range. */
  lemma AddNamedKeeps(s: State, name: string, index: nat, i: nat, other: string)
    requires Good(s) && index >= 1
    ensures var t := AddNamedAt(s, name, index);
            && Distinct(t.list)
            && (HasIndex(t.list, i) <==> HasIndex(s.list, i) || i == index)
            && (IndexOf(s.list, other).Some? ==> IndexOf(t.list, other) == IndexOf(s.list, other))
            && (NamedAt(s.list, i) ==> FirstAt(t.list, i) == FirstAt(s.list, i))
            && NamedAt(t.list, index)
            && (!HasIndex(s.list, index) && IndexOf(s.list, name).None? ==> IndexOf(t.list, name) == Some(index))
  {
    FirstAtHas(s.list, index);
    if !NamedAt(s.list, index) {
      hide Without, Distinct;
      var w := Without(s.list, index);
      Removed(s.list, index, i, other);
      Removed(s.list, index, index, name);
      Pushed(w, Named(name, index), i, other);
      Pushed(w, Named(name, index), index, name);
      FirstAtHas(w, index);
    }
  }

  lemma {:induction false} FirstAtHas(list: seq<Parameter>, index: nat)
    ensures FirstAt(list, index).Some? <==> HasIndex(list, index)
    ensures FirstAt(list, index).Some? ==> FirstAt(list, index).value.i == index
  {
    if list != [] { FirstAtHas(list[1..], index); }
  }

  lemma {:induction false} IndexOfHas(list: seq<Parameter>, name: string)
    ensures IndexOf(list, name).Some? ==> HasIndex(list, IndexOf(list, name).value)
  {
    if list != [] { IndexOfHas(list[1..], name); }
  }

  lemma ApplyGood(s: State, op: Op)
    requires Good(s) && Legal(op)
    ensures Good(Apply(s, op)) && Apply(s, op).nextIndex == Reach(s.nextIndex, Resolved(s, op))
    ensures 1 <= Resolved(s, op) < Apply(s, op).nextIndex
  {
    var t := Apply(s, op);
    match op
    case PushName(name) =>
      IndexOfHas(s.list, name);
      if IndexOf(s.list, name).None? {
        var u := State(s.nextIndex + 1, s.list);
        forall i: nat ensures HasIndex(t.list, i) ==> 1 <= i < t.nextIndex {
          AddNamedKeeps(u, name, s.nextIndex, i, name);
        }
        AddNamedKeeps(u, name, s.nextIndex, 0, name);
      }
    case PushIndex(index) =>
      forall i: nat ensures HasIndex(t.list, i) ==> 1 <= i < t.nextIndex {
        Pushed(s.list, Indexed(index), i, "");
      }
      Pushed(s.list, Indexed(index), 0, "");
    case PushNamedAt(name, index) =>
      forall i: nat ensures HasIndex(t.list, i) ==> 1 <= i < t.nextIndex {
        AddNamedKeeps(s, name, index, i, name);
      }
      AddNamedKeeps(s, name, index, 0, name);
  }

  lemma ApplyKeepsNames(s: State, op: Op, name: string, i: nat)
    requires Good(s) && Legal(op)
    ensures var t := Apply(s, op);
            && (IndexOf(s.list, name).Some? ==> IndexOf(t.list, name) == IndexOf(s.list, name))
            && (NamedAt(s.list, i) ==> FirstAt(t.list, i) == FirstAt(s.list, i))
  {
    match op
    case PushName(n) =>
      if IndexOf(s.list, n).None? {
        AddNamedKeeps(State(s.nextIndex + 1, s.list), n, s.nextIndex, i, name);
      }
    case PushIndex(index) => Pushed(s.list, Indexed(index), i, name);
    case PushNamedAt(n, index) => AddNamedKeeps(s, n, index, i, name);
  }

  lemma PushNameResolves(s: State, name: string)
    requires Good(s)
    ensures IndexOf(Apply(s, PushName(name)).list, name) == Some(Resolved(s, PushName(name)))
  {
    if IndexOf(s.list, name).None? {
      AddNamedKeeps(State(s.nextIndex + 1, s.list), name, s.nextIndex, 0, name);
    }
  }

  predicate AllLegal(ops: seq<Op>) { forall k :: 0 <= k < |ops| ==> Legal(ops[k]) }

  /** The largest index that any mention of the run resolved to. */
  function Largest(ops: seq<Op>): nat {
    if ops == [] then 0
    else
      var before := ops[..|ops| - 1];
      var index := Resolved(RunAll(before), ops[|ops| - 1]);
      if index > Largest(before) then index else Largest(before)
  }

  /** In every run the recorded indices are distinct and below `next_index`, and
      `count` is the largest index ever mentioned. */
  lemma {:induction false} EveryRunGood(ops: seq<Op>)
    requires AllLegal(ops)
    ensures Good(RunAll(ops)) && RunAll(ops).nextIndex - 1 == Largest(ops)
    decreases |ops|
  {
    if ops != [] {
      var before := ops[..|ops| - 1];
      EveryRunGood(before);
      hide Apply, Good, Resolved;
      GoodNext(RunAll(before));
      ApplyGood(RunAll(before), ops[|ops| - 1]);
    } else {
      assert !HasIndex([], 0);
    }
  }

  lemma GoodNext(s: State)
    requires Good(s)
    ensures s.nextIndex >= 1
  {
  }

  /** A mention is recorded, and what is recorded stays. */
  lemma ApplyRecords(s: State, op: Op, i: nat)
    requires Good(s) && Legal(op)
    ensures HasIndex(Apply(s, op).list, i) <==> HasIndex(s.list, i) || i == Resolved(s, op)
  {
    match op
    case PushName(name) =>
      IndexOfHas(s.list, name);
      if IndexOf(s.list, name).None? {
        AddNamedKeeps(State(s.nextIndex + 1, s.list), name, s.nextIndex, i, name);
      }
    case PushIndex(index) => Pushed(s.list, Indexed(index), i, "");
    case PushNamedAt(name, index) => AddNamedKeeps(s, name, index, i, name);
  }

  /** Some mention of the run resolved to the index. */
  predicate Mentioned(ops: seq<Op>, i: nat) {
    exists k :: 0 <= k < |ops| && Resolved(RunAll(ops[..k]), ops[k]) == i
  }

  lemma MentionedMore(ops: seq<Op>, i: nat)
    requires ops != []
    ensures var before, op := ops[..|ops| - 1], ops[|ops| - 1];
            Mentioned(ops, i) <==> Mentioned(before, i) || Resolved(RunAll(before), op) == i
  {
    hide RunAll, Resolved;
    var before := ops[..|ops| - 1];
    assert forall k :: 0 <= k < |before| ==> before[..k] == ops[..k] && before[k] == ops[k];
    if k :| 0 <= k < |before| && Resolved(RunAll(before[..k]), before[k]) == i {
      assert Resolved(RunAll(ops[..k]), ops[k]) == i;
    }
    if k :| 0 <= k < |ops| && Resolved(RunAll(ops[..k]), ops[k]) == i {
      assert k < |before| ==> Resolved(RunAll(before[..k]), before[k]) == i;
    }
  }

  /** After every run the list has an entry for each index that a mention resolved to, and no other. */
  lemma {:induction false} RecordedIffMentioned(ops: seq<Op>, i: nat)
    requires AllLegal(ops)
    ensures HasIndex(RunAll(ops).list, i) <==> Mentioned(ops, i)
    decreases |ops|
  {
    if ops != [] {
      var before := ops[..|ops| - 1];
      EveryRunGood(before);
      RecordedIffMentioned(before, i);
      MentionedMore(ops, i);
      hide Apply, Good, Resolved, Mentioned, Largest;
      ApplyRecords(RunAll(before), ops[|ops| - 1], i);
    }
  }

  /** A name that resolves to an index does so after any further mentions, and an
      index keeps the name it got first. */
  lemma {:induction false} NamesAreForever(ops: seq<Op>, more: seq<Op>, name: string, i: nat)
    requires AllLegal(ops + more)
    ensures var s, t := RunAll(ops), RunAll(ops + more);
            && (IndexOf(s.list, name).Some? ==> IndexOf(t.list, name) == IndexOf(s.list, name))
            && (NamedAt(s.list, i) ==> FirstAt(t.list, i) == FirstAt(s.list, i))
    decreases |more|
  {
    hide Apply, Good, IndexOf, FirstAt, Largest;
    var all := ops + more;
    if more == [] {
      assert all == ops;
    } else {
      var before := more[..|more| - 1];
      assert all[..|all| - 1] == ops + before;
      assert forall k :: 0 <= k < |ops + before| ==> (ops + before)[k] == all[k];
      NamesAreForever(ops, before, name, i);
      EveryRunGood(ops + before);
      ApplyKeepsNames(RunAll(ops + before), all[|all| - 1], name, i);
    }
  }

  lemma {:induction false} PushedLast(list: seq<Parameter>, p: Parameter)
    requires !HasIndex(list, p.i)
    ensures FirstAt(list + [p], p.i) == Some(p)
  {
    FirstAtHas(list, p.i);
    Pushed(list, p, p.i, "");
  }

  /** The first mention that names an index, `?N` ones before it or not, gives it its name for good. */
  lemma FirstNameStays(ops: seq<Op>, more: seq<Op>, name: string, index: nat)
    requires AllLegal(ops + [PushNamedAt(name, index)] + more) && !NamedAt(RunAll(ops).list, index)
    ensures FirstAt(RunAll(ops + [PushNamedAt(name, index)] + more).list, index) == Some(Named(name, index))
  {
    var first := ops + [PushNamedAt(name, index)];
    assert forall k :: 0 <= k < |first| ==> first[k] == (first + more)[k];
    assert forall k :: 0 <= k < |ops| ==> ops[k] == first[k];
    assert first[..|first| - 1] == ops;
    assert Legal(first[|ops|]);
    EveryRunGood(ops);
    var s := RunAll(ops);
    Removed(s.list, index, index, name);
    PushedLast(Without(s.list, index), Named(name, index));
    NamesAreForever(first, more, name, index);
  }

  /** A name that is new takes the index after the largest so far. */
  lemma NewNameIsNext(ops: seq<Op>, name: string)
    requires AllLegal(ops) && IndexOf(RunAll(ops).list, name).None?
    ensures Resolved(RunAll(ops), PushName(name)) == Largest(ops) + 1
    ensures FirstAt(RunAll(ops + [PushName(name)]).list, Largest(ops) + 1) == Some(Named(name, Largest(ops) + 1))
  {
    EveryRunGood(ops);
    var s, i := RunAll(ops), Largest(ops) + 1;
    var all := ops + [PushName(name)];
    assert all[..|all| - 1] == ops;
    assert s.nextIndex == i && !HasIndex(s.list, i);
    WithoutAbsent(s.list, i);
    FirstAtHas(s.list, i);
    PushedLast(s.list, Named(name, i));
  }

  /** Two mentions of one name in a statement are one parameter. */
  lemma SameNameSameIndex(ops: seq<Op>, between: seq<Op>, name: string)
    requires AllLegal(ops + [PushName(name)] + between)
    ensures Resolved(RunAll(ops + [PushName(name)] + between), PushName(name)) == Resolved(RunAll(ops), PushName(name))
  {
    var first := ops + [PushName(name)];
    assert forall k :: 0 <= k < |first| ==> first[k] == (first + between)[k];
    assert first[..|first| - 1] == ops;
    assert forall k :: 0 <= k < |ops| ==> ops[k] == first[k];
    EveryRunGood(ops);
    PushNameResolves(RunAll(ops), name);
    NamesAreForever(first, between, name, 0);
  }
}
