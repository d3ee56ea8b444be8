/** Types shared by the modules of this project. */
module Common {

  datatype Option<+T> = None | Some(value: T)

  datatype Result<+T, +E> = Ok(value: T) | Err(error: E) {
    predicate IsFailure() { Err? }

    function PropagateFailure<U>(): Result<U, E>
      requires Err?
    {
      Err(error)
    }

    function Extract(): T
      requires Ok?
    {
      value
    }
  }

  newtype Byte = n: int | 0 <= n < 256

  type Bytes = seq<Byte>

  // ---------- Searching a text ----------

  /** The first position of a character, or the length of the text. */
  function Find(s: string, c: char): (p: nat)
    ensures p <= |s| && c !in s[..p] && (p < |s| ==> s[p] == c)
  {
    if s == "" then 0 else if s[0] == c then 0
    else
      var p := 1 + Find(s[1..], c);
      assert s[..p] == [s[0]] + s[1..][..p - 1];
      p
  }

  lemma {:induction false} FindFirst(a: string, c: char, b: string)
    requires c !in a
    ensures Find(a + [c] + b, c) == |a|
  {
    if a != "" {
      assert (a + [c] + b)[1..] == a[1..] + [c] + b;
      FindFirst(a[1..], c, b);
    }
  }

  lemma {:induction false} FindNone(a: string, c: char)
    requires c !in a
    ensures Find(a, c) == |a|
  {
    if a != "" { FindNone(a[1..], c); }
  }

  // ---------- UTF-8, as `str::from_utf8` accepts it (The Unicode Standard, table 3-7) ----------

  predicate Continuation(b: Byte) { 0x80 <= b <= 0xBF }

  /** Length of the well-formed sequence that s begins with, or 0. */
  function LeadLength(s: Bytes): (n: nat)
    ensures n <= |s|
  {
    if |s| == 0 then 0
    else if s[0] <= 0x7F then 1
    else if |s| < 2 then 0
    else if 0xC2 <= s[0] <= 0xDF then (if Continuation(s[1]) then 2 else 0)
    else if |s| < 3 then 0
    else if 0xE0 <= s[0] <= 0xEF then
      var second := if s[0] == 0xE0 then 0xA0 <= s[1] <= 0xBF else if s[0] == 0xED then 0x80 <= s[1] <= 0x9F
                    else Continuation(s[1]);
      if second && Continuation(s[2]) then 3 else 0
    else if |s| < 4 then 0
    else if 0xF0 <= s[0] <= 0xF4 then
      var second := if s[0] == 0xF0 then 0x90 <= s[1] <= 0xBF else if s[0] == 0xF4 then 0x80 <= s[1] <= 0x8F
                    else Continuation(s[1]);
      if second && Continuation(s[2]) && Continuation(s[3]) then 4 else 0
    else 0
  }

  predicate IsUtf8(s: Bytes)
    decreases |s|
  {
    s == [] || (LeadLength(s) > 0 && IsUtf8(s[LeadLength(s)..]))
  }

  lemma {:induction false} Utf8HasNoFF(s: Bytes, i: nat)
    requires IsUtf8(s) && i < |s|
    ensures s[i] != 0xFF
    decreases |s|
  {
    var n := LeadLength(s);
    if i >= n {
      Utf8HasNoFF(s[n..], i - n);
    }
  }
}
