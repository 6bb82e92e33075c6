/** The audit ring: a fixed buffer written in a circle, compared with everything ever added to it. */
module Audit {

  datatype Entry = Entry(at: int, event: string, deviceID: string, deviceName: string, ok: bool, error: string,
                         requestID: string, detail: string)

  /** The last n entries of a history, newest first. */
  function Newest(history: seq<Entry>, n: nat): (r: seq<Entry>)
    requires n <= |history|
    ensures |r| == n
  {
    if n == 0 then [] else [history[|history| - 1]] + Newest(history[..|history| - 1], n - 1)
  }

  lemma {:induction false} NewestAt(history: seq<Entry>, n: nat, i: nat)
    requires i < n <= |history|
    ensures Newest(history, n)[i] == history[|history| - 1 - i]
  {
    if i > 0 { NewestAt(history[..|history| - 1], n - 1, i - 1); }
  }

  function Clamped(n: int): (r: nat)
    ensures 4 <= r <= 2000 && (4 <= n <= 2000 ==> r == n) && (n < 4 ==> r == 4) && (n > 2000 ==> r == 2000)
  {
    if n < 4 then 4 else if n > 2000 then 2000 else n
  }

  /** How many entries a listing shows. */
  function Shown(limit: int, size: nat): (n: nat)
    ensures n <= size
  {
    if limit <= 0 || limit > size then size else limit
  }

  function Stamped(e: Entry, now: int): Entry {
    if e.at == 0 then e.(at := now) else e
  }

  /** Slot of the entry that is i steps older than the newest. */
  function Back(next: nat, i: nat, cap: nat): (k: nat)
    requires next < cap && i < cap
    ensures k < cap
  {
    if i < next then next - 1 - i else next - 1 - i + cap
  }

  function After(next: nat, cap: nat): (k: nat)
    requires next < cap
    ensures k < cap
  {
    if next + 1 == cap then 0 else next + 1
  }

  lemma AfterIsRemainder(next: nat, cap: nat)
    requires next < cap
    ensures After(next, cap) == (next + 1) % cap
  {
  }

  lemma BackIsRemainder(next: nat, i: nat, cap: nat)
    requires next < cap && i < cap
    ensures Back(next, i, cap) == (next - 1 - i + cap * 2) % cap
  {
    RemainderIs(next - 1 - i + cap * 2, Back(next, i, cap), if i < next then 2 else 1, cap);
  }

  lemma RemainderIs(x: int, k: nat, q: nat, cap: nat)
    requires k < cap && x == k + q * cap && q <= 2
    ensures x % cap == k
  {
  }

  /** Moving on turns the newest slot into the one just written and shifts the others. */
  lemma BackShifts(next: nat, i: nat, cap: nat)
    requires next < cap && i < cap
    ensures Back(After(next, cap), i, cap) == if i == 0 then next else Back(next, i - 1, cap)
    ensures i > 0 ==> Back(next, i - 1, cap) != next
  {
  }

  class Ring {
    const buf: array<Entry>
    var next: nat
    var size: nat
    /** Everything ever added. */
    ghost var history: seq<Entry>

    ghost predicate Valid()
      reads this, buf
    {
      && 4 <= buf.Length <= 2000 && next < buf.Length
      && size == (if |history| < buf.Length then |history| else buf.Length)
      && (size < buf.Length ==> next == size)
      && forall i: nat :: i < size ==> buf[Back(next, i, buf.Length)] == history[|history| - 1 - i]
    }

    constructor (n: int, blank: Entry)
      ensures Valid() && fresh(buf) && history == [] && buf.Length == Clamped(n)
    {
      buf := new Entry[Clamped(n)](_ => blank);
      next, size := 0, 0;
      history := [];
    }

    method Add(e: Entry, now: int)
      requires Valid()
      modifies this, buf
      ensures Valid() && history == old(history) + [Stamped(e, now)]
      ensures history[|history| - 1] == e.(at := if e.at == 0 then now else e.at)
    {
      ghost var slot, kept := next, size;
      buf[next] := if e.at == 0 then e.(at := now) else e;
      AfterIsRemainder(next, buf.Length);
      next := (next + 1) % buf.Length;
      if size < buf.Length { size := size + 1; }
      history := history + [Stamped(e, now)];
      forall i: nat | i < size ensures buf[Back(next, i, buf.Length)] == history[|history| - 1 - i] {
        BackShifts(slot, i, buf.Length);
        if i > 0 { assert i - 1 < kept; }
      }
    }

    /** The newest entries of the whole history, newest first: as many as were asked for, added, and still kept. */
    method List(limit: int) returns (out: seq<Entry>)
      requires Valid()
      ensures out == Newest(history, Shown(limit, if |history| < buf.Length then |history| else buf.Length))
      ensures |out| <= |history| && |out| <= buf.Length && (limit > 0 ==> |out| <= limit)
      ensures |out| == |history| || |out| == buf.Length || |out| == limit
      ensures forall i :: 0 <= i < |out| ==> out[i] == history[|history| - 1 - i]
    {
      var n := if limit <= 0 || limit > size then size else limit;
      out := [];
      for i := 0 to n
        invariant |out| == i
        invariant forall j: nat :: j < i ==> out[j] == history[|history| - 1 - j]
      {
        BackIsRemainder(next, i, buf.Length);
        out := out + [buf[(next - 1 - i + buf.Length * 2) % buf.Length]];
      }
      forall j: nat | j < n ensures out[j] == Newest(history, n)[j] { NewestAt(history, n, j); }
    }
  }
}
