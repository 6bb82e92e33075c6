/** Go slices: a window of a backing array that several headers may share. All windows here start at index 0. */
module Slices {
  import opened Config

  datatype Slice<T> = Slice(arr: array<T>, len: nat) {
    ghost predicate Valid() {
      len <= arr.Length
    }

    ghost function Elems(): seq<T>
      requires Valid()
      reads arr
    {
      arr[..len]
    }
  }

  method Empty<T>() returns (s: Slice<T>)
    ensures s.Valid() && fresh(s.arr) && s.Elems() == []
  {
    var arr := new T[0];
    s := Slice(arr, 0);
  }

  /** append(s, x): in place while the backing array has room, otherwise into a new array. */
  method Append<T>(s: Slice<T>, x: T) returns (t: Slice<T>)
    requires s.Valid()
    modifies if s.len < s.arr.Length then {s.arr} else {}
    ensures t.Valid() && t.Elems() == old(s.Elems()) + [x]
    ensures if s.len < s.arr.Length then t.arr == s.arr && t.len == s.len + 1 else fresh(t.arr)
    ensures forall i :: 0 <= i < s.arr.Length && i != s.len ==> s.arr[i] == old(s.arr[i])
  {
    if s.len < s.arr.Length {
      s.arr[s.len] := x;
      t := Slice(s.arr, s.len + 1);
    } else {
      var arr := new T[2 * s.len + 1](_ => x);
      forall i | 0 <= i < s.len {
        arr[i] := s.arr[i];
      }
      t := Slice(arr, s.len + 1);
    }
    assert t.Elems()[..s.len] == old(s.Elems());
  }

  /** append([]T(nil), s...): a copy with its own backing array. */
  method Clone<T>(s: Slice<T>) returns (t: Slice<T>)
    requires s.Valid()
    ensures t.Valid() && fresh(t.arr) && t.Elems() == s.Elems()
  {
    var arr := new T[s.len](i requires 0 <= i < s.len && s.Valid() reads s.arr => s.arr[i]);
    t := Slice(arr, s.len);
  }

  /** The compaction loop `out := s[:0]; for x in s { if keep(x) { out = append(out, x) } }`: it overwrites the front of
      the array it is reading. When nothing is dropped it has written every element onto itself. */
  method Compact<T>(s: Slice<T>, keep: T -> bool) returns (out: Slice<T>, dropped: bool)
    requires s.Valid()
    modifies s.arr
    ensures out.arr == s.arr && out.Valid()
    ensures out.Elems() == Filter(old(s.Elems()), keep)
    ensures dropped <==> out.len < s.len
    ensures forall i :: out.len <= i < s.arr.Length ==> s.arr[i] == old(s.arr[i])
    ensures !dropped ==> out == s && forall i :: 0 <= i < s.arr.Length ==> s.arr[i] == old(s.arr[i])
  {
    ghost var was := s.Elems();
    assert Filter(was[..0], keep) == [];
    hide Filter;
    out, dropped := Slice(s.arr, 0), false;
    for i := 0 to s.len
      invariant out.arr == s.arr && out.len <= i
      invariant out.Elems() == Filter(was[..i], keep)
      invariant forall j :: out.len <= j < s.arr.Length ==> s.arr[j] == old(s.arr[j])
      invariant dropped <==> out.len < i
    {
      var x := s.arr[i];
      assert x == was[i];
      FilterNext(was, i, keep);
      if keep(x) {
        out := Append(out, x);
      } else {
        dropped := true;
      }
    }
    assert was[..s.len] == was;
    if !dropped {
      FilterFull(was, keep);
      assert forall i :: 0 <= i < s.len ==> s.arr[i] == out.Elems()[i];
    }
  }

  // -- two headers on one backing array --

  /** Nothing that is kept stands after something that is dropped. */
  ghost predicate OnlyTrailing<T>(s: seq<T>, keep: T -> bool) {
    forall i, j :: 0 <= i < j < |s| && !keep(s[i]) ==> !keep(s[j])
  }

  /** What one header reads after its array was compacted through another. */
  function SeenAfter<T>(s: seq<T>, keep: T -> bool): (r: seq<T>)
    ensures |r| == |s|
  {
    var kept := Filter(s, keep);
    kept + s[|kept|..]
  }

  lemma {:induction false} KeptCount<T>(s: seq<T>, keep: T -> bool, p: nat)
    requires p <= |s| && forall i :: 0 <= i < p ==> keep(s[i])
    ensures |Filter(s, keep)| >= p
    ensures forall j :: p <= j < |s| && keep(s[j]) ==> |Filter(s, keep)| > p
  {
    if s != [] {
      var n := |s| - 1;
      KeptCount(s[..n], keep, if p <= n then p else n);
      assert forall j :: p <= j < n ==> s[..n][j] == s[j];
    }
  }

  lemma {:induction false} FilterOfTrailing<T>(s: seq<T>, keep: T -> bool)
    requires OnlyTrailing(s, keep)
    ensures Filter(s, keep) == s[..|Filter(s, keep)|]
  {
    if s != [] {
      var n := |s| - 1;
      var front, kept := s[..n], Filter(s[..n], keep);
      assert forall i :: 0 <= i < n ==> front[i] == s[i];
      FilterOfTrailing(front, keep);
      assert front[..|kept|] == s[..|kept|];
      if keep(s[n]) {
        KeptCount(front, keep, n);
        FilterFull(front, keep);
        assert Filter(s, keep) == front + [s[n]] == s;
      }
    }
  }

  /** The other header reads what it read before exactly when everything dropped stood at the end. */
  lemma SeenSameIff<T>(s: seq<T>, keep: T -> bool)
    ensures SeenAfter(s, keep) == s <==> OnlyTrailing(s, keep)
  {
    var kept := Filter(s, keep);
    if OnlyTrailing(s, keep) {
      FilterOfTrailing(s, keep);
      assert s == s[..|kept|] + s[|kept|..];
    }
    if SeenAfter(s, keep) == s {
      assert kept == SeenAfter(s, keep)[..|kept|];
      FilterMembers(s, keep);
      forall i | 0 <= i < |kept| ensures keep(s[i]) { assert kept[i] in kept; }
      KeptCount(s, keep, |kept|);
    }
  }

  lemma SeenIs<T>(was: seq<T>, keep: T -> bool, now: seq<T>, k: nat)
    requires |now| == |was| && k <= |was| && now[..k] == Filter(was, keep) && forall i :: k <= i < |was| ==> now[i] == was[i]
    ensures now == SeenAfter(was, keep)
  {
    hide Filter;
    assert now[k..] == was[k..] && now == now[..k] + now[k..];
  }

  /** Compacting through one header, seen through another one of the same length: it reads the compacted elements and
      then the old end, hence the same as before exactly when everything dropped stood at the end. */
  method CompactBeside<T>(one: Slice<T>, other: Slice<T>, keep: T -> bool) returns (out: Slice<T>)
    requires one.Valid() && other == one
    modifies one.arr
    ensures out.Valid() && out.Elems() == Filter(old(one.Elems()), keep) && other.Valid()
    ensures other.Elems() == SeenAfter(old(other.Elems()), keep)
    ensures other.Elems() == old(other.Elems()) <==> OnlyTrailing(old(other.Elems()), keep)
  {
    hide Filter, OnlyTrailing, SeenAfter;
    ghost var was := one.Elems();
    SeenSameIff(was, keep);
    var dropped;
    out, dropped := Compact(one, keep);
    SeenIs(was, keep, other.Elems(), out.len);
  }

  // -- compacting through both --

  lemma {:induction false} FilterConcat<T>(a: seq<T>, b: seq<T>, keep: T -> bool)
    ensures Filter(a + b, keep) == Filter(a, keep) + Filter(b, keep)
    decreases |b|
  {
    if b == [] {
      assert a + b == a && Filter(a, keep) + [] == Filter(a, keep);
    } else {
      var n := |b| - 1;
      assert (a + b)[..|a| + n] == a + b[..n];
      FilterConcat(a, b[..n], keep);
    }
  }

  /** A front and what follows it, filtered. */
  lemma FilterCut<T>(w: seq<T>, i: nat, j: nat, keep: T -> bool)
    requires i <= j <= |w|
    ensures Filter(w[..j], keep) == Filter(w[..i], keep) + Filter(w[i..j], keep)
  {
    assert w[..j] == w[..i] + w[i..j];
    FilterConcat(w[..i], w[i..j], keep);
  }

  lemma FilterTwice<T>(s: seq<T>, keep: T -> bool)
    ensures Filter(Filter(s, keep), keep) == Filter(s, keep)
  {
    FilterMembers(s, keep);
    FilterMembers(Filter(s, keep), keep);
  }

  /** The array after compacting its first m elements. */
  function Compacted<T>(w: seq<T>, m: nat, keep: T -> bool): (r: seq<T>)
    requires m <= |w|
    ensures |r| == |w|
  {
    var kept := Filter(w[..m], keep);
    kept + w[|kept|..]
  }

  /** What the second of two compactions keeps. */
  function SecondKept<T>(w: seq<T>, m: nat, n: nat, keep: T -> bool): seq<T>
    requires m <= |w| && n <= |w|
  {
    Filter(Compacted(w, m, keep)[..n], keep)
  }

  /** The first compaction's result followed by what the second one finds behind it. */
  lemma SecondKeptIs<T>(w: seq<T>, m: nat, n: nat, keep: T -> bool)
    requires m <= |w| && n <= |w|
    ensures var kept := Filter(w[..m], keep);
            SecondKept(w, m, n, keep) == if n <= |kept| then kept[..n] else kept + Filter(w[|kept|..n], keep)
  {
    hide Filter;
    var kept, v := Filter(w[..m], keep), Compacted(w, m, keep);
    if n <= |kept| {
      assert v[..n] == kept[..n];
      FilterMembers(w[..m], keep);
      FilterMembers(kept[..n], keep);
    } else {
      assert v[..n] == kept + w[|kept|..n];
      FilterConcat(kept, w[|kept|..n], keep);
      FilterTwice(w[..m], keep);
    }
  }

  /** Nothing is kept from position i on, everything before. */
  lemma TrailingFrom<T>(w: seq<T>, m: nat, keep: T -> bool)
    requires m <= |w| && var i := |Filter(w[..m], keep)|; Filter(w[i..m], keep) == []
    ensures OnlyTrailing(w[..m], keep)
  {
    hide Filter;
    var i := |Filter(w[..m], keep)|;
    FilterCut(w, i, m, keep);
    FilterMembers(w[..i], keep);
    FilterMembers(w[i..m], keep);
    forall k | i <= k < m ensures !keep(w[k]) { assert w[k] == w[i..m][k - i] && w[i..m][k - i] in w[i..m]; }
    forall j | 0 <= j < i ensures keep(w[j]) { assert w[j] == w[..i][j] && w[..i][j] in w[..i]; }
  }

  /** The second compaction keeps the right elements exactly when everything the first one dropped stood at its end, or,
      if it looks at no more than the first one kept, when it has nothing to drop itself. */
  lemma SecondRightIff<T>(w: seq<T>, m: nat, n: nat, keep: T -> bool)
    requires m <= |w| && n <= |w|
    ensures SecondKept(w, m, n, keep) == Filter(w[..n], keep)
            <==> if n <= |Filter(w[..m], keep)| then forall x | x in w[..n] :: keep(x) else OnlyTrailing(w[..m], keep)
  {
    hide Filter, SecondKept, OnlyTrailing;
    var kept := Filter(w[..m], keep);
    SecondKeptIs(w, m, n, keep);
    if n <= |kept| {
      FilterMembers(w[..n], keep);
      FilterCut(w, n, m, keep);
    } else {
      if OnlyTrailing(w[..m], keep) {
        FilterOfTrailing(w[..m], keep);
        assert kept == w[..|kept|];
        FilterCut(w, |kept|, n, keep);
        FilterTwice(w[..m], keep);
      }
      if SecondKept(w, m, n, keep) == Filter(w[..n], keep) {
        NothingBehind(w, m, n, keep);
        TrailingFrom(w, m, keep);
      }
    }
  }

  lemma NothingBehind<T>(w: seq<T>, m: nat, n: nat, keep: T -> bool)
    requires m <= |w| && n <= |w| && |Filter(w[..m], keep)| < n
    requires var kept := Filter(w[..m], keep); kept + Filter(w[|kept|..n], keep) == Filter(w[..n], keep)
    ensures Filter(w[|Filter(w[..m], keep)|..m], keep) == []
  {
    hide Filter;
    var kept := Filter(w[..m], keep);
    var k := |kept|;
    if n <= m {
      FilterCut(w, n, m, keep);
      assert w[k..m] == w[k..n] + w[n..m];
      FilterConcat(w[k..n], w[n..m], keep);
    } else {
      FilterCut(w, m, n, keep);
      assert w[k..n] == w[k..m] + w[m..n];
      FilterConcat(w[k..m], w[m..n], keep);
    }
  }

  /** The first header still reads what it kept. */
  lemma FirstStays<T>(w: seq<T>, m: nat, n: nat, keep: T -> bool)
    requires m <= |w| && n <= |w|
    ensures var v := Compacted(w, m, keep);
            Compacted(v, n, keep)[..|Filter(w[..m], keep)|] == Filter(w[..m], keep)
  {
    hide Filter;
    SecondKeptIs(w, m, n, keep);
    var kept, second := Filter(w[..m], keep), SecondKept(w, m, n, keep);
    var v := Compacted(w, m, keep);
    assert Compacted(v, n, keep) == second + v[|second|..];
  }

  /** One element dropped from two lists that share an array, as a delete does with two groups that were given the same
      slice: the first list comes out right, the second one exactly under the condition above. */
  method CompactTwice<T>(one: Slice<T>, other: Slice<T>, keep: T -> bool) returns (first: Slice<T>, second: Slice<T>)
    requires one.Valid() && other.Valid() && other.arr == one.arr
    modifies one.arr
    ensures first.Valid() && first.Elems() == Filter(old(one.Elems()), keep)
    ensures second.Valid() && second.Elems() == SecondKept(old(one.arr[..]), one.len, other.len, keep)
    ensures second.Elems() == Filter(old(other.Elems()), keep)
            <==> if other.len <= first.len then forall x | x in old(other.Elems()) :: keep(x) else OnlyTrailing(old(one.Elems()), keep)
  {
    hide Filter, OnlyTrailing;
    ghost var w := one.arr[..];
    SecondRightIff(w, one.len, other.len, keep);
    FirstStays(w, one.len, other.len, keep);
    var dropped;
    first, dropped := Compact(one, keep);
    assert first.Elems() == Filter(w[..one.len], keep);
    ghost var v := one.arr[..];
    assert v == Compacted(w, one.len, keep) by { assert v[first.len..] == w[first.len..] && v == v[..first.len] + v[first.len..]; }
    second, dropped := Compact(other, keep);
    ghost var u := one.arr[..];
    assert u == Compacted(v, other.len, keep) by { assert u[second.len..] == v[second.len..] && u == u[..second.len] + u[second.len..]; }
    assert first.Elems() == u[..first.len];
  }
}
