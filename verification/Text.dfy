/** The few string operations of Go's `strings` package that the model needs.
    Case folding covers ASCII letters; white space is Go's `unicode.IsSpace`. */
module Text {

  datatype Option<+T> = None | Some(value: T)

  predicate IsSpace(c: char) {
    || '\t' <= c <= '\r' || c == ' ' || c == '\U{85}' || c == '\U{A0}' || c == '\U{1680}'
    || '\U{2000}' <= c <= '\U{200A}' || c == '\U{2028}' || c == '\U{2029}' || c == '\U{202F}'
    || c == '\U{205F}' || c == '\U{3000}'
  }

  /** No white space at either end. */
  predicate Trimmed(s: string) {
    s == "" || (!IsSpace(s[0]) && !IsSpace(s[|s| - 1]))
  }

  function TrimLeft(s: string): (r: string)
    ensures |r| <= |s| && r == s[|s| - |r|..]
    ensures r == "" || !IsSpace(r[0])
    ensures s != "" && !IsSpace(s[0]) ==> r == s
  {
    if s != "" && IsSpace(s[0]) then TrimLeft(s[1..]) else s
  }

  function TrimRight(s: string): (r: string)
    ensures |r| <= |s| && r == s[..|r|]
    ensures r == "" || !IsSpace(r[|r| - 1])
    ensures s != "" && !IsSpace(s[|s| - 1]) ==> r == s
  {
    if s != "" && IsSpace(s[|s| - 1]) then TrimRight(s[..|s| - 1]) else s
  }

  /** strings.TrimSpace */
  function Trim(s: string): (r: string)
    ensures Trimmed(r)
    ensures Trimmed(s) ==> r == s
    ensures |r| <= |s|
  {
    TrimRight(TrimLeft(s))
  }

  /** Nothing but white space. */
  predicate Blank(s: string) {
    forall i :: 0 <= i < |s| ==> IsSpace(s[i])
  }

  lemma {:induction false} TrimLeftBlank(s: string)
    ensures TrimLeft(s) == "" <==> Blank(s)
    ensures TrimLeft(s) != "" ==> !Blank(TrimLeft(s))
    decreases |s|
  {
    if s != "" && IsSpace(s[0]) {
      TrimLeftBlank(s[1..]);
      assert forall i :: 0 < i < |s| ==> s[i] == s[1..][i - 1];
    }
  }

  lemma {:induction false} TrimRightBlank(s: string)
    ensures TrimRight(s) == "" <==> Blank(s)
    decreases |s|
  {
    if s != "" && IsSpace(s[|s| - 1]) {
      TrimRightBlank(s[..|s| - 1]);
      assert forall i :: 0 <= i < |s| - 1 ==> s[i] == s[..|s| - 1][i];
    }
  }

  lemma TrimBlank(s: string)
    ensures Trim(s) == "" <==> Blank(s)
  {
    TrimLeftBlank(s);
    TrimRightBlank(TrimLeft(s));
  }

  function LowerChar(c: char): (r: char)
    ensures IsSpace(c) <==> IsSpace(r)
    ensures !('A' <= r <= 'Z')
  {
    if 'A' <= c <= 'Z' then (c as int + 32) as char else c
  }

  predicate IsLower(s: string) {
    forall i :: 0 <= i < |s| ==> !('A' <= s[i] <= 'Z')
  }

  /** strings.ToLower */
  function Lower(s: string): (r: string)
    ensures |r| == |s| && IsLower(r)
    ensures s != "" ==> r[0] == LowerChar(s[0]) && r[|s| - 1] == LowerChar(s[|s| - 1])
    ensures IsLower(s) ==> r == s
  {
    if s == "" then "" else [LowerChar(s[0])] + Lower(s[1..])
  }

  lemma LowerKeepsTrimmed(s: string)
    requires Trimmed(s)
    ensures Trimmed(Lower(s))
  {
  }

  /** strings.ToLower(strings.TrimSpace(s)) */
  function Canonical(s: string): (r: string)
    ensures IsCanonical(r)
    ensures IsCanonical(s) ==> r == s
  {
    LowerKeepsTrimmed(Trim(s));
    Lower(Trim(s))
  }

  predicate IsCanonical(s: string) {
    Trimmed(s) && IsLower(s)
  }

  /** strings.EqualFold */
  predicate EqualFold(a: string, b: string) {
    Lower(a) == Lower(b)
  }

  predicate HasPrefix(s: string, p: string) {
    |p| <= |s| && s[..|p|] == p
  }

  predicate HasSuffix(s: string, p: string) {
    |p| <= |s| && s[|s| - |p|..] == p
  }

  predicate OccursAt(s: string, p: string, i: nat) {
    i + |p| <= |s| && s[i..i + |p|] == p
  }

  predicate Contains(s: string, p: string) {
    exists i :: 0 <= i <= |s| && OccursAt(s, p, i)
  }

  /** Removes every character of `drop`, as strings.ReplaceAll(s, c, "") does for one after the other. */
  function Without(s: string, drop: string): string {
    if s == "" then ""
    else if s[0] in drop then Without(s[1..], drop)
    else [s[0]] + Without(s[1..], drop)
  }

  lemma {:induction false} WithoutNone(s: string, drop: string)
    requires forall i :: 0 <= i < |s| ==> s[i] !in drop
    ensures Without(s, drop) == s
  {
    if s != "" { WithoutNone(s[1..], drop); }
  }

  // -- what these operations are --

  lemma {:induction false} TrimLeftIs(s: string)
    ensures Blank(s[..|s| - |TrimLeft(s)|])
    decreases |s|
  {
    if s != "" && IsSpace(s[0]) {
      TrimLeftIs(s[1..]);
      var k := |s| - |TrimLeft(s)|;
      assert forall i :: 0 < i < k ==> s[..k][i] == s[1..][..k - 1][i - 1];
    }
  }

  lemma {:induction false} TrimRightIs(s: string)
    ensures Blank(s[|TrimRight(s)|..])
    decreases |s|
  {
    if s != "" && IsSpace(s[|s| - 1]) {
      var n := |s| - 1;
      TrimRightIs(s[..n]);
      var k := |TrimRight(s)|;
      assert forall i :: 0 <= i < n - k ==> s[k..][i] == s[..n][k..][i];
    }
  }

  /** Trimming takes white space off both ends and nothing else: what is left has none at its ends. */
  lemma TrimIs(s: string)
    ensures exists a, b :: s == a + Trim(s) + b && Blank(a) && Blank(b)
    ensures Trimmed(Trim(s))
  {
    var left := TrimLeft(s);
    TrimLeftIs(s);
    TrimRightIs(left);
    Parts(s, left, Trim(s));
  }

  lemma Parts(s: string, left: string, r: string)
    requires |left| <= |s| && left == s[|s| - |left|..] && |r| <= |left| && r == left[..|r|]
    requires Blank(s[..|s| - |left|]) && Blank(left[|r|..])
    ensures exists a, b :: s == a + r + b && Blank(a) && Blank(b)
  {
    hide Blank;
    var a, b := s[..|s| - |left|], left[|r|..];
    assert s == a + r + b;
  }

  /** Lower case, character by character. */
  lemma {:induction false} LowerAt(s: string, i: nat)
    requires i < |s|
    ensures Lower(s)[i] == if 'A' <= s[i] <= 'Z' then (s[i] as int + 32) as char else s[i]
  {
    if i > 0 { LowerAt(s[1..], i - 1); }
  }

  /** What is removed, and that the rest keeps its order. */
  lemma {:induction false} WithoutIs(a: string, b: string, c: char, drop: string)
    ensures Without(a + b, drop) == Without(a, drop) + Without(b, drop)
    ensures Without([c], drop) == if c in drop then "" else [c]
    ensures forall i :: 0 <= i < |Without(a, drop)| ==> Without(a, drop)[i] !in drop
    decreases |a|
  {
    assert [c][1..] == "";
    if a == "" {
      assert a + b == b;
    } else {
      assert (a + b)[1..] == a[1..] + b;
      WithoutIs(a[1..], b, c, drop);
    }
  }

  /** Occurrence in lower case is occurrence in any mix of cases. */
  lemma FoldedOccurrence(s: string, p: string)
    requires IsLower(p)
    ensures Contains(Lower(s), p) <==> exists i: nat :: FoldsAt(s, p, i)
  {
    hide Lower, OccursAt, FoldsAt;
    if Contains(Lower(s), p) {
      var i :| 0 <= i <= |s| && OccursAt(Lower(s), p, i);
      FitsAt(s, p, i);
      OccursFolded(s, p, i);
    }
    if i: nat :| FoldsAt(s, p, i) {
      FitsAt(s, p, i);
      OccursFolded(s, p, i);
    }
  }

  predicate FoldsAt(s: string, p: string, i: nat) {
    i + |p| <= |s| && EqualFold(s[i..i + |p|], p)
  }

  lemma OccursFolded(s: string, p: string, i: nat)
    requires IsLower(p) && i + |p| <= |s|
    ensures OccursAt(Lower(s), p, i) <==> FoldsAt(s, p, i)
  {
    hide Lower, IsLower, IsSpace, LowerChar, OccursAt, FoldsAt, EqualFold;
    LowerIsItself(p);
    LowerSlice(s, i, i + |p|);
    OccursThere(Lower(s), p, i);
    FoldsThere(s, p, i);
  }

  lemma FoldsThere(s: string, p: string, i: nat)
    requires i + |p| <= |s|
    ensures FoldsAt(s, p, i) <==> Lower(s[i..i + |p|]) == Lower(p)
  {
  }

  lemma FitsAt(s: string, p: string, i: nat)
    ensures OccursAt(Lower(s), p, i) || FoldsAt(s, p, i) ==> i + |p| <= |s|
  {
  }

  lemma OccursThere(s: string, p: string, i: nat)
    requires i + |p| <= |s|
    ensures OccursAt(s, p, i) <==> s[i..i + |p|] == p
  {
  }

  lemma LowerIsItself(p: string)
    requires IsLower(p)
    ensures Lower(p) == p
  {
  }

  lemma {:induction false} LowerConcat(a: string, b: string)
    ensures Lower(a + b) == Lower(a) + Lower(b)
    decreases |a|
  {
    if a == "" {
      assert a + b == b;
    } else {
      assert (a + b)[1..] == a[1..] + b;
      LowerConcat(a[1..], b);
    }
  }

  lemma MiddleOf(a: string, b: string, c: string)
    ensures (a + b + c)[|a|..|a| + |b|] == b
  {
  }

  lemma LowerSlice(s: string, i: nat, j: nat)
    requires i <= j <= |s|
    ensures Lower(s[i..j]) == Lower(s)[i..j]
  {
    hide Lower, IsLower, IsSpace;
    LowerConcat(s[..i] + s[i..j], s[j..]);
    LowerConcat(s[..i], s[i..j]);
    MiddleOf(Lower(s[..i]), Lower(s[i..j]), Lower(s[j..]));
    Rejoined(s, i, j);
  }

  lemma Rejoined(s: string, i: nat, j: nat)
    requires i <= j <= |s|
    ensures s[..i] + s[i..j] + s[j..] == s
  {
  }
}
