/** Release versions: reading them and telling which is newer. */
module Version {
  import opened Text
  import opened RequestId

  datatype Triple = Triple(major: nat, minor: nat, patch: nat)

  predicate IsDigit(c: char) { '0' <= c <= '9' }

  /** The number that the leading digits of s continue. */
  function LeadingFrom(s: string, acc: nat): nat {
    if s == "" || !IsDigit(s[0]) then acc else LeadingFrom(s[1..], acc * 10 + (s[0] as int - '0' as int))
  }

  function Leading(s: string): nat { LeadingFrom(s, 0) }

  /** Position of the first dot; |s| when there is none. */
  function Dot(s: string): (i: nat)
    ensures i <= |s| && (i < |s| ==> s[i] == '.') && forall j :: 0 <= j < i ==> s[j] != '.'
  {
    if s == "" || s[0] == '.' then 0 else 1 + Dot(s[1..])
  }

  /** strings.SplitN(s, ".", n): the last part keeps the remaining dots. */
  function SplitN(s: string, n: nat): (r: seq<string>)
    requires n > 0
    ensures 1 <= |r| <= n
  {
    if n == 1 || Dot(s) == |s| then [s] else [s[..Dot(s)]] + SplitN(s[Dot(s) + 1..], n - 1)
  }

  function Component(parts: seq<string>, i: nat): nat {
    if i < |parts| then Leading(parts[i]) else 0
  }

  function Parsed(s: string): Triple {
    var parts := SplitN(s, 3);
    Triple(Component(parts, 0), Component(parts, 1), Component(parts, 2))
  }

  method SplitVer(s: string) returns (out: array<nat>)
    ensures fresh(out) && out.Length == 3 && Triple(out[0], out[1], out[2]) == Parsed(s)
  {
    out := new nat[3](_ => 0);
    var parts := SplitN(s, 3);
    var i := 0;
    while i < |parts| && i < 3
      invariant 0 <= i <= |parts|
      invariant forall j :: 0 <= j < 3 ==> out[j] == if j < i then Leading(parts[j]) else 0
    {
      var n: nat := 0;
      var k := 0;
      while k < |parts[i]| && IsDigit(parts[i][k])
        invariant 0 <= k <= |parts[i]|
        invariant LeadingFrom(parts[i][k..], n) == Leading(parts[i])
      {
        n := n * 10 + (parts[i][k] as int - '0' as int);
        k := k + 1;
      }
      out[i] := n;
      i := i + 1;
    }
  }

  /** A version without white space around it and without one leading "v". */
  function Stripped(s: string): string {
    var t := Trim(s);
    if t != "" && t[0] == 'v' then t[1..] else t
  }

  /** A build without a version. */
  predicate Marker(s: string) {
    s == "" || s == "dev" || s == "unknown"
  }

  predicate Above(a: Triple, b: Triple) {
    a.major > b.major || (a.major == b.major && (a.minor > b.minor || (a.minor == b.minor && a.patch > b.patch)))
  }

  /** isNewerVersion as a relation. */
  predicate Newer(latest: string, current: string) {
    var l, c := Stripped(latest), Stripped(current);
    if Marker(c) then l != "" && l != c else Above(Parsed(l), Parsed(c))
  }

  method IsNewerVersion(latest: string, current: string) returns (newer: bool)
    ensures newer <==> Newer(latest, current)
  {
    hide Parsed, SplitN, Trim, Stripped;
    var l, c := Stripped(latest), Stripped(current);
    if Marker(c) { return l != "" && l != c; }
    if l == c { return false; }
    var lp := SplitVer(l);
    var cp := SplitVer(c);
    for i := 0 to 3
      invariant forall j :: 0 <= j < i ==> lp[j] == cp[j]
    {
      if lp[i] > cp[i] { return true; }
      if lp[i] < cp[i] { return false; }
    }
    return false;
  }

  // -- reading what was printed --

  function Printed(v: Triple): string {
    Decimal(v.major) + "." + Decimal(v.minor) + "." + Decimal(v.patch)
  }

  /** Reading starts over where the digits of a number end. */
  lemma LeadingOfDecimal(n: nat, rest: string)
    requires rest == "" || !IsDigit(rest[0])
    ensures Leading(Decimal(n) + rest) == n
  {
    ReadDecimal(n, rest);
    EndsThere(rest, n);
  }

  lemma EndsThere(rest: string, n: nat)
    requires rest == "" || !IsDigit(rest[0])
    ensures LeadingFrom(rest, n) == n
  {
  }

  lemma {:induction false} ReadDecimal(n: nat, rest: string)
    ensures Leading(Decimal(n) + rest) == LeadingFrom(rest, n)
  {
    if n < 10 {
      assert (Decimal(n) + rest)[1..] == rest;
    } else {
      var last := [Digit(n % 10)];
      assert Decimal(n) + rest == Decimal(n / 10) + (last + rest);
      ReadDecimal(n / 10, last + rest);
      assert (last + rest)[1..] == rest;
    }
  }

  lemma {:induction false} DotAfter(part: string, rest: string)
    requires forall i :: 0 <= i < |part| ==> part[i] != '.'
    ensures Dot(part + "." + rest) == |part| && Dot(part) == |part|
  {
    if part == "" {
      assert (part + "." + rest)[0] == '.';
    } else {
      DotAfter(part[1..], rest);
      assert (part + "." + rest)[1..] == part[1..] + "." + rest;
    }
  }

  lemma SplitPrinted(a: string, b: string, c: string)
    requires forall i :: 0 <= i < |a| ==> a[i] != '.'
    requires forall i :: 0 <= i < |b| ==> b[i] != '.'
    ensures SplitN(a + "." + b + "." + c, 3) == [a, b, c]
  {
    var tail := b + "." + c;
    var s := a + "." + b + "." + c;
    assert s == a + "." + tail;
    DotAfter(a, tail);
    DotAfter(b, c);
    assert s[..|a|] == a && s[|a| + 1..] == tail && tail[..|b|] == b && tail[|b| + 1..] == c;
    assert SplitN(c, 1) == [c];
    assert SplitN(tail, 2) == [b] + SplitN(c, 1);
  }

  /** Reading undoes printing for every triple, whatever follows the last number. */
  lemma ParsedPrinted(v: Triple, suffix: string)
    requires suffix == "" || !IsDigit(suffix[0])
    ensures Parsed(Printed(v) + suffix) == v
  {
    var a, b, c := Decimal(v.major), Decimal(v.minor), Decimal(v.patch) + suffix;
    assert Printed(v) + suffix == a + "." + b + "." + c;
    SplitPrinted(a, b, c);
    LeadingOfDecimal(v.major, "");
    LeadingOfDecimal(v.minor, "");
    LeadingOfDecimal(v.patch, suffix);
    assert a + "" == a && b + "" == b;
  }

  // -- the order --

  /** Newer is a strict order on all strings but for the markers: it is irreflexive; it is transitive unless the two
      ends are the same build, which takes both markers in a row; real versions are ordered by their numbers, and
      incomparable exactly when these are equal. */
  lemma NewerIsOrder(a: string, b: string, c: string)
    ensures !Newer(a, a)
    ensures Newer(a, b) && Newer(b, c) ==> (Newer(a, c) <==> Stripped(a) != Stripped(c))
    ensures Newer(a, b) && Newer(b, c) && Stripped(a) == Stripped(c) ==> Marker(Stripped(a)) && Marker(Stripped(b))
    ensures !Marker(Stripped(a)) && !Marker(Stripped(b)) ==>
              (Newer(a, b) || Newer(b, a) <==> Parsed(Stripped(a)) != Parsed(Stripped(b)))
  {
    hide Parsed, SplitN, Trim, Stripped;
    MarkersReadAsZero();
  }

  /** Two builds are each newer than the other exactly when one is "dev" and the other "unknown". */
  lemma MutuallyNewer(a: string, b: string)
    ensures Newer(a, b) && Newer(b, a) <==> {Stripped(a), Stripped(b)} == {"dev", "unknown"}
  {
    hide Parsed, SplitN, Leading, LeadingFrom, Trim, Stripped, Dot;
    MarkersReadAsZero();
  }

  lemma MarkersReadAsZero()
    ensures Parsed("") == Triple(0, 0, 0) && Parsed("dev") == Triple(0, 0, 0) && Parsed("unknown") == Triple(0, 0, 0)
  {
  }

  // -- the order on printed versions --

  lemma {:induction false} DecimalDigits(n: nat)
    ensures Decimal(n) != "" && forall i :: 0 <= i < |Decimal(n)| ==> IsDigit(Decimal(n)[i])
  {
    if n >= 10 { DecimalDigits(n / 10); }
  }

  lemma PrintedEnds(v: Triple)
    ensures var s := Printed(v); s != "" && IsDigit(s[0]) && IsDigit(s[|s| - 1])
  {
    DecimalDigits(v.major);
    DecimalDigits(v.patch);
  }

  /** A printed version, with or without a "v" in front. */
  predicate Shows(s: string, v: Triple) {
    s == Printed(v) || s == "v" + Printed(v)
  }

  lemma ShownIsStripped(s: string, v: Triple)
    requires Shows(s, v)
    ensures Stripped(s) == Printed(v)
  {
    hide Printed, Trim;
    PrintedEnds(v);
    assert Trimmed(s);
    assert ("v" + Printed(v))[1..] == Printed(v);
  }

  /** One version is newer than another exactly when its major number is greater, or that is equal and the minor number
      is, or both are equal and the patch number is. */
  lemma NewerByNumbers(l: string, a: Triple, c: string, b: Triple)
    requires Shows(l, a) && Shows(c, b)
    ensures Newer(l, c) <==> a.major > b.major || (a.major == b.major && a.minor > b.minor)
                             || (a.major == b.major && a.minor == b.minor && a.patch > b.patch)
  {
    hide Printed, Trim, Parsed, Stripped, SplitN;
    ShownIsStripped(l, a);
    ShownIsStripped(c, b);
    PrintedEnds(b);
    ParsedPrinted(a, "");
    ParsedPrinted(b, "");
    assert Printed(a) + "" == Printed(a) && Printed(b) + "" == Printed(b);
    assert !Marker(Printed(b)) by { assert "dev"[0] == 'd' && "unknown"[0] == 'u'; }
  }
}
