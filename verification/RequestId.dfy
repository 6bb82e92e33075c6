/** Request ids of control messages: the client key, a dash, a decimal time stamp. */
module RequestId {

  function Digit(d: nat): (c: char)
    requires d < 10
    ensures '0' <= c <= '9' && c as int - '0' as int == d
  {
    ('0' as int + d) as char
  }

  function Decimal(n: nat): (r: string)
    ensures r != "" && forall i :: 0 <= i < |r| ==> '0' <= r[i] <= '9'
  {
    if n < 10 then [Digit(n)] else Decimal(n / 10) + [Digit(n % 10)]
  }

  /** The %d verb. */
  function FormatInt(t: int): (r: string) {
    if t < 0 then "-" + Decimal(-t) else Decimal(t)
  }

  function Make(key: string, stamp: int): string {
    key + "-" + FormatInt(stamp)
  }

  lemma {:induction false} DecimalInjective(m: nat, n: nat)
    requires Decimal(m) == Decimal(n)
    ensures m == n
  {
    var a, b := Decimal(m), Decimal(n);
    if m >= 10 && n >= 10 {
      assert a[..|a| - 1] == Decimal(m / 10) && b[..|b| - 1] == Decimal(n / 10);
      assert a[|a| - 1] == Digit(m % 10) && b[|b| - 1] == Digit(n % 10);
      DecimalInjective(m / 10, n / 10);
    } else {
      assert |a| >= 2 <==> m >= 10;
      assert |b| >= 2 <==> n >= 10;
    }
  }

  /** The last dash of an id is the one before its digits. */
  lemma LastDash(p: string, digits: string, i: nat)
    requires (forall j :: 0 <= j < |digits| ==> digits[j] != '-') && i < |p + "-" + digits|
    ensures (p + "-" + digits)[|p|] == '-'
    ensures i > |p| ==> (p + "-" + digits)[i] != '-'
  {
    if i > |p| { assert (p + "-" + digits)[i] == digits[i - |p| - 1]; }
  }

  /** The text after the last dash of an id is the magnitude of its time stamp. */
  lemma TailsAgree(p: string, m: nat, q: string, n: nat)
    requires p + "-" + Decimal(m) == q + "-" + Decimal(n)
    ensures p == q && m == n
  {
    hide Digit;
    var a, b := Decimal(m), Decimal(n);
    LastDash(p, a, |q|);
    LastDash(q, b, |p|);
    assert |p| == |q|;
    CutAt(p, a, q, b);
    DecimalInjective(m, n);
  }

  lemma CutAt(p: string, a: string, q: string, b: string)
    requires p + "-" + a == q + "-" + b && |p| == |q|
    ensures p == q && a == b
  {
    var s := p + "-" + a;
    assert p == s[..|p|] && q == s[..|q|] && a == s[|p| + 1..] && b == s[|q| + 1..];
  }

  /** Two (key, stamp) pairs share an id exactly when they are equal, or when one stamp is the
      negation of the other and the key beside the positive stamp ends in one more dash. */
  lemma CollisionsExactly(k1: string, t1: int, k2: string, t2: int)
    ensures Make(k1, t1) == Make(k2, t2) <==>
            || (k1 == k2 && t1 == t2)
            || (t1 < 0 && t2 == -t1 && k2 == k1 + "-")
            || (t2 < 0 && t1 == -t2 && k1 == k2 + "-")
  {
    var m, n := if t1 < 0 then -t1 else t1, if t2 < 0 then -t2 else t2;
    var p, q := if t1 < 0 then k1 + "-" else k1, if t2 < 0 then k2 + "-" else k2;
    assert Make(k1, t1) == p + "-" + Decimal(m) by {
      if t1 < 0 { assert k1 + "-" + ("-" + Decimal(m)) == k1 + "-" + "-" + Decimal(m); }
    }
    assert Make(k2, t2) == q + "-" + Decimal(n) by {
      if t2 < 0 { assert k2 + "-" + ("-" + Decimal(n)) == k2 + "-" + "-" + Decimal(n); }
    }
    if Make(k1, t1) == Make(k2, t2) {
      TailsAgree(p, m, q, n);
      if t1 < 0 && t2 < 0 {
        assert p[..|p| - 1] == k1 && q[..|q| - 1] == k2;
      }
    }
  }

  /** With clocks past the epoch, an id names its key and its time stamp. */
  lemma Injective(k1: string, t1: int, k2: string, t2: int)
    requires t1 >= 0 && t2 >= 0 && Make(k1, t1) == Make(k2, t2)
    ensures k1 == k2 && t1 == t2
  {
    CollisionsExactly(k1, t1, k2, t2);
  }

  lemma MakeNotBlank(key: string, stamp: int)
    ensures Make(key, stamp) != ""
  {
  }
}
