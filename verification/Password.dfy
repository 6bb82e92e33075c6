/** Stored passwords: telling a hash from plain text, checking a candidate, and replacing plain text by a hash. The hash
    scheme is a parameter. */
module Password {
  import opened Text

  /** `hash` takes a salt and may refuse a password; `verify` compares a hash with a candidate. */
  datatype Scheme = Scheme(hash: (string, nat) -> Option<string>, verify: (string, string) -> bool)

  predicate IsBcryptHash(s: string) {
    var t := Trim(s);
    HasPrefix(t, "$2a$") || HasPrefix(t, "$2b$") || HasPrefix(t, "$2y$")
  }

  /** A hash verifies its own password and no other, looks like one, and whether it can be made does not depend on
      the salt. */
  ghost predicate Ideal(h: Scheme) {
    && (forall p, salt {:trigger h.hash(p, salt)} :: h.hash(p, salt).Some? ==>
          && Trimmed(h.hash(p, salt).value) && IsBcryptHash(h.hash(p, salt).value)
          && forall c :: h.verify(h.hash(p, salt).value, c) <==> c == p)
    && (forall p, a, b {:trigger h.hash(p, a), h.hash(p, b)} :: h.hash(p, a).Some? <==> h.hash(p, b).Some?)
  }

  predicate CheckPassword(h: Scheme, stored: string, candidate: string) {
    var s := Trim(stored);
    s != "" && if IsBcryptHash(s) then h.verify(s, candidate) else s == candidate
  }

  datatype Migration = Migration(stored: string, changed: bool, failed: bool)

  function EnsurePasswordHashed(h: Scheme, stored: string, salt: nat): Migration {
    var pw := Trim(stored);
    if pw == "" || IsBcryptHash(pw) then Migration(stored, false, false)
    else
      var hashed := h.hash(pw, salt);
      if hashed.None? then Migration(stored, false, true) else Migration(hashed.value, true, false)
  }

  lemma HashesAreNotBlank(s: string)
    requires IsBcryptHash(s)
    ensures Trim(s) != ""
  {
  }

  lemma TrimmedHash(s: string)
    ensures Trim(Trim(s)) == Trim(s) && (IsBcryptHash(Trim(s)) <==> IsBcryptHash(s))
  {
  }

  /** What an ideal hash of a password is good for. */
  lemma IdealHash(h: Scheme, p: string, salt: nat)
    requires Ideal(h) && h.hash(p, salt).Some?
    ensures var s := h.hash(p, salt).value;
            && Trim(s) == s != "" && IsBcryptHash(s) && forall c :: h.verify(s, c) <==> c == p
  {
    hide Trim, IsBcryptHash;
    HashesAreNotBlank(h.hash(p, salt).value);
  }

  /** A hash accepts its password only, plain text only itself without white space around it, and a blank password nobody. */
  lemma AcceptedCandidates(h: Scheme, p: string, salt: nat, candidate: string)
    requires Ideal(h)
    ensures h.hash(p, salt).Some? ==> (CheckPassword(h, h.hash(p, salt).value, candidate) <==> candidate == p)
    ensures !IsBcryptHash(p) ==> (CheckPassword(h, p, candidate) <==> !Blank(p) && candidate == Trim(p))
  {
    hide Trim, IsBcryptHash, Blank;
    TrimmedHash(p);
    TrimBlank(p);
    if h.hash(p, salt).Some? { IdealHash(h, p, salt); }
  }

  /** What looks like a hash: one of the three prefixes, white space around it or not. */
  lemma HashLooksIff(s: string)
    ensures IsBcryptHash(s) <==>
              |Trim(s)| >= 4 && Trim(s)[0] == '$' && Trim(s)[1] == '2' && Trim(s)[2] in "aby" && Trim(s)[3] == '$'
  {
    hide Trim;
    var t := Trim(s);
    if |t| >= 4 { assert t[..4] == [t[0], t[1], t[2], t[3]]; }
    assert "$2a$"[2] == 'a' && "$2b$"[2] == 'b' && "$2y$"[2] == 'y';
  }

  /** Migration accepts exactly the candidates that were accepted before. */
  lemma MigrationKeepsCandidates(h: Scheme, stored: string, salt: nat, candidate: string)
    requires Ideal(h)
    ensures CheckPassword(h, EnsurePasswordHashed(h, stored, salt).stored, candidate) <==> CheckPassword(h, stored, candidate)
  {
    hide Trim, IsBcryptHash;
    var pw := Trim(stored);
    TrimmedHash(stored);
    if h.hash(pw, salt).Some? { IdealHash(h, pw, salt); }
  }

  /** Once migrated, a password stays as it is; a plain one is migrated exactly when it can be hashed. */
  lemma MigrationOnce(h: Scheme, stored: string, salt: nat, again: nat)
    requires Ideal(h)
    ensures var m := EnsurePasswordHashed(h, stored, salt);
            && (m.changed <==> Trim(stored) != "" && !IsBcryptHash(stored) && h.hash(Trim(stored), salt).Some?)
            && EnsurePasswordHashed(h, m.stored, again) == Migration(m.stored, false, m.failed)
            && (m.failed <==> Trim(stored) != "" && !IsBcryptHash(stored) && h.hash(Trim(stored), salt).None?)
            && (!m.changed ==> m.stored == stored)
  {
    hide Trim, IsBcryptHash;
    var pw := Trim(stored);
    TrimmedHash(stored);
    assert h.hash(pw, salt).Some? <==> h.hash(pw, again).Some?;
    if h.hash(pw, salt).Some? { IdealHash(h, pw, salt); }
  }

  /** The comparison of plain text runs over all bytes: the differences are collected and tested at the end. */
  method SubtleConstantEqual(a: seq<bv8>, b: seq<bv8>) returns (eq: bool)
    ensures eq <==> a == b
  {
    if |a| != |b| { return false; }
    var v: bv8 := 0;
    for i := 0 to |a|
      invariant v == 0 <==> a[..i] == b[..i]
    {
      BitsDiffer(v, a[i], b[i]);
      v := v | (a[i] ^ b[i]);
      assert a[..i + 1] == a[..i] + [a[i]] && b[..i + 1] == b[..i] + [b[i]];
    }
    return v == 0;
  }

  lemma BitsDiffer(v: bv8, x: bv8, y: bv8)
    ensures (v | (x ^ y)) == 0 <==> v == 0 && x == y
  {
  }
}
