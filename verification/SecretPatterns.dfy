/** The three prefixed secret patterns, and why they cannot interfere with one another. */
module SecretPatterns {
  import opened Patterns

  /** The case-insensitive literal `w`. */
  function Word(w: string): (p: Prefix)
    requires forall c <- w :: IsLower(c)
    ensures |p| == |w| && forall i :: 0 <= i < |w| ==> p[i] == One(Letter(w[i]))
  {
    seq(|w|, i requires 0 <= i < |w| => One(Letter(w[i])))
  }

  /** `authorization\s*:\s*bearer\s+` */
  function Bearer(): Prefix {
    Word("authorization") + [Star(Space), One(Among(":")), Star(Space)] + Word("bearer") + [One(Space), Star(Space)]
  }

  /** `api[_-]?key\s*[=:]\s*` */
  function ApiKey(): Prefix {
    Word("api") + [Opt(Among("_-"))] + Word("key") + [Star(Space), One(Among("=:")), Star(Space)]
  }

  /** `password\s*[=:]\s*` */
  function Password(): Prefix {
    Word("password") + [Star(Space), One(Among("=:")), Star(Space)]
  }

  predicate IsBreak(c: char) {
    c == ':' || c == '=' || IsSpace(c)
  }

  predicate BreakClass(cls: CharClass) {
    cls.Space? || (cls.Among? && forall c <- cls.members :: c == ':' || c == '=')
  }

  /** What the passes rely on: the prefix is decided character by character, contains no bracket,
      ends in a break, and its second letter never recurs (so it cannot overlap itself). */
  ghost predicate WellFormed(p: Prefix) {
    Unambiguous(p) && Shaped(p)
  }

  ghost predicate Shaped(p: Prefix) {
    && |p| >= 4
    && p[0].One? && p[0].cls.Letter? && p[1].One? && p[1].cls.Letter?
    && (forall i :: 2 <= i < |p| ==> Apart(p[i].cls, p[1].cls))
    && (forall i :: 0 <= i < |p| ==> p[i].cls.Among? ==> forall c <- p[i].cls.members :: IsPunctuation(c))
    && p[|p| - 2].One? && BreakClass(p[|p| - 2].cls) && BreakClass(p[|p| - 1].cls)
  }

  lemma {:induction false} OnesUnambiguous(p: Prefix, k: nat)
    requires k <= |p| && (forall i :: 0 <= i < k ==> p[i].One?) && Unambiguous(p[k..])
    ensures Unambiguous(p)
  {
    if k > 0 {
      assert p[1..][k - 1..] == p[k..];
      OnesUnambiguous(p[1..], k - 1);
    } else {
      assert p[0..] == p;
    }
  }

  /** `sep` is how the two key patterns end; `unfold` steps expose their atoms one by one. */
  lemma SeparatorUnambiguous(members: string)
    requires forall c <- members :: IsPunctuation(c)
    ensures Unambiguous([Star(Space), One(Among(members)), Star(Space)])
  {
    var sep := [Star(Space), One(Among(members)), Star(Space)];
    assert sep[1..][1..] == [Star(Space)];
    assert sep[1..] == [One(Among(members)), Star(Space)];
    assert [Star(Space)][1..] == [];
  }

  lemma PasswordUnambiguous()
    ensures Unambiguous(Password())
  {
    SeparatorUnambiguous("=:");
    assert Password()[8..] == [Star(Space), One(Among("=:")), Star(Space)];
    OnesUnambiguous(Password(), 8);
  }

  lemma ApiKeyUnambiguous()
    ensures Unambiguous(ApiKey())
  {
    SeparatorUnambiguous("=:");
    var p := ApiKey();
    assert p[4..][3..] == [Star(Space), One(Among("=:")), Star(Space)];
    OnesUnambiguous(p[4..], 3);
    assert p[4..][0] == One(Letter('k'));
    assert p[3..][0] == Opt(Among("_-"));
    assert p[3..][1..] == p[4..];
    OnesUnambiguous(p, 3);
  }

  lemma BearerUnambiguous()
    ensures Unambiguous(Bearer())
  {
    var p := Bearer();
    assert p[22..] == [One(Space), Star(Space)];
    assert [One(Space), Star(Space)][1..] == [Star(Space)];
    assert [Star(Space)][1..] == [];
    assert p[16..][6..] == p[22..];
    OnesUnambiguous(p[16..], 6);
    assert p[16..][0] == One(Letter('b'));
    assert p[15..][0] == Star(Space) && p[15..][1..] == p[16..];
    assert p[14..][0] == One(Among(":")) && p[14..][1..] == p[15..];
    assert p[13..][0] == Star(Space) && p[13..][1..] == p[14..];
    OnesUnambiguous(p, 13);
  }

  lemma PasswordWellFormed()
    ensures WellFormed(Password())
  {
    PasswordUnambiguous();
    var w := "password";
    assert forall j :: 2 <= j < |w| ==> w[j] != 'a';
  }

  lemma ApiKeyWellFormed()
    ensures WellFormed(ApiKey())
  {
    ApiKeyUnambiguous();
    var p := ApiKey();
    assert p[2] == One(Letter('i')) && p[4] == One(Letter('k')) && p[5] == One(Letter('e')) && p[6] == One(Letter('y'));
  }

  lemma BearerWellFormed()
    ensures WellFormed(Bearer())
  {
    BearerUnambiguous();
    BearerShaped();
  }

  lemma BearerShaped()
    ensures Shaped(Bearer())
  {
    var p := Bearer();
    var v, w := "authorization", "bearer";
    assert forall j :: 2 <= j < |v| ==> v[j] != 'u';
    assert forall j :: 0 <= j < |w| ==> w[j] != 'u';
    assert forall j :: 0 <= j < 13 ==> p[j] == One(Letter(v[j]));
    assert p[13] == Star(Space) && p[14] == One(Among(":")) && p[15] == Star(Space);
    assert forall j :: 0 <= j < 6 ==> p[16 + j] == One(Letter(w[j]));
    assert p[22] == One(Space) && p[23] == Star(Space);
    forall i | 2 <= i < |p| ensures Apart(p[i].cls, p[1].cls) {
      if i < 13 {
        assert p[i] == One(Letter(v[i]));
      } else if 16 <= i < 22 {
        assert p[16 + (i - 16)] == One(Letter(w[i - 16]));
      }
    }
  }
}
