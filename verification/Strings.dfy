/** Python's substring test and order on strings. */
module Strings {
  /** `needle in hay` */
  predicate Contains(hay: string, needle: string) {
    exists i :: 0 <= i <= |hay| && needle <= hay[i..]
  }

  /** Python's order on strings. */
  predicate StringLe(a: string, b: string) {
    a == "" || (b != "" && (a[0] < b[0] || (a[0] == b[0] && StringLe(a[1..], b[1..]))))
  }

  lemma {:induction false} StringLeTotal(a: string, b: string)
    ensures StringLe(a, b) || StringLe(b, a)
    ensures StringLe(a, b) && StringLe(b, a) ==> a == b
  {
    if a != "" && b != "" {
      StringLeTotal(a[1..], b[1..]);
      assert a == [a[0]] + a[1..] && b == [b[0]] + b[1..];
    }
  }

  lemma {:induction false} StringLeTransitive(a: string, b: string, c: string)
    requires StringLe(a, b) && StringLe(b, c)
    ensures StringLe(a, c)
  {
    if a != "" && a[0] == b[0] == c[0] { StringLeTransitive(a[1..], b[1..], c[1..]); }
  }

  /** Where they first differ `a` has the smaller character, or there `a` has none. */
  ghost predicate ComesBefore(a: string, b: string, i: int) {
    0 <= i <= |a| && i <= |b| && a[..i] == b[..i] && if i < |a| then i < |b| && a[i] < b[i] else true
  }

  lemma AgreesAtFirst(a: string, b: string, i: int)
    requires ComesBefore(a, b, i) && i > 0
    ensures a[0] == b[0]
  {
    assert a[..i][0] == b[..i][0];
  }

  lemma {:induction false} StringLeIff(a: string, b: string)
    ensures StringLe(a, b) <==> exists i :: ComesBefore(a, b, i)
  {
    if a == "" {
      assert a[..0] == b[..0] && ComesBefore(a, b, 0);
    } else if b != "" {
      if a[0] == b[0] {
        StringLeIff(a[1..], b[1..]);
        if i :| ComesBefore(a[1..], b[1..], i) {
          assert a[..i + 1] == [a[0]] + a[1..][..i] && b[..i + 1] == [b[0]] + b[1..][..i];
          assert ComesBefore(a, b, i + 1);
        }
        if i :| ComesBefore(a, b, i) {
          assert i > 0 && a[1..][..i - 1] == a[..i][1..] && b[1..][..i - 1] == b[..i][1..];
          assert ComesBefore(a[1..], b[1..], i - 1);
        }
      } else {
        assert a[..0] == b[..0];
        assert ComesBefore(a, b, 0) <==> a[0] < b[0];
        forall i | ComesBefore(a, b, i) ensures i == 0 {
          if i > 0 { AgreesAtFirst(a, b, i); }
        }
      }
    }
  }
}
