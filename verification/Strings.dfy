/** The order of strings. */
module Strings {
  /** Strings in the order of their code units. */
  predicate StringLess(a: string, b: string) {
    if b == "" then false
    else if a == "" then true
    else a[0] < b[0] || (a[0] == b[0] && StringLess(a[1..], b[1..]))
  }

  /** After `k` equal units, `a` ends or has the lesser unit. */
  predicate LessAt(a: string, b: string, k: nat) {
    k <= |a| && k < |b| && a[..k] == b[..k] && (k == |a| || a[k] as int < b[k] as int)
  }

  lemma LessBehind(a: string, b: string, k: nat)
    requires LessAt(a, b, k) && k > 0
    ensures a != "" && b != "" && a[0] == b[0] && LessAt(a[1..], b[1..], k - 1)
  {
    assert a[..k][0] == a[0] && b[..k][0] == b[0];
    assert a[..k][1..] == a[1..][..k - 1] && b[..k][1..] == b[1..][..k - 1];
  }

  lemma LessInFront(a: string, b: string, k: nat)
    requires a != "" && b != "" && a[0] == b[0] && LessAt(a[1..], b[1..], k)
    ensures LessAt(a, b, k + 1)
  {
    assert a[..k + 1] == [a[0]] + a[1..][..k] && b[..k + 1] == [b[0]] + b[1..][..k];
  }

  /** The first unit that differs decides, or the end of the shorter string. */
  lemma {:induction false} FirstDifferenceDecides(a: string, b: string)
    ensures StringLess(a, b) <==> exists k: nat :: LessAt(a, b, k)
  {
    if StringLess(a, b) {
      if a == "" || a[0] != b[0] {
        assert LessAt(a, b, 0);
      } else {
        FirstDifferenceDecides(a[1..], b[1..]);
        var k: nat :| LessAt(a[1..], b[1..], k);
        LessInFront(a, b, k);
      }
    }
    if k: nat :| LessAt(a, b, k) {
      if k > 0 {
        LessBehind(a, b, k);
        FirstDifferenceDecides(a[1..], b[1..]);
      }
    }
  }

  lemma {:induction false} StringLessIsTotal(a: string, b: string)
    ensures a == b || StringLess(a, b) || StringLess(b, a)
    ensures !(StringLess(a, b) && StringLess(b, a))
    ensures !StringLess(a, a)
  {
    if a != "" {
      StringLessIsTotal(a[1..], a[1..]);
      if b != "" {
        StringLessIsTotal(a[1..], b[1..]);
        assert a == [a[0]] + a[1..] && b == [b[0]] + b[1..];
      }
    }
  }

  lemma {:induction false} StringLessIsTransitive(a: string, b: string, c: string)
    requires StringLess(a, b) && StringLess(b, c)
    ensures StringLess(a, c)
  {
    if a != "" && a[0] == b[0] && b[0] == c[0] {
      StringLessIsTransitive(a[1..], b[1..], c[1..]);
    }
  }
}
