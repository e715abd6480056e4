/** The elements of sequences, counting duplicates. */
module Sequences {
  lemma Removing<T>(s: seq<T>, k: nat)
    requires k < |s|
    ensures multiset(s) == multiset(s[..k] + s[k + 1..]) + multiset{s[k]}
  {
    assert s == s[..k] + [s[k]] + s[k + 1..];
  }

  lemma RemovingSame<T>(a: seq<T>, i: nat, b: seq<T>, k: nat)
    requires i < |a| && k < |b| && a[i] == b[k] && multiset(a) == multiset(b)
    ensures multiset(a[..i] + a[i + 1..]) == multiset(b[..k] + b[k + 1..])
  {
    Removing(a, i);
    Removing(b, k);
    var x := multiset{a[i]};
    assert multiset(a[..i] + a[i + 1..]) == multiset(a) - x;
    assert multiset(b[..k] + b[k + 1..]) == multiset(b) - x;
  }

  lemma TailsAgree<T>(a: seq<T>, b: seq<T>)
    requires 0 < |a| && 0 < |b| && a[0] == b[0] && multiset(a) == multiset(b)
    ensures multiset(a[1..]) == multiset(b[1..])
  {
    RemovingSame(a, 0, b, 0);
    assert a[..0] + a[1..] == a[1..] && b[..0] + b[1..] == b[1..];
  }

  lemma SameElements<T>(a: seq<T>, b: seq<T>, x: T)
    requires multiset(a) == multiset(b)
    ensures |a| == |b| && (x in a <==> x in b)
  {
    assert |multiset(a)| == |multiset(b)|;
    assert x in a <==> x in multiset(a);
    assert x in b <==> x in multiset(b);
  }
}
