/** Python's order on strings, and its `sorted`. */
module CodePointOrder {
  import opened Collections

  function CodePoints(s: string): seq<nat> { seq(|s|, i requires 0 <= i < |s| => s[i] as nat) }

  predicate Before(a: string, b: string) { Lex(CodePoints(a), CodePoints(b)) }

  /** The first `k` characters are the same, and then `a` ends or has the smaller code point. */
  ghost predicate BeforeAt(a: string, b: string, k: nat) {
    && k <= |a| && k < |b| && a[..k] == b[..k] && (k < |a| ==> a[k] < b[k])
  }

  lemma BeforeExactly(a: string, b: string)
    ensures Before(a, b) <==> exists k: nat :: BeforeAt(a, b, k)
  {
    var p, q := CodePoints(a), CodePoints(b);
    LexExactly(p, q);
    if Before(a, b) {
      var k: nat :| k <= |p| && k < |q| && p[..k] == q[..k] && (k == |p| || p[k] < q[k]);
      SamePrefix(a, b, k);
      assert BeforeAt(a, b, k);
    }
    forall k: nat | BeforeAt(a, b, k) ensures LexBy(p, q) {
      SamePrefix(a, b, k);
      assert p[..k] == q[..k];
    }
  }

  lemma SamePrefix(a: string, b: string, k: nat)
    requires k <= |a| && k <= |b|
    ensures a[..k] == b[..k] <==> CodePoints(a)[..k] == CodePoints(b)[..k]
  {
    if a[..k] == b[..k] {
      forall i | 0 <= i < k ensures CodePoints(a)[i] == CodePoints(b)[i] { assert a[..k][i] == b[..k][i]; }
    } else if CodePoints(a)[..k] == CodePoints(b)[..k] {
      forall i | 0 <= i < k ensures a[i] == b[i] { assert CodePoints(a)[..k][i] == CodePoints(b)[..k][i]; }
      assert false;
    }
  }

  ghost predicate Ascending(names: seq<string>) { forall i, j :: 0 <= i < j < |names| ==> Before(names[i], names[j]) }

  lemma BeforeTotal(a: string, b: string)
    ensures !(Before(a, b) && Before(b, a)) && (a == b <==> !Before(a, b) && !Before(b, a))
  {
    LexTotal(CodePoints(a), CodePoints(b));
    if CodePoints(a) == CodePoints(b) {
      assert |a| == |b|;
      forall i | 0 <= i < |a| ensures a[i] == b[i] {
        assert CodePoints(a)[i] == CodePoints(b)[i];
      }
    }
  }

  lemma BeforeWeakOrder()
    ensures WeakOrder(Before)
  {
    forall x, y ensures Before(x, y) ==> !Before(y, x) { BeforeTotal(x, y); }
    forall x, y, z | Before(x, z) ensures Before(x, y) || Before(y, z) {
      BeforeTotal(x, y);
      if Before(y, x) { LexTransitive(CodePoints(y), CodePoints(x), CodePoints(z)); }
    }
  }

  lemma SortedOnce(s: seq<string>)
    requires Distinct(s)
    ensures Ascending(Sort(s, Before))
    ensures forall x :: x in Sort(s, Before) <==> x in s
  {
    var r := Sort(s, Before);
    BeforeWeakOrder();
    SortOrdered(s, Before);
    forall x ensures x in r <==> x in s { assert x in multiset(r) <==> x in multiset(s); }
    SortDistinct(s, Before);
    forall i, j | 0 <= i < j < |r| ensures Before(r[i], r[j]) {
      BeforeTotal(r[i], r[j]);
    }
  }
}
