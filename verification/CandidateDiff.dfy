/** What varies across the subjects of one candidate group: `candidateDiff.ts`. */
module CandidateDiff {

  const BOUNDARY: set<char> := {'.', '_', ' ', '-', '<', '>', ':', '/'}

  datatype VaryingParts = VaryingParts(prefix: string, suffix: string, middles: seq<string>)

  // ---------------------------------------------------------------- what the split promises

  predicate AllEqual(subjects: seq<string>) {
    forall i :: 0 <= i < |subjects| ==> subjects[i] == subjects[0]
  }

  /** `h` heads every value and is empty or ends on a boundary. */
  ghost predicate TokenHead(h: string, values: seq<string>) {
    && (forall v :: v in values ==> h <= v)
    && (h == "" || h[|h| - 1] in BOUNDARY)
  }

  predicate EndsWith(v: string, t: string) { |t| <= |v| && v[|v| - |t|..] == t }

  /** `t` ends every value and is empty or starts on a boundary. */
  ghost predicate TokenTail(t: string, values: seq<string>) {
    && (forall v :: v in values ==> EndsWith(v, t))
    && (t == "" || t[0] in BOUNDARY)
  }

  ghost predicate LongestHead(h: string, values: seq<string>) {
    TokenHead(h, values) && forall other :: TokenHead(other, values) ==> |other| <= |h|
  }

  ghost predicate LongestTail(t: string, values: seq<string>) {
    TokenTail(t, values) && forall other :: TokenTail(other, values) ==> |other| <= |t|
  }

  function DropAll(values: seq<string>, n: nat): (r: seq<string>)
    requires forall v :: v in values ==> n <= |v|
    ensures |r| == |values|
  {
    seq(|values|, i requires 0 <= i < |values| => assert values[i] in values; values[i][n..])
  }

  /** The whole contract of `varyingParts`, without saying how it is computed. */
  ghost predicate SplitsTokens(subjects: seq<string>, r: VaryingParts) {
    && Rebuilds(subjects, r)
    && if AllEqual(subjects) then r.prefix == r.suffix == ""
       else LongestHead(r.prefix, subjects) && LongestTail(r.suffix, DropAll(subjects, |r.prefix|))
  }

  ghost predicate Rebuilds(subjects: seq<string>, r: VaryingParts) {
    && |r.middles| == |subjects|
    && forall i :: 0 <= i < |subjects| ==> subjects[i] == r.prefix + r.middles[i] + r.suffix
  }

  // ---------------------------------------------------------------- the code

  /** Every value has at least `n` characters and the same first `n`. */
  ghost predicate Agree(values: seq<string>, n: nat) {
    forall v :: v in values ==> n <= |v| && n <= |values[0]| && v[..n] == values[0][..n]
  }

  /** `commonPrefixLength`. */
  method CommonPrefixLength(values: seq<string>) returns (n: nat)
    requires values != []
    ensures Agree(values, n)
    ensures forall m: nat :: Agree(values, m) ==> m <= n
  {
    var first := values[0];
    n := 0;
    while n < |first| && forall k :: 0 <= k < |values| ==> n < |values[k]| && values[k][n] == first[n]
      invariant n <= |first| && Agree(values, n)
    {
      forall v | v in values ensures n + 1 <= |v| && v[..n + 1] == first[..n + 1] {
        assert v[..n + 1] == v[..n] + [v[n]] && first[..n + 1] == first[..n] + [first[n]];
      }
      n := n + 1;
    }
    forall m: nat | Agree(values, m) ensures m <= n {
      assert first in values;
      if m > n {
        forall k | 0 <= k < |values| ensures n < |values[k]| && values[k][n] == first[n] {
          assert values[k] in values;
          assert values[k][..m][n] == first[..m][n];
        }
      }
    }
  }

  /** `toBoundary`. */
  method ToBoundary(value: string, length: nat) returns (n: nat)
    requires length <= |value|
    ensures n <= length
    ensures n > 0 ==> value[n - 1] in BOUNDARY
    ensures forall k :: n <= k < length ==> value[k] !in BOUNDARY
  {
    for i := length downto 0
      invariant forall k :: i <= k < length ==> value[k] !in BOUNDARY
    {
      if value[i] in BOUNDARY { return i + 1; }
    }
    return 0;
  }

  function Reverse(s: string): (r: string)
    ensures |r| == |s|
    ensures forall i :: 0 <= i < |s| ==> r[i] == s[|s| - 1 - i]
  {
    seq(|s|, i requires 0 <= i < |s| => s[|s| - 1 - i])
  }

  function ReverseAll(values: seq<string>): seq<string> {
    seq(|values|, i requires 0 <= i < |values| => Reverse(values[i]))
  }

  function MinLength(values: seq<string>): (n: nat)
    requires values != []
    ensures forall v :: v in values ==> n <= |v|
    ensures exists v :: v in values && n == |v|
  {
    if |values| == 1 then |values[0]|
    else
      var rest := MinLength(values[1..]);
      assert values == [values[0]] + values[1..];
      if |values[0]| <= rest then |values[0]| else rest
  }

  /** `varyingParts`. */
  method SplitSubjects(subjects: seq<string>) returns (r: VaryingParts)
    ensures SplitsTokens(subjects, r)
  {
    if subjects == [] { return VaryingParts("", "", []); }
    var first := subjects[0];
    var matched := CommonPrefixLength(subjects);
    assert subjects[0] in subjects;
    NothingVaries(subjects, matched);
    if matched == |first| && forall k :: 0 <= k < |subjects| ==> |subjects[k]| == |first| {
      r := VaryingParts("", "", subjects);
      WholeSubjects(subjects);
      return;
    }
    var prefixLength := ToBoundary(first, matched);
    var prefix := first[..prefixLength];
    HeadIsLongest(subjects, matched, prefixLength);

    var tails := DropAll(subjects, prefixLength);
    var suffixLength := SharedTail(tails);
    var suffix := if suffixLength == 0 then "" else tails[0][|tails[0]| - suffixLength..];
    assert suffix == tails[0][|tails[0]| - suffixLength..];
    r := VaryingParts(prefix, suffix, CutAll(tails, suffixLength));
    CutsRebuild(subjects, r);
  }

  /** The length of the longest shared tail that starts on a boundary, found on the reversed tails. */
  method SharedTail(tails: seq<string>) returns (n: nat)
    requires tails != []
    ensures forall v :: v in tails ==> n <= |v|
    ensures n <= |tails[0]| && LongestTail(tails[0][|tails[0]| - n..], tails)
  {
    var reversed := ReverseAll(tails);
    var rawSuffix := CommonPrefixLength(reversed);
    assert reversed[0] in reversed && tails[0] in tails;
    var shortest := MinLength(tails);
    n := ToBoundary(reversed[0], if rawSuffix <= shortest then rawSuffix else shortest);
    TailIsLongest(tails, rawSuffix, shortest, n);
  }

  /** `tails.map(tail => tail.slice(0, tail.length - n))`. */
  function CutAll(values: seq<string>, n: nat): (r: seq<string>)
    requires forall v :: v in values ==> n <= |v|
    ensures |r| == |values|
  {
    seq(|values|, i requires 0 <= i < |values| => assert values[i] in values; values[i][..|values[i]| - n])
  }

  lemma WholeSubjects(subjects: seq<string>)
    ensures Rebuilds(subjects, VaryingParts("", "", subjects))
  {
    assert forall i :: 0 <= i < |subjects| ==> subjects[i] == "" + subjects[i] + "";
  }

  lemma NothingVaries(subjects: seq<string>, matched: nat)
    requires subjects != [] && matched <= |subjects[0]|
    requires Agree(subjects, matched) && forall m: nat :: Agree(subjects, m) ==> m <= matched
    ensures AllEqual(subjects) <==>
              matched == |subjects[0]| && forall k :: 0 <= k < |subjects| ==> |subjects[k]| == |subjects[0]|
  {
    if AllEqual(subjects) {
      assert Agree(subjects, |subjects[0]|);
    }
    if matched == |subjects[0]| && forall k :: 0 <= k < |subjects| ==> |subjects[k]| == |subjects[0]| {
      forall k | 0 <= k < |subjects| ensures subjects[k] == subjects[0] {
        assert subjects[k] in subjects && subjects[k][..matched] == subjects[k];
      }
    }
  }

  lemma CutsRebuild(subjects: seq<string>, r: VaryingParts)
    requires forall v :: v in subjects ==> r.prefix <= v
    requires var tails := DropAll(subjects, |r.prefix|);
             (forall v :: v in tails ==> EndsWith(v, r.suffix)) && r.middles == CutAll(tails, |r.suffix|)
    ensures Rebuilds(subjects, r)
  {
    var tails := DropAll(subjects, |r.prefix|);
    forall i | 0 <= i < |subjects| ensures subjects[i] == r.prefix + r.middles[i] + r.suffix {
      assert subjects[i] in subjects && tails[i] in tails;
      assert subjects[i] == r.prefix + tails[i];
      assert tails[i] == r.middles[i] + r.suffix;
    }
  }

  lemma HeadIsLongest(values: seq<string>, matched: nat, n: nat)
    requires values != [] && n <= matched <= |values[0]|
    requires Agree(values, matched) && forall m: nat :: Agree(values, m) ==> m <= matched
    requires n > 0 ==> values[0][n - 1] in BOUNDARY
    requires forall k :: n <= k < matched ==> values[0][k] !in BOUNDARY
    ensures LongestHead(values[0][..n], values)
  {
    var h := values[0][..n];
    forall v | v in values ensures h <= v {
      assert v[..matched][..n] == v[..n] && values[0][..matched][..n] == h;
    }
    forall other | TokenHead(other, values) ensures |other| <= n {
      assert values[0] in values;
      assert Agree(values, |other|);
      assert other <= values[0];
    }
  }

  lemma ReverseTail(v: string, t: string)
    ensures EndsWith(v, t) <==> Reverse(t) <= Reverse(v)
  {
    if EndsWith(v, t) {
      forall i | 0 <= i < |t| ensures Reverse(t)[i] == Reverse(v)[i] {
        assert t[|t| - 1 - i] == v[|v| - |t|..][|t| - 1 - i];
      }
    }
    if Reverse(t) <= Reverse(v) {
      forall i | 0 <= i < |t| ensures t[i] == v[|v| - |t|..][i] {
        assert Reverse(t)[|t| - 1 - i] == Reverse(v)[|t| - 1 - i];
      }
      assert t == v[|v| - |t|..];
    }
  }

  /** Reversing turns the search for a shared tail into the search for a shared head. */
  lemma TailIsLongest(tails: seq<string>, raw: nat, shortest: nat, n: nat)
    requires tails != []
    requires Agree(ReverseAll(tails), raw) && forall m: nat :: Agree(ReverseAll(tails), m) ==> m <= raw
    requires exists v :: v in tails && shortest == |v|
    requires n <= raw && n <= shortest && raw <= |tails[0]|
    requires n > 0 ==> Reverse(tails[0])[n - 1] in BOUNDARY
    requires forall k :: n <= k < raw && k < shortest ==> Reverse(tails[0])[k] !in BOUNDARY
    ensures LongestTail(tails[0][|tails[0]| - n..], tails)
  {
    var reversed := ReverseAll(tails);
    forall v | v in tails ensures Reverse(v) in reversed {
      var i :| 0 <= i < |tails| && tails[i] == v;
      assert reversed[i] == Reverse(v);
    }
    forall w | w in reversed ensures exists v :: v in tails && w == Reverse(v) {
      var i :| 0 <= i < |tails| && reversed[i] == w;
      assert tails[i] in tails;
    }
    assert raw <= shortest;
    HeadIsLongest(reversed, raw, n);
    var t := tails[0][|tails[0]| - n..];
    assert Reverse(t) == reversed[0][..n];
    forall v | v in tails ensures EndsWith(v, t) { ReverseTail(v, t); }
    assert t != "" ==> t[0] == Reverse(t)[n - 1];
    forall other | TokenTail(other, tails) ensures |other| <= n {
      forall v | v in tails ensures Reverse(other) <= Reverse(v) { ReverseTail(v, other); }
      assert other != "" ==> Reverse(other)[|other| - 1] == other[0];
      assert TokenHead(Reverse(other), reversed);
    }
  }

  // ---------------------------------------------------------------- consequences

  /** The middles tell the subjects apart. */
  lemma DistinctMiddles(subjects: seq<string>, r: VaryingParts, i: nat, j: nat)
    requires Rebuilds(subjects, r) && i < |subjects| && j < |subjects|
    ensures r.middles[i] == r.middles[j] <==> subjects[i] == subjects[j]
  {
    if subjects[i] == subjects[j] {
      var n, p := |r.middles[i]|, |r.prefix|;
      assert |r.middles[j]| == n;
      assert r.middles[i] == subjects[i][p..p + n];
      assert r.middles[j] == subjects[j][p..p + n];
    }
  }

  lemma MembersVary(subjects: seq<string>, r: VaryingParts)
    requires SplitsTokens(subjects, r) && !AllEqual(subjects)
    ensures !AllEqual(r.middles)
  {
    var i :| 0 <= i < |subjects| && subjects[i] != subjects[0];
    DistinctMiddles(subjects, r, i, 0);
  }

  /** Splitting the middles again strips nothing further. */
  lemma SplitIsIdempotent(subjects: seq<string>, r: VaryingParts, again: VaryingParts)
    requires SplitsTokens(subjects, r) && SplitsTokens(r.middles, again)
    ensures again == VaryingParts("", "", r.middles)
  {
    if !AllEqual(subjects) {
      MembersVary(subjects, r);
      NoFurtherHead(subjects, r, again.prefix);
      assert DropAll(r.middles, 0) == r.middles;
      NoFurtherTail(subjects, r, again.suffix);
    } else {
      assert forall i :: 0 <= i < |subjects| ==> subjects[i] == r.middles[i];
    }
    EmptyEnds(r.middles, again);
  }

  lemma EmptyEnds(values: seq<string>, r: VaryingParts)
    requires Rebuilds(values, r) && r.prefix == r.suffix == ""
    ensures r.middles == values
  {
    assert forall i :: 0 <= i < |values| ==> values[i] == r.middles[i];
  }

  lemma HeadOfRest(p: string, m: string, t: string, h: string)
    requires h <= m
    ensures p + h <= p + m + t
  {
  }

  lemma TailOfRest(m: string, t: string, e: string)
    requires EndsWith(m, e)
    ensures EndsWith(m + t, e + t)
  {
    assert (m + t)[|m| - |e|..] == m[|m| - |e|..] + t;
  }

  lemma NoFurtherHead(subjects: seq<string>, r: VaryingParts, h: string)
    requires Rebuilds(subjects, r) && LongestHead(r.prefix, subjects) && TokenHead(h, r.middles)
    ensures h == ""
  {
    var longer := r.prefix + h;
    forall v | v in subjects ensures longer <= v {
      var i :| 0 <= i < |subjects| && subjects[i] == v;
      var m := r.middles[i];
      assert m in r.middles && v == r.prefix + m + r.suffix;
      HeadOfRest(r.prefix, m, r.suffix, h);
    }
    assert h != "" ==> longer[|longer| - 1] == h[|h| - 1];
    assert h != "" ==> TokenHead(longer, subjects);
  }

  lemma NoFurtherTail(subjects: seq<string>, r: VaryingParts, t: string)
    requires Rebuilds(subjects, r) && TokenHead(r.prefix, subjects)
    requires LongestTail(r.suffix, DropAll(subjects, |r.prefix|)) && TokenTail(t, r.middles)
    ensures t == ""
  {
    var tails, longer := DropAll(subjects, |r.prefix|), t + r.suffix;
    forall v | v in tails ensures EndsWith(v, longer) {
      var i :| 0 <= i < |tails| && tails[i] == v;
      assert r.middles[i] in r.middles;
      TailIsMiddleAndSuffix(r.prefix, r.middles[i], r.suffix);
      TailOfRest(r.middles[i], r.suffix, t);
    }
    assert t != "" ==> longer[0] == t[0];
    assert t != "" ==> TokenTail(longer, tails);
  }

  lemma TailIsMiddleAndSuffix(p: string, m: string, t: string)
    ensures (p + m + t)[|p|..] == m + t
  {
  }

  /** Order and repetition of the subjects do not matter: the same set of subjects gives the same
      shared halves, and a subject keeps its middle wherever it stands. */
  lemma SplitIgnoresOrder(a: seq<string>, ra: VaryingParts, b: seq<string>, rb: VaryingParts)
    requires SplitsTokens(a, ra) && SplitsTokens(b, rb)
    requires a != [] && (set s | s in a) == (set s | s in b)
    ensures ra.prefix == rb.prefix && ra.suffix == rb.suffix
    ensures forall i, j :: 0 <= i < |a| && 0 <= j < |b| && a[i] == b[j] ==> ra.middles[i] == rb.middles[j]
  {
    SameMembers(a, b);
    assert a[0] in b;
    SameMembers(b, a);
    if !AllEqual(a) {
      SameHead(a, ra.prefix, b, rb.prefix);
      SameTail(a, ra.suffix, b, rb.suffix, |ra.prefix|);
    }
    SameMiddles(a, ra, b, rb);
  }

  lemma SameMiddles(a: seq<string>, ra: VaryingParts, b: seq<string>, rb: VaryingParts)
    requires Rebuilds(a, ra) && Rebuilds(b, rb) && ra.prefix == rb.prefix && ra.suffix == rb.suffix
    ensures forall i, j :: 0 <= i < |a| && 0 <= j < |b| && a[i] == b[j] ==> ra.middles[i] == rb.middles[j]
  {
    forall i, j | 0 <= i < |a| && 0 <= j < |b| && a[i] == b[j] ensures ra.middles[i] == rb.middles[j] {
      SameMiddle(ra.prefix, ra.middles[i], rb.middles[j], ra.suffix);
    }
  }

  lemma SameMiddle(p: string, m: string, m': string, t: string)
    requires p + m + t == p + m' + t
    ensures m == m'
  {
    var whole := p + m + t;
    assert |m| == |m'|;
    assert m == whole[|p|..|p| + |m|];
    assert m' == (p + m' + t)[|p|..|p| + |m|];
  }

  lemma SameHead(a: seq<string>, h: string, b: seq<string>, h': string)
    requires a != [] && forall v :: v in a <==> v in b
    requires LongestHead(h, a) && LongestHead(h', b)
    ensures h == h'
  {
    assert a[0] in a;
    assert TokenHead(h, b) && TokenHead(h', a);
  }

  lemma SameTail(a: seq<string>, t: string, b: seq<string>, t': string, n: nat)
    requires a != [] && forall v :: v in a <==> v in b
    requires forall v :: v in a ==> n <= |v|
    requires LongestTail(t, DropAll(a, n)) && LongestTail(t', DropAll(b, n))
    ensures t == t'
  {
    SameTails(a, b, n, t);
    SameTails(b, a, n, t');
    var ta := DropAll(a, n);
    assert ta[0] in ta;
    assert EndsWith(ta[0], t) && EndsWith(ta[0], t');
  }

  lemma SameMembers(a: seq<string>, b: seq<string>)
    requires a != [] && (set s | s in a) == (set s | s in b)
    ensures forall v :: v in a <==> v in b
    ensures AllEqual(a) ==> AllEqual(b)
  {
    var sa, sb := set s | s in a, set s | s in b;
    assert forall v :: v in a <==> v in sa;
    assert forall v :: v in b <==> v in sb;
    if AllEqual(a) {
      forall i | 0 <= i < |b| ensures b[i] == b[0] { assert b[i] in b && b[0] in b; }
    }
  }

  lemma SameTails(a: seq<string>, b: seq<string>, n: nat, t: string)
    requires forall v :: v in a <==> v in b
    requires forall v :: v in a ==> n <= |v|
    requires TokenTail(t, DropAll(a, n))
    ensures TokenTail(t, DropAll(b, n))
  {
    var ta, tb := DropAll(a, n), DropAll(b, n);
    forall w | w in tb ensures EndsWith(w, t) {
      var j :| 0 <= j < |tb| && tb[j] == w;
      assert b[j] in a;
      var i :| 0 <= i < |a| && a[i] == b[j];
      assert ta[i] in ta;
    }
  }
}
