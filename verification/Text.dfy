/** String operations the screens and scripts share: trimming, splitting, joining. */
module Text {

  /** The characters JavaScript's `trim` strips. */
  predicate IsSpace(c: char) {
    c in {' ', '\t', '\n', '\r', '\U{0B}', '\U{0C}', '\U{A0}', '\U{1680}', '\U{2028}', '\U{2029}',
          '\U{202F}', '\U{205F}', '\U{3000}', '\U{FEFF}'}
    || '\U{2000}' <= c <= '\U{200A}'
  }

  function TrimStart(s: string): (t: string)
    ensures t == "" || !IsSpace(t[0])
    ensures t != "" && s != "" ==> t[|t| - 1] == s[|s| - 1]
  {
    if s != "" && IsSpace(s[0]) then TrimStart(s[1..]) else s
  }

  function TrimEnd(s: string): (t: string)
    ensures t == "" || !IsSpace(t[|t| - 1])
    ensures t <= s
  {
    if s != "" && IsSpace(s[|s| - 1]) then TrimEnd(s[..|s| - 1]) else s
  }

  /** JavaScript's `s.trim()`. */
  function Trim(s: string): (t: string)
    ensures Trimmed(t)
  {
    TrimEnd(TrimStart(s))
  }

  predicate Trimmed(s: string) {
    s == "" || (!IsSpace(s[0]) && !IsSpace(s[|s| - 1]))
  }

  ghost predicate AllSpace(s: string) { forall i :: 0 <= i < |s| ==> IsSpace(s[i]) }

  lemma {:induction false} TrimStartExactly(s: string) returns (k: nat)
    ensures k <= |s| && TrimStart(s) == s[k..] && forall i :: 0 <= i < k ==> IsSpace(s[i])
  {
    k := 0;
    if s != "" && IsSpace(s[0]) {
      var n := TrimStartExactly(s[1..]);
      k := n + 1;
      forall i | 0 <= i < k ensures IsSpace(s[i]) { assert i > 0 ==> s[i] == s[1..][i - 1]; }
    }
  }

  lemma {:induction false} TrimEndExactly(s: string)
    ensures TrimEnd(s) <= s && forall i :: |TrimEnd(s)| <= i < |s| ==> IsSpace(s[i])
  {
    if s != "" && IsSpace(s[|s| - 1]) { TrimEndExactly(s[..|s| - 1]); }
  }

  /** What is trimmed off is white space, and all of it at both ends. */
  lemma TrimExactly(s: string) returns (before: string, after: string)
    ensures s == before + Trim(s) + after && AllSpace(before) && AllSpace(after) && Trimmed(Trim(s))
  {
    var k := TrimStartExactly(s);
    var rest := s[k..];
    TrimEndExactly(rest);
    before, after := s[..k], rest[|Trim(s)|..];
    assert rest == Trim(s) + after;
  }

  lemma {:induction false} TrimStartDrops(before: string, t: string)
    requires AllSpace(before) && (t == "" || !IsSpace(t[0]))
    ensures TrimStart(before + t) == t
  {
    if before == "" {
      assert before + t == t;
    } else {
      assert (before + t)[1..] == before[1..] + t;
      TrimStartDrops(before[1..], t);
    }
  }

  lemma {:induction false} TrimEndDrops(t: string, after: string)
    requires AllSpace(after) && (t == "" || !IsSpace(t[|t| - 1]))
    ensures TrimEnd(t + after) == t
  {
    if after == "" {
      assert t + after == t;
    } else {
      assert (t + after)[..|t + after| - 1] == t + after[..|after| - 1];
      TrimEndDrops(t, after[..|after| - 1]);
    }
  }

  /** And nothing else is left when all the white space at both ends is taken off. */
  lemma TrimUnique(before: string, t: string, after: string)
    requires AllSpace(before) && AllSpace(after) && Trimmed(t)
    ensures Trim(before + t + after) == t
  {
    assert before + t + after == before + (t + after);
    if t == "" {
      assert before + t + after == (before + after) + "";
      TrimStartDrops(before + after, "");
    } else {
      TrimStartDrops(before, t + after);
      TrimEndDrops(t, after);
    }
  }

  lemma TrimOfTrimmed(s: string)
    requires Trimmed(s)
    ensures Trim(s) == s
  {
  }

  /** Surrounding single spaces disappear, whatever is between them. */
  lemma TrimPadding(s: string)
    ensures Trim(" " + s) == Trim(s)
    ensures Trimmed(s) ==> Trim(s + " ") == s
  {
    assert (" " + s)[1..] == s;
    if Trimmed(s) {
      if s == "" {
        assert TrimStart(" ") == TrimStart(" "[1..]);
      } else {
        assert (s + " ")[..|s|] == s;
      }
    }
  }

  /** A property of strings that survives dropping an end character survives trimming. */
  ghost predicate HereditaryBy(p: string -> bool) {
    forall s: string :: p(s) && s != "" ==> p(s[1..]) && p(s[..|s| - 1])
  }

  lemma {:induction false} TrimKeepsStart(p: string -> bool, s: string)
    requires HereditaryBy(p) && p(s)
    ensures p(TrimStart(s))
  {
    if s != "" && IsSpace(s[0]) {
      TrimKeepsStart(p, s[1..]);
    }
  }

  lemma {:induction false} TrimKeepsEnd(p: string -> bool, s: string)
    requires HereditaryBy(p) && p(s)
    ensures p(TrimEnd(s))
  {
    if s != "" && IsSpace(s[|s| - 1]) {
      TrimKeepsEnd(p, s[..|s| - 1]);
    }
  }

  lemma TrimKeeps(p: string -> bool, s: string)
    requires HereditaryBy(p) && p(s)
    ensures p(Trim(s))
  {
    TrimKeepsStart(p, s);
    TrimKeepsEnd(p, TrimStart(s));
  }

  /** JavaScript's `parts.join(sep)`. */
  function Join(parts: seq<string>, sep: string): string {
    if parts == [] then ""
    else if |parts| == 1 then parts[0]
    else parts[0] + sep + Join(parts[1..], sep)
  }

  /** Index of the first `c`, or the length when there is none. */
  function IndexOf(s: string, c: char): (i: nat)
    ensures i <= |s| && c !in s[..i]
    ensures i < |s| ==> s[i] == c
    ensures c in s <==> i < |s|
  {
    if s == "" || s[0] == c then 0 else 1 + IndexOf(s[1..], c)
  }

  /** `s.split(c)` for a one-character separator: always at least one part. */
  function Split(s: string, c: char): (parts: seq<string>)
    ensures parts != []
    ensures forall p :: p in parts ==> c !in p
    decreases |s|
  {
    var i := IndexOf(s, c);
    if i == |s| then [s] else [s[..i]] + Split(s[i + 1..], c)
  }

  lemma {:induction false} IndexOfPrefix(a: string, b: string, c: char)
    requires c !in a
    ensures IndexOf(a + [c] + b, c) == |a|
  {
    if a != "" {
      assert (a + [c] + b)[1..] == a[1..] + [c] + b;
      IndexOfPrefix(a[1..], b, c);
    }
  }

  /** Splitting undoes joining whenever no part holds the separator. */
  lemma {:induction false} SplitJoin(parts: seq<string>, c: char)
    requires parts != []
    requires forall p :: p in parts ==> c !in p
    ensures Split(Join(parts, [c]), c) == parts
  {
    if |parts| > 1 {
      var rest := Join(parts[1..], [c]);
      IndexOfPrefix(parts[0], rest, c);
      var whole := parts[0] + [c] + rest;
      assert whole[..|parts[0]|] == parts[0];
      assert whole[|parts[0]| + 1..] == rest;
      SplitJoin(parts[1..], c);
    }
  }

  lemma JoinCons(head: string, rest: seq<string>, sep: string)
    requires rest != []
    ensures Join([head] + rest, sep) == head + sep + Join(rest, sep)
  {
    assert ([head] + rest)[1..] == rest;
  }

  lemma CutAt(s: string, i: nat)
    requires i < |s|
    ensures s == s[..i] + [s[i]] + s[i + 1..]
  {
  }

  /** Joining undoes splitting, always. */
  lemma {:induction false} JoinSplit(s: string, c: char)
    ensures Join(Split(s, c), [c]) == s
    decreases |s|
  {
    var i := IndexOf(s, c);
    if i < |s| {
      var rest := Split(s[i + 1..], c);
      JoinSplit(s[i + 1..], c);
      JoinCons(s[..i], rest, [c]);
      CutAt(s, i);
    }
  }

  lemma SplitAtFirst(a: string, b: string, c: char)
    requires c !in a
    ensures Split(a + [c] + b, c) == [a] + Split(b, c)
  {
    var whole := a + [c] + b;
    IndexOfPrefix(a, b, c);
    assert whole[..|a|] == a && whole[|a| + 1..] == b;
  }

  lemma Regroup(head: string, tail: string, b: string, c: char)
    ensures (head + [c] + tail) + [c] + b == head + [c] + (tail + [c] + b)
  {
  }

  lemma ConsConcat(head: string, s: seq<string>, t: seq<string>)
    ensures ([head] + s) + t == [head] + (s + t)
  {
  }

  lemma {:induction false} SplitConcat(a: string, b: string, c: char)
    ensures Split(a + [c] + b, c) == Split(a, c) + Split(b, c)
    decreases |a|
  {
    var i := IndexOf(a, c);
    if i == |a| {
      SplitAtFirst(a, b, c);
    } else {
      var head, tail := a[..i], a[i + 1..];
      CutAt(a, i);
      Regroup(head, tail, b, c);
      SplitAtFirst(head, tail + [c] + b, c);
      SplitConcat(tail, b, c);
      ConsConcat(head, Split(tail, c), Split(b, c));
    }
  }

  /** The parts of the parts. */
  function Pieces(parts: seq<string>, c: char): seq<string> {
    if parts == [] then [] else Split(parts[0], c) + Pieces(parts[1..], c)
  }

  /** Splitting what was joined gives the parts of the parts. */
  lemma {:induction false} SplitOfJoin(parts: seq<string>, c: char)
    requires parts != []
    ensures Split(Join(parts, [c]), c) == Pieces(parts, c)
  {
    if |parts| == 1 {
      assert Pieces(parts[1..], c) == [];
    } else {
      SplitConcat(parts[0], Join(parts[1..], [c]), c);
      SplitOfJoin(parts[1..], c);
    }
  }
}
