/** What a text typed into the tag-map field says: entry by entry, and each entry by its first separator. */
module TagMapText {
  import opened Options
  import opened Text
  import opened TagMap

  // ---------------------------------------------------------------- one entry after the other

  lemma OverAssign(m: map<string, string>, n: map<string, string>, part: string)
    ensures m + AssignPart(n, part) == AssignPart(m + n, part)
  {
  }

  lemma {:induction false} AssignPartsCons(part: string, parts: seq<string>)
    ensures AssignParts([part] + parts) == AssignPart(map[], part) + AssignParts(parts)
  {
    var all := [part] + parts;
    if parts == [] {
      assert all == [part] && all[..0] == [];
    } else {
      assert all[..|all| - 1] == [part] + parts[..|parts| - 1];
      AssignPartsCons(part, parts[..|parts| - 1]);
      OverAssign(AssignPart(map[], part), AssignParts(parts[..|parts| - 1]), parts[|parts| - 1]);
    }
  }

  lemma BlankPart()
    ensures AssignPart(map[], "") == map[]
  {
  }

  lemma LeadingDelimiter(text: string)
    requires text != "" && IsDelimiter(text[0])
    ensures Parse(text) == Parse(DropDelimiters(text))
  {
    assert FirstDelimiter(text) == 0 && text[..0] == "" && text[0..] == text;
    AssignPartsCons("", SplitRuns(DropDelimiters(text)));
    BlankPart();
    assert map[] + Parse(DropDelimiters(text)) == Parse(DropDelimiters(text));
  }

  /** Delimiters at the beginning say nothing. */
  lemma DelimitersDropped(text: string)
    ensures Parse(DropDelimiters(text)) == Parse(text)
  {
    if text != "" && IsDelimiter(text[0]) { LeadingDelimiter(text); }
  }

  /** What stands before the first delimiter, and then the rest. */
  lemma ParseStep(head: string, d: char, rest: string)
    requires NoDelimiter(head) && IsDelimiter(d)
    ensures Parse(head + ([d] + rest)) == AssignPart(map[], head) + Parse(rest)
  {
    var text := head + ([d] + rest);
    FirstDelimiterAfter(head, [d] + rest);
    assert text[..|head|] == head && text[|head|..] == [d] + rest && ([d] + rest)[1..] == rest;
    AssignPartsCons(head, SplitRuns(DropDelimiters(rest)));
    DelimitersDropped(rest);
  }

  lemma ParseAlone(text: string)
    requires NoDelimiter(text)
    ensures Parse(text) == AssignPart(map[], text)
  {
    FirstDelimiterNone(text);
    assert SplitRuns(text) == [text] && [text][..0] == [];
    assert AssignParts([text]) == AssignPart(AssignParts([text][..0]), text);
  }

  lemma CutAtDelimiter(a: string, i: nat)
    requires i < |a|
    ensures a == a[..i] + ([a[i]] + a[i + 1..])
  {
    HeadAndTail(a[i..]);
    assert a == a[..i] + a[i..];
    assert a[i..][1..] == a[i + 1..];
  }

  lemma HeadAndTail(t: string)
    requires t != ""
    ensures t == [t[0]] + t[1..]
  {
  }

  lemma Regrouped(a: string, c: string, b: string, e: string)
    ensures (a + (c + b)) + e == a + (c + (b + e))
  {
  }

  /** A comma or a newline separates what the two sides say; of a tag said twice the last counts. */
  lemma {:induction false} ParseConcat(a: string, d: char, b: string)
    requires d == ',' || d == '\n'
    ensures Parse(a + ([d] + b)) == Parse(a) + Parse(b)
    decreases |a|
  {
    var i := FirstDelimiter(a);
    if i == |a| {
      assert a[..i] == a;
      ParseAlone(a);
      ParseStep(a, d, b);
    } else {
      var head, rest := a[..i], a[i + 1..];
      CutAtDelimiter(a, i);
      ParseConcat(rest, d, b);
      ParseCut(head, a[i], rest, d, b);
    }
  }

  lemma ParseCut(head: string, c: char, rest: string, d: char, b: string)
    requires NoDelimiter(head) && IsDelimiter(c) && Parse(rest + ([d] + b)) == Parse(rest) + Parse(b)
    ensures Parse((head + ([c] + rest)) + ([d] + b)) == Parse(head + ([c] + rest)) + Parse(b)
  {
    Regrouped(head, [c], rest, [d] + b);
    ParseStep(head, c, rest + ([d] + b));
    ParseStep(head, c, rest);
    MapsInARow(AssignPart(map[], head), Parse(rest), Parse(b));
  }

  lemma MapsInARow(m: map<string, string>, n: map<string, string>, o: map<string, string>)
    ensures m + (n + o) == (m + n) + o
  {
  }

  // ---------------------------------------------------------------- one entry

  /** The four separators: `->`, the arrow, `:` and `=`. */
  predicate IsSeparator(sep: string) { sep == "->" || sep == [ARROW] || sep == ":" || sep == "=" }

  /** No delimiter: one entry. */
  predicate OneEntry(s: string) { ',' !in s && '\n' !in s }

  /** Nothing an entry could be cut at. */
  predicate Uncut(s: string) {
    ':' !in s && '=' !in s && ARROW !in s && forall i :: 0 <= i < |s| - 1 ==> !(s[i] == '-' && s[i + 1] == '>')
  }

  lemma OneEntryExactly(s: string)
    ensures OneEntry(s) <==> NoDelimiter(s)
  {
  }

  lemma UncutExactly(s: string)
    ensures Uncut(s) <==> NoSeparator(s)
  {
    if NoSeparator(s) {
      forall i | 0 <= i < |s| ensures s[i] != ':' && s[i] != '=' && s[i] != ARROW { assert !SeparatorAt(s, i); }
      forall i | 0 <= i < |s| - 1 ensures !(s[i] == '-' && s[i + 1] == '>') { assert !SeparatorAt(s, i); }
    }
  }

  lemma FirstSeparatorIs(a: string, sep: string, b: string)
    requires NoSeparator(a) && IsSeparator(sep)
    ensures var s := a + (sep + b);
            FirstSeparator(s) == |a| && s[..|a|] == a && AfterSeparator(s, |a|) == b
  {
    var s := a + (sep + b);
    assert s[|a|] == sep[0] && (|sep| == 2 ==> s[|a| + 1] == '>');
    assert SeparatorAt(s, |a|);
    forall i | 0 <= i < |a| ensures !SeparatorAt(s, i) { assert !SeparatorAt(a, i); }
    assert s[|a| + |sep|..] == b;
  }

  /** Where the white space goes when an entry is trimmed as a whole. */
  lemma TrimAround(a: string, sep: string, b: string) returns (c: string, e: string)
    requires IsSeparator(sep)
    ensures Trim(a + (sep + b)) == c + (sep + e) && Trim(c) == Trim(a) && Trim(e) == Trim(b)
    ensures exists k :: 0 <= k <= |a| && c == a[k..]
  {
    var k := TrimStartExactly(a);
    c := a[k..];
    TrimEndExactly(b);
    e := TrimEnd(b);
    var before, after := a[..k], b[|e|..];
    Sandwich(before, c, sep, e, after);
    assert before + c == a && e + after == b;
    TrimmedEnds(c, sep, e);
    TrimUnique(before, c + (sep + e), after);
    SameTrimStart(before, c);
    SameTrimEnd(e, after);
  }

  lemma TrimmedEnds(c: string, sep: string, e: string)
    requires IsSeparator(sep) && (c == "" || !IsSpace(c[0])) && (e == "" || !IsSpace(e[|e| - 1]))
    ensures Trimmed(c + (sep + e))
  {
    var s := c + (sep + e);
    var n, m := |s| - 1, |c|;
    assert !IsSpace(sep[0]) && !IsSpace(sep[|sep| - 1]);
    if c == "" { assert s[0] == sep[0]; } else { assert s[0] == c[0]; }
    if e == "" { assert s[n] == sep[n - m]; } else { assert s[n] == e[|e| - 1]; }
  }

  lemma Sandwich(before: string, c: string, sep: string, e: string, after: string)
    ensures (before + c) + (sep + (e + after)) == before + (c + (sep + e)) + after
  {
  }

  lemma SameTrimStart(before: string, c: string)
    requires AllSpace(before)
    ensures Trim(before + c) == Trim(c)
  {
    var p, q := TrimExactly(c);
    assert before + c == (before + p) + Trim(c) + q;
    TrimUnique(before + p, Trim(c), q);
  }

  lemma SameTrimEnd(e: string, after: string)
    requires AllSpace(after)
    ensures Trim(e + after) == Trim(e)
  {
    var p, q := TrimExactly(e);
    assert e + after == p + Trim(e) + (q + after);
    TrimUnique(p, Trim(e), q + after);
  }

  lemma SuffixHasNoSeparator(a: string, k: nat)
    requires NoSeparator(a) && k <= |a|
    ensures NoSeparator(a[k..])
  {
    var c := a[k..];
    forall i | 0 <= i < |c| ensures !SeparatorAt(c, i) { assert !SeparatorAt(a, k + i); }
  }

  /** What one tag and value make of the map: nothing for a blank tag, nor for the one name that cannot be assigned. */
  function OneTag(tag: string, value: string): map<string, string> {
    if tag == "" || tag == "__proto__" then map[] else map[tag := value]
  }

  /** An entry is cut at its first separator, whichever of the four it is; both sides are trimmed. */
  lemma EntryWithSeparator(a: string, sep: string, b: string)
    requires OneEntry(a) && Uncut(a) && IsSeparator(sep) && OneEntry(b)
    ensures Parse(a + (sep + b)) == OneTag(Trim(a), Trim(b))
  {
    OneEntryExactly(a);
    OneEntryExactly(b);
    UncutExactly(a);
    var c, e := TrimAround(a, sep, b);
    var k :| 0 <= k <= |a| && c == a[k..];
    SuffixHasNoSeparator(a, k);
    EntryCut(c, sep, e);
    NoDelimiterAround(a, sep, b);
    ParseAlone(a + (sep + b));
    PartOf(a + (sep + b), Trim(a), Trim(b));
  }

  lemma EntryCut(c: string, sep: string, e: string)
    requires NoSeparator(c) && IsSeparator(sep)
    ensures ParseEntry(c + (sep + e)) == if Trim(c) == "" then None else Some((Trim(c), Trim(e)))
  {
    FirstSeparatorIs(c, sep, e);
  }

  lemma NoDelimiterAround(a: string, sep: string, b: string)
    requires NoDelimiter(a) && IsSeparator(sep) && NoDelimiter(b)
    ensures NoDelimiter(a + (sep + b))
  {
  }

  lemma PartOf(part: string, tag: string, value: string)
    requires ParseEntry(Trim(part)) == if tag == "" then None else Some((tag, value))
    ensures AssignPart(map[], part) == OneTag(tag, value)
  {
  }

  /** An entry without a separator is a tag to ignore, and a blank one nothing. */
  lemma EntryWithoutSeparator(text: string)
    requires OneEntry(text) && Uncut(text)
    ensures Parse(text) == OneTag(Trim(text), "")
  {
    OneEntryExactly(text);
    UncutExactly(text);
    CleanIsHereditary();
    TrimKeeps(NoSeparator, text);
    ParseAlone(text);
    assert ParsePart(text) == if Trim(text) == "" then None else Some((Trim(text), ""));
  }

  // ---------------------------------------------------------------- what is printed

  /** Entries are printed `tag`, arrow, `value`, with single spaces, and separated by a comma and a space. */
  lemma {:induction false} FormatReads(tag: string, value: string, a: seq<(string, string)>, b: seq<(string, string)>)
    ensures Format([]) == ""
    ensures Format([(tag, value)]) == tag + " \U{2192} " + value
    ensures a != [] && b != [] ==> Format(a + b) == Format(a) + (", " + Format(b))
    decreases |a|
  {
    OneEntryText(tag, value);
    if a != [] && b != [] {
      TextsConcat(a, b);
      JoinConcat(EntryTexts(a), EntryTexts(b), ", ");
    }
  }

  lemma OneEntryText(tag: string, value: string)
    ensures Format([(tag, value)]) == tag + " \U{2192} " + value
  {
    var entry := (tag, value);
    assert EntryTexts([entry]) == [EntryText(entry)];
    assert [' ', ARROW, ' '] == " \U{2192} ";
  }

  lemma TextsConcat(a: seq<(string, string)>, b: seq<(string, string)>)
    ensures EntryTexts(a + b) == EntryTexts(a) + EntryTexts(b)
  {
  }

  lemma {:induction false} JoinConcat(a: seq<string>, b: seq<string>, sep: string)
    requires a != [] && b != []
    ensures Join(a + b, sep) == Join(a, sep) + (sep + Join(b, sep))
  {
    if |a| == 1 {
      assert a == [a[0]];
      JoinCons(a[0], b, sep);
    } else {
      assert a + b == [a[0]] + (a[1..] + b);
      JoinConcat(a[1..], b, sep);
      JoinCons(a[0], a[1..] + b, sep);
      Grouped(a[0], sep, Join(a[1..], sep), Join(b, sep));
    }
  }

  lemma Grouped(head: string, sep: string, rest: string, tail: string)
    ensures head + sep + (rest + (sep + tail)) == (head + sep + rest) + (sep + tail)
  {
  }
}
