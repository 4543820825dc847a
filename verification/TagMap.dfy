/** The tag-map text field of the sync form: `parseTagMap`, `formatTagMap` and the form around them. */
module TagMap {
  import opened Options
  import opened Text

  const ARROW: char := '\U{2192}'

  // ---------------------------------------------------------------- the parser's pieces

  predicate IsDelimiter(c: char) { c == ',' || c == '\n' }

  /** One of `->`, the arrow, `:` and `=` starts at `i`. */
  predicate SeparatorAt(s: string, i: nat)
    requires i < |s|
  {
    s[i] == ARROW || s[i] == ':' || s[i] == '=' || (s[i] == '-' && i + 1 < |s| && s[i + 1] == '>')
  }

  predicate NoDelimiter(s: string) { forall i :: 0 <= i < |s| ==> !IsDelimiter(s[i]) }

  predicate NoSeparator(s: string) { forall i :: 0 <= i < |s| ==> !SeparatorAt(s, i) }

  function FirstDelimiter(s: string): (i: nat)
    ensures i <= |s| && NoDelimiter(s[..i])
    ensures i < |s| ==> IsDelimiter(s[i])
  {
    if s == "" || IsDelimiter(s[0]) then 0 else 1 + FirstDelimiter(s[1..])
  }

  function DropDelimiters(s: string): (t: string)
    ensures |t| <= |s|
    ensures s != "" && IsDelimiter(s[0]) ==> |t| < |s|
  {
    if s != "" && IsDelimiter(s[0]) then DropDelimiters(s[1..]) else s
  }

  /** `text.split(/[\n,]+/)`: a run of delimiters separates once. */
  function SplitRuns(text: string): (parts: seq<string>)
    ensures parts != []
    ensures forall p :: p in parts ==> NoDelimiter(p)
    decreases |text|
  {
    var i := FirstDelimiter(text);
    if i == |text| then
      assert text[..i] == text;
      [text]
    else
      [text[..i]] + SplitRuns(DropDelimiters(text[i..]))
  }

  /** `entry.search(/->|arrow|[:=]/)`, with the length standing for -1. */
  function FirstSeparator(s: string): (i: nat)
    ensures i <= |s|
    ensures forall k :: 0 <= k < i ==> !SeparatorAt(s, k)
    ensures i < |s| ==> SeparatorAt(s, i)
  {
    if s == "" || SeparatorAt(s, 0) then 0
    else
      var i := 1 + FirstSeparator(s[1..]);
      assert forall k :: 1 <= k < |s| ==> SeparatorAt(s, k) == SeparatorAt(s[1..], k - 1);
      i
  }

  function ParsePart(part: string): Option<(string, string)> { ParseEntry(Trim(part)) }

  function ParseEntry(entry: string): Option<(string, string)> {
    if entry == "" then None
    else
      var sep := FirstSeparator(entry);
      if sep == |entry| then Some((entry, ""))
      else
        var tag := Trim(entry[..sep]);
        if tag == "" then None else Some((tag, Trim(AfterSeparator(entry, sep))))
  }

  /** `entry.slice(sep)` without its leading separator. */
  function AfterSeparator(entry: string, sep: nat): string
    requires sep < |entry| && SeparatorAt(entry, sep)
  {
    entry[sep + (if entry[sep] == '-' then 2 else 1)..]
  }

  /** `map[tag] = value` on an object literal; assigning a string to `__proto__` changes nothing. */
  function Assign(m: map<string, string>, tag: string, value: string): map<string, string> {
    if tag == "__proto__" then m else m[tag := value]
  }

  function AssignPart(m: map<string, string>, part: string): map<string, string> {
    match ParsePart(part)
    case None => m
    case Some((tag, value)) => Assign(m, tag, value)
  }

  function AssignParts(parts: seq<string>): map<string, string> {
    if parts == [] then map[] else AssignPart(AssignParts(parts[..|parts| - 1]), parts[|parts| - 1])
  }

  function Parse(text: string): map<string, string> { AssignParts(SplitRuns(text)) }

  /** `parseTagMap`. */
  method ParseTagMap(text: string) returns (m: map<string, string>)
    ensures m == Parse(text)
    ensures Printable(m)
  {
    m := map[];
    var parts := SplitRuns(text);
    for i := 0 to |parts|
      invariant m == AssignParts(parts[..i])
    {
      assert parts[..i + 1][..i] == parts[..i];
      var entry := Trim(parts[i]);
      if entry == "" { continue; }
      var sep := FirstSeparator(entry);
      if sep == |entry| {
        m := Assign(m, entry, "");
        continue;
      }
      var tag := Trim(entry[..sep]);
      var value := Trim(AfterSeparator(entry, sep));
      if tag != "" { m := Assign(m, tag, value); }
    }
    assert parts[..|parts|] == parts;
    ParsePrintable(text);
  }

  // ---------------------------------------------------------------- the printer

  /** The entries of a map in some enumeration order: each key once. */
  ghost predicate Enumerates(entries: seq<(string, string)>, m: map<string, string>) {
    && (forall i, j :: 0 <= i < j < |entries| ==> entries[i].0 != entries[j].0)
    && m == FromEntries(entries)
  }

  function FromEntries(entries: seq<(string, string)>): map<string, string> {
    if entries == [] then map[]
    else FromEntries(entries[..|entries| - 1])[entries[|entries| - 1].0 := entries[|entries| - 1].1]
  }

  function EntryText(entry: (string, string)): string { entry.0 + [' ', ARROW, ' '] + entry.1 }

  function EntryTexts(entries: seq<(string, string)>): seq<string> {
    seq(|entries|, i requires 0 <= i < |entries| => EntryText(entries[i]))
  }

  /** `formatTagMap`, for the enumeration order the object happens to have. */
  function Format(entries: seq<(string, string)>): string {
    Join(EntryTexts(entries), ", ")
  }

  // ---------------------------------------------------------------- the printable domain

  predicate PrintableKey(k: string) {
    k != "" && k != "__proto__" && Trimmed(k) && NoDelimiter(k) && NoSeparator(k)
  }

  predicate PrintableValue(v: string) { Trimmed(v) && NoDelimiter(v) }

  ghost predicate Printable(m: map<string, string>) {
    forall k :: k in m ==> PrintableKey(k) && PrintableValue(m[k])
  }

  lemma CleanIsHereditary()
    ensures HereditaryBy(NoDelimiter) && HereditaryBy(NoSeparator)
  {
    forall s: string | NoSeparator(s) && s != "" ensures NoSeparator(s[1..]) && NoSeparator(s[..|s| - 1]) {
      assert forall i :: 0 <= i < |s| - 1 ==> SeparatorAt(s[1..], i) == SeparatorAt(s, i + 1);
      var t := s[..|s| - 1];
      forall i | 0 <= i < |t| ensures !SeparatorAt(t, i) {
        assert !SeparatorAt(s, i);
      }
    }
  }

  lemma BeforeSeparatorClean(entry: string)
    ensures NoSeparator(entry[..FirstSeparator(entry)])
  {
    var sep := FirstSeparator(entry);
    forall i | 0 <= i < sep ensures !SeparatorAt(entry[..sep], i) { assert !SeparatorAt(entry, i); }
  }

  lemma ParsePartPrintable(part: string)
    requires NoDelimiter(part)
    ensures ParsePart(part).Some? && ParsePart(part).value.0 != "__proto__" ==>
              PrintableKey(ParsePart(part).value.0) && PrintableValue(ParsePart(part).value.1)
  {
    CleanIsHereditary();
    TrimKeeps(NoDelimiter, part);
    ParseEntryPrintable(Trim(part));
  }

  lemma ParseEntryPrintable(entry: string)
    requires NoDelimiter(entry) && Trimmed(entry)
    ensures ParseEntry(entry).Some? && ParseEntry(entry).value.0 != "__proto__" ==>
              PrintableKey(ParseEntry(entry).value.0) && PrintableValue(ParseEntry(entry).value.1)
  {
    var sep := FirstSeparator(entry);
    BeforeSeparatorClean(entry);
    if sep < |entry| {
      CleanIsHereditary();
      TrimKeeps(NoSeparator, entry[..sep]);
      TrimKeeps(NoDelimiter, entry[..sep]);
      TrimKeeps(NoDelimiter, AfterSeparator(entry, sep));
    } else {
      assert entry[..sep] == entry;
    }
  }

  lemma {:induction false} AssignPartsPrintable(parts: seq<string>)
    requires forall p :: p in parts ==> NoDelimiter(p)
    ensures Printable(AssignParts(parts))
  {
    if parts != [] {
      AssignPartsPrintable(parts[..|parts| - 1]);
      ParsePartPrintable(parts[|parts| - 1]);
    }
  }

  /** The parser always lands in the printable domain. */
  lemma ParsePrintable(text: string)
    ensures Printable(Parse(text))
  {
    AssignPartsPrintable(SplitRuns(text));
  }

  // ---------------------------------------------------------------- reading back what was printed

  lemma {:induction false} FirstDelimiterAfter(a: string, b: string)
    requires NoDelimiter(a) && b != "" && IsDelimiter(b[0])
    ensures FirstDelimiter(a + b) == |a|
  {
    if a != "" {
      assert (a + b)[1..] == a[1..] + b;
      FirstDelimiterAfter(a[1..], b);
    } else {
      assert a + b == b;
    }
  }

  lemma FirstDelimiterNone(a: string)
    requires NoDelimiter(a)
    ensures FirstDelimiter(a) == |a|
  {
  }

  function Padded(texts: seq<string>): seq<string> {
    seq(|texts|, i requires 0 <= i < |texts| => " " + texts[i])
  }

  lemma SplitAtComma(head: string, rest: string)
    requires NoDelimiter(head) && rest != "" && !IsDelimiter(rest[0])
    ensures SplitRuns(head + "," + rest) == [head] + SplitRuns(rest)
  {
    var text := head + "," + rest;
    assert text == head + ("," + rest);
    FirstDelimiterAfter(head, "," + rest);
    assert text[|head|..] == "," + rest && text[..|head|] == head;
    assert ("," + rest)[1..] == rest;
    assert DropDelimiters("," + rest) == DropDelimiters(rest) == rest;
  }

  /** Splitting joined texts gives them back, each after the first with the joining space in front. */
  lemma {:induction false} SplitOfJoined(lead: string, texts: seq<string>)
    requires texts != [] && NoDelimiter(lead)
    requires forall t :: t in texts ==> NoDelimiter(t)
    ensures SplitRuns(lead + Join(texts, ", ")) == [lead + texts[0]] + Padded(texts[1..])
    decreases |texts|
  {
    var head := lead + texts[0];
    assert NoDelimiter(texts[0]);
    if |texts| == 1 {
      FirstDelimiterNone(head);
    } else {
      var rest := " " + Join(texts[1..], ", ");
      assert lead + Join(texts, ", ") == head + "," + rest;
      SplitAtComma(head, rest);
      SplitOfJoined(" ", texts[1..]);
      PaddedCons(texts[1..]);
    }
  }

  lemma PaddedCons(texts: seq<string>)
    requires texts != []
    ensures Padded(texts) == [" " + texts[0]] + Padded(texts[1..])
  {
  }

  lemma {:induction false} FirstSeparatorAfter(key: string, value: string)
    requires NoSeparator(key)
    ensures FirstSeparator(key + [' ', ARROW] + value) == |key| + 1
  {
    var s := key + [' ', ARROW] + value;
    if key == "" {
      assert s[1..][0] == ARROW;
    } else {
      assert s[1..] == key[1..] + [' ', ARROW] + value;
      assert forall i :: 0 <= i < |key| - 1 ==> SeparatorAt(key[1..], i) == SeparatorAt(key, i + 1);
      assert !SeparatorAt(key, 0);
      FirstSeparatorAfter(key[1..], value);
    }
  }

  /** What is left of a printed entry once it is trimmed. */
  function Shown(entry: (string, string)): string {
    entry.0 + [' ', ARROW] + (if entry.1 == "" then "" else " " + entry.1)
  }

  lemma ShownIsTrimmed(entry: (string, string))
    requires PrintableKey(entry.0) && PrintableValue(entry.1)
    ensures Trim(EntryText(entry)) == Trim(" " + EntryText(entry)) == Shown(entry)
  {
    var shown := Shown(entry);
    assert Trimmed(shown);
    if entry.1 == "" {
      assert EntryText(entry) == shown + " ";
    } else {
      assert EntryText(entry) == shown;
    }
    TrimPadding(shown);
    TrimOfTrimmed(shown);
    TrimPadding(EntryText(entry));
  }

  lemma ParseShown(entry: (string, string))
    requires PrintableKey(entry.0) && PrintableValue(entry.1)
    ensures ParseEntry(Shown(entry)) == Some(entry)
  {
    var (key, value) := entry;
    var shown := Shown(entry);
    var tail := if value == "" then "" else " " + value;
    assert FirstSeparator(shown) == |key| + 1 by { FirstSeparatorAfter(key, tail); }
    assert Trim(shown[..|key| + 1]) == key by {
      assert shown[..|key| + 1] == key + " ";
      TrimPadding(key);
    }
    assert Trim(AfterSeparator(shown, |key| + 1)) == value by {
      assert AfterSeparator(shown, |key| + 1) == tail;
      TrimPadding(value);
      TrimOfTrimmed(value);
    }
  }

  lemma ParseEntryText(entry: (string, string))
    requires PrintableKey(entry.0) && PrintableValue(entry.1)
    ensures ParsePart(EntryText(entry)) == ParsePart(" " + EntryText(entry)) == Some(entry)
  {
    ShownIsTrimmed(entry);
    ParseShown(entry);
  }

  lemma {:induction false} AssignEntries(parts: seq<string>, entries: seq<(string, string)>)
    requires |parts| == |entries|
    requires forall i :: 0 <= i < |parts| ==> ParsePart(parts[i]) == Some(entries[i])
    requires forall i :: 0 <= i < |entries| ==> entries[i].0 != "__proto__"
    ensures AssignParts(parts) == FromEntries(entries)
  {
    if parts != [] {
      AssignEntries(parts[..|parts| - 1], entries[..|entries| - 1]);
    }
  }

  lemma {:induction false} EntryInMap(entries: seq<(string, string)>, i: nat)
    requires i < |entries|
    requires forall i, j :: 0 <= i < j < |entries| ==> entries[i].0 != entries[j].0
    ensures entries[i].0 in FromEntries(entries) && FromEntries(entries)[entries[i].0] == entries[i].1
  {
    if i < |entries| - 1 {
      EntryInMap(entries[..|entries| - 1], i);
    }
  }

  /** Printing then parsing returns the map for exactly the printable maps, in any enumeration order. */
  lemma FormatThenParse(m: map<string, string>, entries: seq<(string, string)>)
    requires Enumerates(entries, m)
    ensures Parse(Format(entries)) == m <==> Printable(m)
  {
    if Parse(Format(entries)) == m {
      ParsePrintable(Format(entries));
    }
    if Printable(m) {
      ParsePrinted(m, entries);
    }
  }

  lemma ParsePrinted(m: map<string, string>, entries: seq<(string, string)>)
    requires Enumerates(entries, m) && Printable(m)
    ensures Parse(Format(entries)) == m
  {
    if entries == [] {
      assert SplitRuns("") == [""];
      assert AssignParts([""]) == AssignPart(AssignParts([""][..0]), "");
    } else {
      forall i | 0 <= i < |entries|
        ensures PrintableKey(entries[i].0) && PrintableValue(entries[i].1)
      {
        EntryInMap(entries, i);
      }
      PartsOfPrinted(entries);
      AssignEntries(SplitRuns(Format(entries)), entries);
    }
  }

  lemma TextsOfPrinted(entries: seq<(string, string)>)
    requires entries != []
    requires forall i :: 0 <= i < |entries| ==> NoDelimiter(entries[i].0) && NoDelimiter(entries[i].1)
    ensures SplitRuns(Format(entries)) == [EntryText(entries[0])] + Padded(EntryTexts(entries)[1..])
  {
    var texts := EntryTexts(entries);
    forall t | t in texts ensures NoDelimiter(t) {
      var i :| 0 <= i < |texts| && texts[i] == t;
      assert NoDelimiter(entries[i].0) && NoDelimiter(entries[i].1);
    }
    SplitOfJoined("", texts);
    assert "" + Format(entries) == Format(entries);
    assert "" + texts[0] == texts[0];
  }

  lemma PartsOfPrinted(entries: seq<(string, string)>)
    requires entries != []
    requires forall i :: 0 <= i < |entries| ==> PrintableKey(entries[i].0) && PrintableValue(entries[i].1)
    ensures var parts := SplitRuns(Format(entries));
            |parts| == |entries| && forall i :: 0 <= i < |parts| ==> ParsePart(parts[i]) == Some(entries[i])
  {
    TextsOfPrinted(entries);
    var parts := SplitRuns(Format(entries));
    forall i | 0 <= i < |parts| ensures ParsePart(parts[i]) == Some(entries[i]) {
      ParseEntryText(entries[i]);
      assert i > 0 ==> parts[i] == " " + EntryTexts(entries)[1..][i - 1];
    }
  }

  /** Parsing is a canonicalisation: printing the parsed map and parsing again changes nothing. */
  lemma ParseFormatParse(text: string, entries: seq<(string, string)>)
    requires Enumerates(entries, Parse(text))
    ensures Parse(Format(entries)) == Parse(text)
  {
    ParsePrintable(text);
    FormatThenParse(Parse(text), entries);
  }

  // ---------------------------------------------------------------- the sync form

  /** The text the form opens with: empty for a sync without an override. */
  function OpenedText(override: Option<seq<(string, string)>>): string {
    match override
    case None => ""
    case Some(entries) => Format(entries)
  }

  /** What `submit` sends for the text in the field: nothing when it is blank. */
  function SubmittedOverride(text: string): Option<map<string, string>> {
    if Trim(text) == "" then None else Some(Parse(text))
  }

  lemma {:induction false} TrimSeesInk(s: string, i: nat)
    requires i < |s| && !IsSpace(s[i])
    ensures Trim(s) != ""
  {
    TrimStartSeesInk(s, i);
  }

  lemma {:induction false} TrimStartSeesInk(s: string, i: nat)
    requires i < |s| && !IsSpace(s[i])
    ensures TrimStart(s) != "" && TrimEnd(TrimStart(s)) != ""
  {
    if IsSpace(s[0]) {
      TrimStartSeesInk(s[1..], i - 1);
    } else {
      TrimEndSeesInk(s, i);
    }
  }

  lemma {:induction false} TrimEndSeesInk(s: string, i: nat)
    requires i < |s| && !IsSpace(s[i])
    ensures TrimEnd(s) != ""
  {
    if IsSpace(s[|s| - 1]) {
      TrimEndSeesInk(s[..|s| - 1], i);
    }
  }

  lemma FormatHasInk(entries: seq<(string, string)>)
    requires entries != []
    ensures Trim(Format(entries)) != ""
  {
    var i := |entries[0].0| + 1;
    assert EntryText(entries[0])[i] == ARROW;
    TrimSeesInk(Format(entries), i);
  }

  // ---------------------------------------------------------------- the stored override

  /** `_validate_tag_map`: every value is one the server knows. */
  ghost predicate Valid(known: set<string>, m: map<string, string>) { forall tag :: tag in m ==> m[tag] in known }

  ghost predicate ValidOverride(known: set<string>, override: Option<map<string, string>>) {
    override.Some? ==> Valid(known, override.value)
  }

  /** `patch_sync` on the override: nothing sent keeps what is stored, and a refused request changes nothing. */
  ghost function StoredAfter(known: set<string>, stored: Option<map<string, string>>, sent: Option<map<string, string>>)
    : Option<map<string, string>>
  {
    var next := if sent.Some? then sent else stored;
    if ValidOverride(known, next) then next else stored
  }

  /** Reopening a sync and saving it untouched. The form opened with a copy `m` of the override; `stored` is what the
      server holds by now, and the request does not compare the two. The stored override survives exactly when
      nothing is sent, what is sent is refused, or it is what is sent; so a printable copy, however old, overwrites
      it. When the copy is current, that is: when it is empty, printable, or reads back as something refused. */
  lemma ReopenThenSave(known: set<string>, stored: Option<map<string, string>>,
                       m: map<string, string>, entries: seq<(string, string)>)
    requires Enumerates(entries, m) && Valid(known, m) && ValidOverride(known, stored)
    ensures var sent := SubmittedOverride(OpenedText(Some(entries)));
            var after, back := StoredAfter(known, stored, sent), Parse(Format(entries));
            && (sent == Some(m) <==> entries != [] && Printable(m))
            && (after == stored <==> entries == [] || !Valid(known, back) || stored == Some(back))
            && (entries != [] && Printable(m) ==> after == Some(m))
            && (stored == Some(m) ==>
                  (after == stored <==> entries == [] || Printable(m) || !Valid(known, back)))
    ensures StoredAfter(known, stored, SubmittedOverride(OpenedText(None))) == stored
  {
    FormatThenParse(m, entries);
    if entries != [] {
      FormatHasInk(entries);
    }
  }

  lemma {:induction false} TrimStartConcat(a: string, b: string)
    ensures TrimStart(a + b) == if TrimStart(a) == "" then TrimStart(b) else TrimStart(a) + b
  {
    if a == "" {
      assert a + b == b;
    } else {
      assert (a + b)[1..] == a[1..] + b;
      if IsSpace(a[0]) { TrimStartConcat(a[1..], b); }
    }
  }

  lemma {:induction false} TrimStartPlain(k: string)
    requires NoSeparator(k)
    ensures NoSeparator(TrimStart(k))
  {
    if k != "" && IsSpace(k[0]) {
      assert forall i :: 0 <= i < |k| - 1 ==> SeparatorAt(k[1..], i) == SeparatorAt(k, i + 1);
      TrimStartPlain(k[1..]);
    }
  }

  function Prefix(k: string): string { if k == "" then "" else k + " " }

  function Tail(value: string): string { if value == "" then "" else " " + value }

  lemma StartTrimmed(key: string, value: string)
    ensures TrimStart(EntryText((key, value))) == Prefix(TrimStart(key)) + ([ARROW, ' '] + value)
  {
    var k, body := TrimStart(key), [ARROW, ' '] + value;
    assert EntryText((key, value)) == key + ([' '] + body);
    TrimStartConcat(key, [' '] + body);
    if k == "" {
      assert ([' '] + body)[1..] == body;
      assert TrimStart(body) == body;
    } else {
      assert k + ([' '] + body) == (k + " ") + body;
    }
  }

  lemma EndTrimmed(s: string)
    requires s != "" && !IsSpace(s[|s| - 1])
    ensures TrimEnd(s) == s && TrimEnd(s + " ") == s
  {
    assert (s + " ")[..|s|] == s;
  }

  /** How printed pieces regroup. */
  lemma Pieces(a: string, c: char, b: string)
    ensures a + ([c, ' '] + "") == (a + [c]) + " "
    ensures a + ([c, ' '] + b) == a + ([c] + (" " + b))
    ensures a + ([c] + "") == a + [c]
    ensures "" + ([c] + b) == [c] + b
    ensures (a + " ") + ([c] + b) == a + [' ', c] + b
  {
  }

  lemma LastOf(a: string, c: char, b: string)
    requires b != ""
    ensures var s := a + ([c] + (" " + b)); s != "" && s[|s| - 1] == b[|b| - 1]
  {
  }

  lemma EndOfEntry(prefix: string, value: string)
    requires PrintableValue(value)
    ensures TrimEnd(prefix + ([ARROW, ' '] + value)) == prefix + ([ARROW] + Tail(value))
  {
    Pieces(prefix, ARROW, value);
    if value == "" {
      EndTrimmed(prefix + [ARROW]);
    } else {
      LastOf(prefix, ARROW, value);
      EndTrimmed(prefix + ([ARROW] + (" " + value)));
    }
  }

  /** What is left of a printed entry, whatever surrounds its key. */
  lemma TrimmedEntry(key: string, value: string)
    requires PrintableValue(value)
    ensures Trim(EntryText((key, value))) == Prefix(TrimStart(key)) + ([ARROW] + Tail(value))
  {
    StartTrimmed(key, value);
    EndOfEntry(Prefix(TrimStart(key)), value);
  }

  lemma TailIsValue(value: string)
    requires PrintableValue(value)
    ensures Trim(Tail(value)) == value
  {
    TrimPadding(value);
    TrimOfTrimmed(value);
  }

  lemma ReadsNothing(value: string)
    ensures ParseEntry([ARROW] + Tail(value)) == None
  {
    var entry := [ARROW] + Tail(value);
    assert SeparatorAt(entry, 0) && FirstSeparator(entry) == 0 && entry[..0] == "" && Trim("") == "";
  }

  lemma ReadsValue(k: string, value: string)
    requires NoSeparator(k) && PrintableValue(value)
    ensures var read := ParseEntry(k + [' ', ARROW] + Tail(value)); read.Some? ==> read.value.1 == value
  {
    var entry := k + [' ', ARROW] + Tail(value);
    FirstSeparatorAfter(k, Tail(value));
    assert entry[|k| + 1] == ARROW && entry[|k| + 2..] == Tail(value);
    TailIsValue(value);
  }

  /** A key without separators leaves the value alone: the entry reads back with it, or not at all. */
  lemma ValueReadsBack(key: string, value: string)
    requires NoSeparator(key) && PrintableValue(value)
    ensures var read := ParsePart(EntryText((key, value)));
            && ParsePart(" " + EntryText((key, value))) == read
            && (read.Some? ==> read.value.1 == value)
  {
    var k := TrimStart(key);
    TrimPadding(EntryText((key, value)));
    TrimmedEntry(key, value);
    if k == "" {
      Pieces("", ARROW, Tail(value));
      ReadsNothing(value);
    } else {
      TrimStartPlain(key);
      Pieces(k, ARROW, Tail(value));
      ReadsValue(k, value);
    }
  }

  lemma {:induction false} ValuesStayKnown(known: set<string>, parts: seq<string>)
    requires forall i :: 0 <= i < |parts| && ParsePart(parts[i]).Some? ==> ParsePart(parts[i]).value.1 in known
    ensures Valid(known, AssignParts(parts))
  {
    if parts != [] {
      ValuesStayKnown(known, parts[..|parts| - 1]);
    }
  }

  /** For tags without delimiters or separators the server refuses nothing the form sends: a current copy survives
      exactly when it is empty or printable. */
  lemma PlainTagsNeverRefused(known: set<string>, m: map<string, string>, entries: seq<(string, string)>)
    requires Enumerates(entries, m) && Valid(known, m) && forall v :: v in known ==> PrintableValue(v)
    requires forall tag :: tag in m ==> NoDelimiter(tag) && NoSeparator(tag)
    ensures StoredAfter(known, Some(m), SubmittedOverride(OpenedText(Some(entries)))) == Some(m) <==>
              entries == [] || Printable(m)
  {
    if entries != [] {
      forall i | 0 <= i < |entries|
        ensures NoDelimiter(entries[i].0) && NoSeparator(entries[i].0) && entries[i].1 in known
      {
        EntryInMap(entries, i);
      }
      TextsOfPrinted(entries);
      var parts := SplitRuns(Format(entries));
      forall i | 0 <= i < |parts| && ParsePart(parts[i]).Some? ensures ParsePart(parts[i]).value.1 in known {
        ValueReadsBack(entries[i].0, entries[i].1);
        assert i > 0 ==> parts[i] == " " + EntryTexts(entries)[1..][i - 1];
      }
      ValuesStayKnown(known, parts);
    }
    ReopenThenSave(known, Some(m), m, entries);
  }

  /** An override the form alters: an entry for the unnamed tag does not come back. */
  lemma UnnamedTagDropped(known: set<string>)
    requires "" in known
    ensures var m, entries := map["" := ""], [("", "")];
            && Enumerates(entries, m) && Valid(known, m)
            && StoredAfter(known, Some(m), SubmittedOverride(OpenedText(Some(entries)))) == Some(map[])
  {
    var m, entries := map["" := ""], [("", "")];
    assert entries[0].0 in m && m[entries[0].0] == entries[0].1;
    FormatHasInk(entries);
    ArrowAlone();
  }

  lemma ArrowAlone()
    ensures Parse(Format([("", "")])) == map[]
  {
    var text := Format([("", "")]);
    assert EntryTexts([("", "")]) == [EntryText(("", ""))];
    assert text == [' ', ARROW, ' '];
    FirstDelimiterNone(text);
    assert SplitRuns(text) == [text];
    assert Trim(text) == [ARROW] by {
      assert text[1..] == [ARROW, ' '] && [ARROW, ' '][..1] == [ARROW];
      assert TrimStart(text) == TrimStart(text[1..]) == [ARROW, ' '];
      assert TrimEnd([ARROW, ' ']) == TrimEnd([ARROW]) == [ARROW];
    }
    assert SeparatorAt([ARROW], 0) && FirstSeparator([ARROW]) == 0 && Trim([ARROW][..0]) == "";
    assert ParsePart(text) == None;
  }

  /** Whatever is typed, an override once stored is never taken away; and a blank field leaves it as it is. */
  lemma NeverCleared(known: set<string>, stored: Option<map<string, string>>, text: string)
    requires ValidOverride(known, stored)
    ensures stored.Some? ==> StoredAfter(known, stored, SubmittedOverride(text)).Some?
    ensures Trim(text) == "" ==> StoredAfter(known, stored, SubmittedOverride(text)) == stored
    ensures ValidOverride(known, StoredAfter(known, stored, SubmittedOverride(text)))
  {
  }
}
