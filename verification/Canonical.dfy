/** The canonical hasher of `canonical.py` over the RFC 8785 serializer of `formula/_jcs.py`. */
module Canonical {
  import opened Options
  import Collections
  import FloatText
  import opened JsonText
  import opened Numerals

  /** The Python values a payload can hold. A mapping keeps its insertion order. */
  datatype Value =
    | Null
    | Bool(b: bool)
    | Int(n: int)
    | Float(f: FloatText.Double)
    | Str(s: string)
    | List(items: seq<Value>)
    | Tuple(items: seq<Value>)
    | Dict(entries: seq<Entry>)
    | Mapping(entries: seq<Entry>)
    | Unsupported

  datatype Key = Name(name: string) | NotAString

  datatype Entry = Entry(key: Key, value: Value)

  type Member = (string, Value)

  // ---------------------------------------------------------------- meaning

  /** What a payload means, or that it is refused: mapping type, list against tuple and key order are gone. */
  ghost function Denote(v: Value): Result<Json>
    decreases v
  {
    match v
    case Null => Ok(JNull)
    case Bool(b) => Ok(JBool(b))
    case Int(n) => if -SAFE <= n <= SAFE then Ok(JNumber(FloatText.NumberOf(n))) else Error
    case Float(f) => if f.NotFinite? then Error else Ok(JNumber(f))
    case Str(s) => Ok(JString(s))
    case List(items) => (var js :- DenoteItems(items, v); Ok(JArray(js)))
    case Tuple(items) => (var js :- DenoteItems(items, v); Ok(JArray(js)))
    case Dict(_) => (var ms :- Members(v); var m :- DenoteMembers(ms, v); Ok(JObject(m)))
    case Mapping(_) => (var ms :- Members(v); var m :- DenoteMembers(ms, v); Ok(JObject(m)))
    case _ => Error
  }

  ghost function DenoteItems(items: seq<Value>, bound: Value): (r: Result<seq<Json>>)
    requires forall x :: x in items ==> x < bound
    ensures r.Ok? ==> |r.value| == |items|
    decreases bound, |items|
  {
    if items == [] then Ok([])
    else
      assert items[0] in items && forall x :: x in items[1..] ==> x in items;
      var j :- Denote(items[0]);
      var js :- DenoteItems(items[1..], bound);
      Ok([j] + js)
  }

  ghost function DenoteMembers(ms: seq<Member>, bound: Value): Result<map<string, Json>>
    requires forall m :: m in ms ==> m.1 < bound
    decreases bound, |ms|
  {
    if ms == [] then Ok(map[])
    else
      assert ms[0] in ms;
      var j :- Denote(ms[0].1);
      var rest :- DenoteMembers(ms[1..], bound);
      Ok(rest[ms[0].0 := j])
  }

  /** `value.items()`, refused when a key is not a string. */
  function Members(v: Value): (r: Result<seq<Member>>)
    requires v.Dict? || v.Mapping?
    ensures r.Ok? ==> forall m :: m in r.value ==> m.1 < v
  {
    if exists i :: 0 <= i < |v.entries| && v.entries[i].key.NotAString? then Error
    else
      var ms := seq(|v.entries|, i requires 0 <= i < |v.entries| => (v.entries[i].key.name, v.entries[i].value));
      assert forall i :: 0 <= i < |ms| ==> v.entries[i].value < v;
      Ok(ms)
  }

  // ---------------------------------------------------------------- text of scalars

  /** The escapes of section 3.2.2.2 of RFC 8785. */
  function EscapeChar(c: char): (t: string)
    ensures t != "" && t[0] != '"'
  {
    if c == '\\' then "\\\\"
    else if c == '"' then "\\\""
    else if c == '\U{08}' then "\\b"
    else if c == '\U{0C}' then "\\f"
    else if c == '\n' then "\\n"
    else if c == '\r' then "\\r"
    else if c == '\t' then "\\t"
    else if c < '\U{20}' then "\\u00" + [Digit(c as int / 16), Digit(c as int % 16)]
    else [c]
  }

  function Escape(s: string): string { if s == "" then "" else EscapeChar(s[0]) + Escape(s[1..]) }

  function Quote(s: string): string { "\"" + Escape(s) + "\"" }

  // ---------------------------------------------------------------- key order

  /** Section 3.2.3 of RFC 8785: by UTF-16 code units. */
  predicate KeyLess(k: string, l: string) { Collections.Lex(Utf16(k), Utf16(l)) }

  predicate MemberLess(m: Member, n: Member) { KeyLess(m.0, n.0) }

  /** Object members in key order, section 3.2.3 of RFC 8785. */
  function Sort(ms: seq<Member>): (r: seq<Member>)
    ensures multiset(r) == multiset(ms)
  {
    Collections.Sort(ms, MemberLess)
  }

  // ---------------------------------------------------------------- the code

  /** `_plain`: mappings become dicts and sequences lists, at every depth. */
  function Plain(v: Value): Value
    decreases v
  {
    match v
    case Mapping(entries) => Dict(PlainEntries(entries, v))
    case Dict(entries) => Dict(PlainEntries(entries, v))
    case List(items) => List(PlainItems(items, v))
    case Tuple(items) => List(PlainItems(items, v))
    case _ => v
  }

  function PlainItems(items: seq<Value>, ghost bound: Value): (r: seq<Value>)
    requires forall x :: x in items ==> x < bound
    ensures |r| == |items|
    decreases bound, |items|
  {
    if items == [] then []
    else
      assert items[0] in items && forall x :: x in items[1..] ==> x in items;
      [Plain(items[0])] + PlainItems(items[1..], bound)
  }

  function PlainEntries(entries: seq<Entry>, ghost bound: Value): (r: seq<Entry>)
    requires forall e :: e in entries ==> e.value < bound
    ensures |r| == |entries|
    decreases bound, |entries|
  {
    if entries == [] then []
    else
      assert entries[0] in entries;
      [Entry(entries[0].key, Plain(entries[0].value))] + PlainEntries(entries[1..], bound)
  }

  /** `_jcs.dump`, the text before its UTF-8 encoding. */
  function Dump(v: Value): Result<string>
    decreases v
  {
    match v
    case Null => Ok("null")
    case Bool(b) => Ok(if b then "true" else "false")
    case Int(n) => if -SAFE <= n <= SAFE then Ok(IntText(n)) else Error
    case Float(f) => if f.NotFinite? then Error else Ok(FloatText.SerializedText(f).text)
    case Str(s) => Ok(Quote(s))
    case List(items) => (var body :- DumpItems(items, v); Ok("[" + body))
    case Tuple(items) => (var body :- DumpItems(items, v); Ok("[" + body))
    case Dict(_) =>
      var ms :- Members(v);
      assert forall m :: m in Sort(ms) ==> m in multiset(Sort(ms));
      var body :- DumpMembers(Sort(ms), v);
      Ok("{" + body)
    case _ => Error
  }

  /** The items of an array and its closing bracket. */
  function DumpItems(items: seq<Value>, ghost bound: Value): Result<string>
    requires forall x :: x in items ==> x < bound
    decreases bound, |items|
  {
    if items == [] then Ok("]")
    else
      assert items[0] in items && forall x :: x in items[1..] ==> x in items;
      var first :- Dump(items[0]);
      var rest :- DumpItems(items[1..], bound);
      Ok(first + (if |items| > 1 then "," else "") + rest)
  }

  /** The members of an object, in the order given, and its closing brace. */
  function DumpMembers(ms: seq<Member>, ghost bound: Value): Result<string>
    requires forall m :: m in ms ==> m.1 < bound
    decreases bound, |ms|
  {
    if ms == [] then Ok("}")
    else
      assert ms[0] in ms;
      var first :- Dump(ms[0].1);
      var rest :- DumpMembers(ms[1..], bound);
      Ok(Quote(ms[0].0) + ":" + first + (if |ms| > 1 then "," else "") + rest)
  }

  /** `jcs_sha256` up to the digest, which is taken to be collision-free: the text it is a digest of. */
  function JcsText(payload: Value): Result<string> {
    if payload.Dict? || payload.Mapping? then Dump(Plain(payload)) else Error
  }

  function Envelope(name: string, version: string, payload: Value): Value {
    Dict([Entry(Name("contract_name"), Str(name)), Entry(Name("contract_version"), Str(version)),
          Entry(Name("payload"), payload)])
  }

  /** `contract_hash_v1`: an unregistered pair is refused. */
  function ContractText(registered: set<(string, string)>, name: string, version: string,
                        payload: Value): Result<string> {
    if (name, version) in registered then JcsText(Envelope(name, version, payload)) else Error
  }

  // ---------------------------------------------------------------- well-formed values

  predicate DistinctNames(entries: seq<Entry>) {
    forall i, j :: 0 <= i < j < |entries| && entries[i].key.Name? ==> entries[i].key != entries[j].key
  }

  predicate DistinctKeys(ms: seq<Member>) {
    forall i, j :: 0 <= i < j < |ms| ==> ms[i].0 != ms[j].0
  }

  /** What Python guarantees: a mapping has each key once. */
  predicate WellFormed(v: Value)
    decreases v
  {
    match v
    case List(items) => forall i :: 0 <= i < |items| ==> WellFormed(items[i])
    case Tuple(items) => forall i :: 0 <= i < |items| ==> WellFormed(items[i])
    case Dict(entries) => DistinctNames(entries) && forall i :: 0 <= i < |entries| ==> WellFormed(entries[i].value)
    case Mapping(entries) => DistinctNames(entries) && forall i :: 0 <= i < |entries| ==> WellFormed(entries[i].value)
    case _ => true
  }

  /** Well-formed with no mapping but dicts left, as the serializer needs it. */
  predicate Fit(v: Value)
    decreases v
  {
    match v
    case List(items) => forall i :: 0 <= i < |items| ==> Fit(items[i])
    case Tuple(items) => forall i :: 0 <= i < |items| ==> Fit(items[i])
    case Dict(entries) => DistinctNames(entries) && forall i :: 0 <= i < |entries| ==> Fit(entries[i].value)
    case Mapping(_) => false
    case _ => true
  }

  // ---------------------------------------------------------------- `_plain` keeps the meaning

  lemma {:induction false} PlainKeepsMeaning(v: Value)
    requires WellFormed(v)
    ensures Fit(Plain(v)) && Denote(Plain(v)) == Denote(v)
    decreases v
  {
    match v
    case List(items) => PlainSequence(v);
    case Tuple(items) => PlainSequence(v);
    case Dict(entries) => PlainMapping(v);
    case Mapping(entries) => PlainMapping(v);
    case _ =>
  }

  lemma {:induction false} PlainItemIs(items: seq<Value>, bound: Value, i: nat)
    requires (forall x :: x in items ==> x < bound) && i < |items|
    ensures PlainItems(items, bound)[i] == Plain(items[i])
    decreases |items|
  {
    assert items[0] in items && forall x :: x in items[1..] ==> x in items;
    if i > 0 {
      PlainItemIs(items[1..], bound, i - 1);
    }
  }

  lemma {:induction false} PlainItemsAt(items: seq<Value>, bound: Value)
    requires forall x :: x in items ==> x < bound && WellFormed(x)
    ensures forall i :: 0 <= i < |items| ==>
              Fit(PlainItems(items, bound)[i]) && Denote(PlainItems(items, bound)[i]) == Denote(items[i])
    decreases bound, |items|
  {
    forall i | 0 <= i < |items|
      ensures Fit(PlainItems(items, bound)[i]) && Denote(PlainItems(items, bound)[i]) == Denote(items[i])
    {
      assert items[i] in items;
      PlainItemIs(items, bound, i);
      PlainKeepsMeaning(items[i]);
    }
  }

  /** Items that mean the same, one by one, mean the same. */
  lemma {:induction false} SameItems(items: seq<Value>, bound: Value, items': seq<Value>, bound': Value)
    requires (forall x :: x in items ==> x < bound) && (forall x :: x in items' ==> x < bound')
    requires |items| == |items'| && forall i :: 0 <= i < |items| ==> Denote(items[i]) == Denote(items'[i])
    ensures DenoteItems(items, bound) == DenoteItems(items', bound')
    decreases |items|
  {
    if items != [] {
      assert items[0] in items && forall x :: x in items[1..] ==> x in items;
      assert items'[0] in items' && forall x :: x in items'[1..] ==> x in items';
      SameItems(items[1..], bound, items'[1..], bound');
    }
  }

  lemma {:induction false} PlainSequence(v: Value)
    requires (v.List? || v.Tuple?) && WellFormed(v)
    ensures Fit(Plain(v)) && Denote(Plain(v)) == Denote(v)
    decreases v, |v.items| + 1
  {
    PlainItemsAt(v.items, v);
    SameItems(v.items, v, Plain(v).items, Plain(v));
  }

  lemma {:induction false} PlainEntriesAt(entries: seq<Entry>, bound: Value)
    requires forall e :: e in entries ==> e.value < bound && WellFormed(e.value)
    ensures forall i :: 0 <= i < |entries| ==>
              var p := PlainEntries(entries, bound)[i];
              p.key == entries[i].key && Fit(p.value) && Denote(p.value) == Denote(entries[i].value)
    decreases bound, |entries|
  {
    if entries != [] {
      assert entries[0] in entries && forall e :: e in entries[1..] ==> e in entries;
      PlainKeepsMeaning(entries[0].value);
      PlainEntriesAt(entries[1..], bound);
    }
  }

  /** Members whose values mean the same, key by key, mean the same. */
  lemma {:induction false} SameMembers(ms: seq<Member>, bound: Value, ns: seq<Member>, bound': Value)
    requires (forall m :: m in ms ==> m.1 < bound) && (forall n :: n in ns ==> n.1 < bound')
    requires |ms| == |ns|
    requires forall i :: 0 <= i < |ms| ==> ms[i].0 == ns[i].0 && Denote(ms[i].1) == Denote(ns[i].1)
    ensures DenoteMembers(ms, bound) == DenoteMembers(ns, bound')
    decreases |ms|
  {
    if ms != [] {
      assert ms[0] in ms && ns[0] in ns;
      SameMembers(ms[1..], bound, ns[1..], bound');
    }
  }

  lemma {:induction false} PlainMapping(v: Value)
    requires (v.Dict? || v.Mapping?) && WellFormed(v)
    ensures Fit(Plain(v)) && Denote(Plain(v)) == Denote(v)
    decreases v, |v.entries| + 1
  {
    PlainEntriesAt(v.entries, v);
    SameEntries(v, Plain(v));
  }

  lemma SameEntries(v: Value, p: Value)
    requires (v.Dict? || v.Mapping?) && p.Dict? && |v.entries| == |p.entries| && DistinctNames(v.entries)
    requires forall i :: 0 <= i < |v.entries| ==>
               p.entries[i].key == v.entries[i].key && Fit(p.entries[i].value) &&
               Denote(p.entries[i].value) == Denote(v.entries[i].value)
    ensures Fit(p) && Denote(p) == Denote(v)
  {
    if Members(v).Ok? {
      assert forall i :: 0 <= i < |p.entries| ==> p.entries[i].key.Name?;
      SameMembers(Members(v).value, v, Members(p).value, p);
    } else {
      var i :| 0 <= i < |v.entries| && v.entries[i].key.NotAString?;
      assert p.entries[i].key.NotAString?;
    }
  }

  // ---------------------------------------------------------------- the key order is total

  lemma {:induction false} Utf16Injective(s: string, t: string)
    requires Utf16(s) == Utf16(t)
    ensures s == t
  {
    if s != "" && t != "" {
      var u, v := Units(s[0]), Units(t[0]);
      assert Utf16(s)[0] == u[0] && Utf16(t)[0] == v[0];
      UnitsSelfDelimiting(s[0], Utf16(s[1..]), t[0], Utf16(t[1..]));
      Utf16Injective(s[1..], t[1..]);
      assert s == [s[0]] + s[1..] && t == [t[0]] + t[1..];
    }
  }

  lemma UnitsSelfDelimiting(c: char, x: seq<nat>, d: char, y: seq<nat>)
    requires Units(c) + x == Units(d) + y
    ensures c == d && x == y
  {
    var u, v := Units(c), Units(d);
    assert (u + x)[0] == u[0] && (v + y)[0] == v[0];
    assert |u| == |v|;
    assert u == (u + x)[..|u|] && v == (v + y)[..|u|];
    assert x == (u + x)[|u|..] && y == (v + y)[|u|..];
    if |u| == 2 {
      assert u[1] == v[1];
      var m, n := c as int - 0x10000, d as int - 0x10000;
      assert m == 0x400 * (m / 0x400) + m % 0x400 && n == 0x400 * (n / 0x400) + n % 0x400;
    }
  }

  lemma KeyTotal(k: string, l: string)
    ensures !(KeyLess(k, l) && KeyLess(l, k)) && (k == l <==> !KeyLess(k, l) && !KeyLess(l, k))
  {
    Collections.LexTotal(Utf16(k), Utf16(l));
    if Utf16(k) == Utf16(l) {
      Utf16Injective(k, l);
    }
  }

  ghost predicate Sorted(ms: seq<Member>) {
    forall i, j :: 0 <= i < j < |ms| ==> KeyLess(ms[i].0, ms[j].0)
  }

  /** Keys are in strict weak order, and no two of them tie. */
  lemma KeyOrder()
    ensures Collections.WeakOrder(KeyLess)
    ensures forall x, y :: !KeyLess(x, y) && !KeyLess(y, x) ==> x == y
  {
    forall x, y ensures !(KeyLess(x, y) && KeyLess(y, x)) ensures !KeyLess(x, y) && !KeyLess(y, x) ==> x == y {
      KeyTotal(x, y);
    }
    forall x, y, z | KeyLess(x, z) ensures KeyLess(x, y) || KeyLess(y, z) {
      if KeyLess(y, x) {
        Collections.LexTransitive(Utf16(y), Utf16(x), Utf16(z));
      }
    }
  }

  lemma MemberOrder()
    ensures Collections.WeakOrder(MemberLess)
  {
    KeyOrder();
  }

  lemma SortSorted(ms: seq<Member>)
    requires DistinctKeys(ms)
    ensures Sorted(Sort(ms))
  {
    var r := Sort(ms);
    MemberOrder();
    Collections.SortOrdered(ms, MemberLess);
    Collections.SortDistinct(ms, MemberLess);
    SortMembers(ms);
    forall i, j | 0 <= i < j < |r| ensures KeyLess(r[i].0, r[j].0) {
      assert !MemberLess(r[j], r[i]) && r[i] != r[j];
      OtherKey(ms, r[i], r[j]);
      KeyTotal(r[i].0, r[j].0);
    }
  }

  lemma OtherKey(ms: seq<Member>, m: Member, n: Member)
    requires DistinctKeys(ms) && m in ms && n in ms && m != n
    ensures m.0 != n.0
  {
  }

  lemma SortMembers(ms: seq<Member>)
    ensures |Sort(ms)| == |ms| && forall m :: m in Sort(ms) <==> m in ms
  {
    assert |multiset(Sort(ms))| == |multiset(ms)|;
    forall m ensures m in Sort(ms) <==> m in ms {
      assert m in Sort(ms) <==> m in multiset(Sort(ms));
    }
  }

  ghost predicate HasKey(ms: seq<Member>, k: string) { exists i :: 0 <= i < |ms| && ms[i].0 == k }

  /** Sorted members with the same keys line up. */
  lemma {:induction false} SortedLineUp(a: seq<Member>, b: seq<Member>)
    requires Sorted(a) && Sorted(b) && forall k :: HasKey(a, k) <==> HasKey(b, k)
    ensures |a| == |b| && forall i :: 0 <= i < |a| ==> a[i].0 == b[i].0
  {
    if a == [] || b == [] {
      if a != [] {
        assert HasKey(a, a[0].0);
      }
      if b != [] {
        assert HasKey(b, b[0].0);
      }
    } else {
      SameLeast(a, b);
      forall k ensures HasKey(a[1..], k) <==> HasKey(b[1..], k) {
        RestHasKey(a, k);
        RestHasKey(b, k);
      }
      SortedLineUp(a[1..], b[1..]);
      assert forall i :: 1 <= i < |a| ==> a[i] == a[1..][i - 1] && b[i] == b[1..][i - 1];
    }
  }

  lemma SameLeast(a: seq<Member>, b: seq<Member>)
    requires Sorted(a) && Sorted(b) && a != [] && b != [] && forall k :: HasKey(a, k) <==> HasKey(b, k)
    ensures a[0].0 == b[0].0
  {
    assert HasKey(a, a[0].0) && HasKey(b, b[0].0);
    var i :| 0 <= i < |a| && a[i].0 == b[0].0;
    var j :| 0 <= j < |b| && b[j].0 == a[0].0;
    KeyTotal(a[0].0, b[0].0);
  }

  lemma RestHasKey(a: seq<Member>, k: string)
    requires Sorted(a) && a != []
    ensures HasKey(a[1..], k) <==> HasKey(a, k) && k != a[0].0
  {
    if HasKey(a[1..], k) {
      var i :| 0 <= i < |a[1..]| && a[1..][i].0 == k;
      assert a[i + 1].0 == k;
      KeyTotal(k, k);
    }
    if HasKey(a, k) && k != a[0].0 {
      var i :| 0 <= i < |a| && a[i].0 == k;
      assert a[1..][i - 1].0 == k;
    }
  }

  // ---------------------------------------------------------------- the text depends on the meaning alone

  lemma {:induction false} DenoteMembersAt(ms: seq<Member>, bound: Value)
    requires (forall m :: m in ms ==> m.1 < bound) && DistinctKeys(ms)
    ensures DenoteMembers(ms, bound).Ok? <==> forall i :: 0 <= i < |ms| ==> Denote(ms[i].1).Ok?
    ensures var d := DenoteMembers(ms, bound); d.Ok? ==>
              (forall k :: k in d.value <==> HasKey(ms, k)) &&
              forall i :: 0 <= i < |ms| ==> HasKey(ms, ms[i].0) && d.value[ms[i].0] == Denote(ms[i].1).value
    decreases |ms|
  {
    if ms != [] {
      assert ms[0] in ms;
      DenoteMembersAt(ms[1..], bound);
      assert forall i :: 1 <= i < |ms| ==> ms[i] == ms[1..][i - 1];
      forall k ensures HasKey(ms, k) <==> k == ms[0].0 || HasKey(ms[1..], k) { HasKeyCons(ms, k); }
    }
  }

  lemma HasKeyCons(ms: seq<Member>, k: string)
    requires ms != []
    ensures HasKey(ms, k) <==> k == ms[0].0 || HasKey(ms[1..], k)
  {
    if HasKey(ms, k) {
      var i :| 0 <= i < |ms| && ms[i].0 == k;
      assert i > 0 ==> ms[1..][i - 1].0 == k;
    }
    if HasKey(ms[1..], k) {
      var i :| 0 <= i < |ms[1..]| && ms[1..][i].0 == k;
      assert ms[i + 1].0 == k;
    }
  }

  lemma {:induction false} DumpMembersOk(ms: seq<Member>, bound: Value)
    requires forall m :: m in ms ==> m.1 < bound
    ensures DumpMembers(ms, bound).Ok? <==> forall m :: m in ms ==> Dump(m.1).Ok?
    decreases |ms|
  {
    if ms != [] {
      assert ms[0] in ms;
      DumpMembersOk(ms[1..], bound);
      assert forall m :: m in ms <==> m == ms[0] || m in ms[1..];
    }
  }

  lemma FitMembers(v: Value)
    requires v.Dict? && Fit(v) && Members(v).Ok?
    ensures DistinctKeys(Members(v).value) && forall m :: m in Members(v).value ==> Fit(m.1)
  {
  }

  /** The serializer refuses exactly the values that mean nothing in JSON. */
  lemma {:induction false} DumpOk(v: Value)
    requires Fit(v)
    ensures Dump(v).Ok? <==> Denote(v).Ok?
    decreases v
  {
    match v
    case List(items) => DumpItemsOk(items, v);
    case Tuple(items) => DumpItemsOk(items, v);
    case Dict(_) => DumpObjectOk(v);
    case _ =>
  }

  lemma {:induction false} DumpObjectOk(v: Value)
    requires Fit(v) && v.Dict?
    ensures Dump(v).Ok? <==> Denote(v).Ok?
    decreases v, |v.entries| + 1
  {
    if Members(v).Ok? {
      var ms := Members(v).value;
      FitMembers(v);
      SortMembers(ms);
      assert DumpMembers(Sort(ms), v).Ok? <==> forall m :: m in ms ==> Dump(m.1).Ok? by {
        DumpMembersOk(Sort(ms), v);
      }
      assert DenoteMembers(ms, v).Ok? <==> forall m :: m in ms ==> Denote(m.1).Ok? by {
        DenoteMembersAt(ms, v);
        assert forall i :: 0 <= i < |ms| ==> ms[i] in ms;
      }
      forall m | m in ms ensures Dump(m.1).Ok? <==> Denote(m.1).Ok? { DumpOk(m.1); }
    }
  }

  lemma {:induction false} DumpItemsOk(items: seq<Value>, bound: Value)
    requires forall x :: x in items ==> x < bound && Fit(x)
    ensures DumpItems(items, bound).Ok? <==> DenoteItems(items, bound).Ok?
    decreases bound, |items|
  {
    if items != [] {
      assert items[0] in items && forall x :: x in items[1..] ==> x in items;
      DumpOk(items[0]);
      DumpItemsOk(items[1..], bound);
    }
  }

  /** Equal meanings have equal texts: mapping type, list against tuple and key order leave no trace. */
  lemma {:induction false} MeaningFixesText(a: Value, b: Value)
    requires Fit(a) && Fit(b) && Denote(a).Ok? && Denote(a) == Denote(b)
    ensures Dump(a) == Dump(b)
    decreases a
  {
    if a.Dict? {
      MeaningFixesObject(a, b);
    } else if a.List? || a.Tuple? {
      MeaningFixesItems(a.items, a, b.items, b);
    } else if a.Int? || a.Float? {
      NumberDump(a);
      NumberDump(b);
    }
  }

  /** A number's text is the text of the number it means. */
  lemma NumberDump(v: Value)
    requires (v.Int? || v.Float?) && Denote(v).Ok?
    ensures Denote(v).value.JNumber? && !Denote(v).value.number.NotFinite?
    ensures Dump(v) == Ok(FloatText.SerializedText(Denote(v).value.number).text) && NumberText(Dump(v).value)
  {
    if v.Int? { FloatText.NumberOfText(v.n); }
    FloatText.FloatIsNumber(Denote(v).value.number);
  }

  lemma ConsSame(j: Json, s: seq<Json>, k: Json, t: seq<Json>)
    requires [j] + s == [k] + t
    ensures j == k && s == t
  {
    assert ([j] + s)[0] == j && ([k] + t)[0] == k && ([j] + s)[1..] == s && ([k] + t)[1..] == t;
  }

  lemma {:induction false} MeaningFixesItems(items: seq<Value>, bound: Value, items': seq<Value>, bound': Value)
    requires (forall x :: x in items ==> x < bound && Fit(x)) && (forall x :: x in items' ==> x < bound' && Fit(x))
    requires DenoteItems(items, bound).Ok? && DenoteItems(items, bound) == DenoteItems(items', bound')
    ensures DumpItems(items, bound) == DumpItems(items', bound')
    decreases bound, |items|
  {
    if items != [] {
      assert items[0] in items && forall x :: x in items[1..] ==> x in items;
      assert items'[0] in items' && forall x :: x in items'[1..] ==> x in items';
      ItemsMean(items, bound);
      ItemsMean(items', bound');
      ConsSame(Denote(items[0]).value, DenoteItems(items[1..], bound).value,
               Denote(items'[0]).value, DenoteItems(items'[1..], bound').value);
      MeaningFixesText(items[0], items'[0]);
      MeaningFixesItems(items[1..], bound, items'[1..], bound');
    }
  }

  lemma {:induction false} MeaningFixesMembers(ms: seq<Member>, bound: Value, ns: seq<Member>, bound': Value)
    requires (forall m :: m in ms ==> m.1 < bound && Fit(m.1)) && (forall n :: n in ns ==> n.1 < bound' && Fit(n.1))
    requires |ms| == |ns|
    requires forall i :: 0 <= i < |ms| ==>
               ms[i].0 == ns[i].0 && Denote(ms[i].1).Ok? && Denote(ms[i].1) == Denote(ns[i].1)
    ensures DumpMembers(ms, bound) == DumpMembers(ns, bound')
    decreases bound, |ms|
  {
    if ms != [] {
      assert ms[0] in ms && ns[0] in ns;
      MeaningFixesText(ms[0].1, ns[0].1);
      MeaningFixesMembers(ms[1..], bound, ns[1..], bound');
    }
  }

  /** The members in key order, each meaning what the object holds under its key. */
  ghost predicate Lists(ms: seq<Member>, obj: map<string, Json>) {
    && Sorted(ms)
    && (forall k :: k in obj <==> HasKey(ms, k))
    && forall i :: 0 <= i < |ms| ==> ms[i].0 in obj && Denote(ms[i].1) == Ok(obj[ms[i].0])
  }

  ghost predicate Below(ms: seq<Member>, v: Value) { forall m :: m in ms ==> m.1 < v && Fit(m.1) }

  lemma SortHasKeys(ms: seq<Member>, k: string)
    ensures HasKey(Sort(ms), k) <==> HasKey(ms, k)
  {
    SortMembers(ms);
    if HasKey(ms, k) {
      var j :| 0 <= j < |ms| && ms[j].0 == k;
      assert ms[j] in Sort(ms);
    }
    if HasKey(Sort(ms), k) {
      var j :| 0 <= j < |ms| && Sort(ms)[j].0 == k;
      assert Sort(ms)[j] in Sort(ms) && Sort(ms)[j] in ms;
    }
  }

  /** Sorting the members of an object does not change what they mean. */
  lemma SortedMeaning(v: Value)
    requires v.Dict? && Fit(v) && Denote(v).Ok?
    ensures Members(v).Ok? && Below(Sort(Members(v).value), v)
    ensures |Sort(Members(v).value)| == |v.entries|
    ensures Lists(Sort(Members(v).value), Denote(v).value.members)
  {
    FitMembers(v);
    SortMembers(Members(v).value);
    SortedListing(Members(v).value, v);
  }

  lemma SortedListing(ms: seq<Member>, bound: Value)
    requires (forall m :: m in ms ==> m.1 < bound) && DistinctKeys(ms) && DenoteMembers(ms, bound).Ok?
    ensures Lists(Sort(ms), DenoteMembers(ms, bound).value)
  {
    var obj, sorted := DenoteMembers(ms, bound).value, Sort(ms);
    SortMembers(ms);
    SortSorted(ms);
    DenoteMembersAt(ms, bound);
    forall i | 0 <= i < |sorted| ensures sorted[i].0 in obj && Denote(sorted[i].1) == Ok(obj[sorted[i].0]) {
      assert sorted[i] in sorted;
      var j :| 0 <= j < |ms| && ms[j] == sorted[i];
    }
    forall k ensures HasKey(ms, k) <==> HasKey(sorted, k) { SortHasKeys(ms, k); }
  }

  /** Members listed for the same object line up, key by key, with equal meanings. */
  lemma ListingsLineUp(ms: seq<Member>, ns: seq<Member>, obj: map<string, Json>)
    requires Lists(ms, obj) && Lists(ns, obj)
    ensures |ms| == |ns|
    ensures forall i :: 0 <= i < |ms| ==>
              ms[i].0 == ns[i].0 && Denote(ms[i].1).Ok? && Denote(ms[i].1) == Denote(ns[i].1)
  {
    SortedLineUp(ms, ns);
  }

  /** Conversely, members that line up are listed for one and the same object. */
  lemma SameListings(ms: seq<Member>, ns: seq<Member>, obj: map<string, Json>, obj': map<string, Json>)
    requires Lists(ms, obj) && Lists(ns, obj') && |ms| == |ns|
    requires forall i :: 0 <= i < |ms| ==> ms[i].0 == ns[i].0 && Denote(ms[i].1) == Denote(ns[i].1)
    ensures obj == obj'
  {
    forall k | k in obj ensures k in obj' && obj[k] == obj'[k] { ListedAlike(ms, ns, obj, obj', k); }
    forall k | k in obj' ensures k in obj { ListedAlike(ns, ms, obj', obj, k); }
  }

  lemma ListedAlike(ms: seq<Member>, ns: seq<Member>, obj: map<string, Json>, obj': map<string, Json>, k: string)
    requires Lists(ms, obj) && Lists(ns, obj') && |ms| == |ns|
    requires forall i :: 0 <= i < |ms| ==> ms[i].0 == ns[i].0 && Denote(ms[i].1) == Denote(ns[i].1)
    requires k in obj
    ensures k in obj' && obj[k] == obj'[k]
  {
    assert HasKey(ms, k);
    var i :| 0 <= i < |ms| && ms[i].0 == k;
    assert ns[i].0 == k;
    assert Denote(ms[i].1) == Ok(obj[k]) && Denote(ns[i].1) == Ok(obj'[k]);
  }

  lemma {:induction false} MeaningFixesObject(a: Value, b: Value)
    requires a.Dict? && Fit(a) && Fit(b) && Denote(a).Ok? && Denote(a) == Denote(b)
    ensures Dump(a) == Dump(b)
    decreases a, |a.entries| + 1
  {
    SortedMeaning(a);
    SortedMeaning(b);
    ListingsLineUp(Sort(Members(a).value), Sort(Members(b).value), Denote(a).value.members);
    MeaningFixesMembers(Sort(Members(a).value), a, Sort(Members(b).value), b);
  }

  // ---------------------------------------------------------------- and the meaning on the text alone

  /** What may follow a value in a text. */
  predicate Stop(x: string) { x == "" || x[0] == ',' || x[0] == ']' || x[0] == '}' }

  lemma {:induction false} NumberLengthOf(t: string, x: string)
    requires (forall i :: 0 <= i < |t| ==> NumberChar(t[i])) && Stop(x)
    ensures NumberLength(t + x) == |t|
  {
    if t == "" {
      assert t + x == x;
    } else {
      assert (t + x)[1..] == t[1..] + x;
      NumberLengthOf(t[1..], x);
    }
  }

  /** The items after the first, with the comma that announces them, and what follows the array. */
  function AfterFirst(rest: string, more: bool, x: string): string { (if more then "," else "") + rest + x }

  lemma ItemsCut(items: seq<Value>, bound: Value, x: string)
    requires (forall v :: v in items ==> v < bound) && items != [] && DumpItems(items, bound).Ok?
    ensures items[0] in items && (forall v :: v in items[1..] ==> v in items)
    ensures Dump(items[0]).Ok? && DumpItems(items[1..], bound).Ok?
    ensures var after := AfterFirst(DumpItems(items[1..], bound).value, |items| > 1, x);
            DumpItems(items, bound).value + x == Dump(items[0]).value + after && Stop(after) &&
            after != "" && after[0] == (if |items| > 1 then ',' else ']')
  {
    assert items[0] in items && forall v :: v in items[1..] ==> v in items;
    var first, rest := Dump(items[0]).value, DumpItems(items[1..], bound).value;
    var comma := if |items| > 1 then "," else "";
    FirstOff(first, comma, rest, x);
    if |items| == 1 {
      assert items[1..] == [] && rest == "]" && AfterFirst(rest, false, x) == "" + "]" + x;
    } else {
      assert AfterFirst(rest, true, x) == "," + rest + x;
    }
  }

  lemma FirstOff(first: string, comma: string, rest: string, x: string)
    ensures ((first + comma) + rest) + x == first + ((comma + rest) + x)
  {
  }

  lemma ItemsMean(items: seq<Value>, bound: Value)
    requires (forall v :: v in items ==> v < bound) && items != []
    requires items[0] in items && (forall v :: v in items[1..] ==> v in items)
    ensures DenoteItems(items, bound) ==
              if Denote(items[0]).Ok? && DenoteItems(items[1..], bound).Ok?
              then Ok([Denote(items[0]).value] + DenoteItems(items[1..], bound).value) else Error
  {
  }

  lemma MembersCut(ms: seq<Member>, bound: Value, x: string)
    requires (forall m :: m in ms ==> m.1 < bound) && ms != [] && DumpMembers(ms, bound).Ok?
    ensures ms[0] in ms && Dump(ms[0].1).Ok? && DumpMembers(ms[1..], bound).Ok?
    ensures var after := AfterFirst(DumpMembers(ms[1..], bound).value, |ms| > 1, x);
            DumpMembers(ms, bound).value + x == Quote(ms[0].0) + (":" + (Dump(ms[0].1).value + after)) &&
            Stop(after) && after != "" && after[0] == (if |ms| > 1 then ',' else '}')
  {
    var first, rest := Dump(ms[0].1).value, DumpMembers(ms[1..], bound).value;
    MemberText(Quote(ms[0].0), first, if |ms| > 1 then "," else "", rest, x);
    if |ms| == 1 {
      assert ms[1..] == [] && rest == "}";
    }
  }

  lemma MemberText(name: string, first: string, comma: string, rest: string, x: string)
    ensures name + ":" + first + comma + rest + x == name + (":" + (first + (comma + rest + x)))
  {
  }

  // ---------------------------------------------------------------- reading the text

  /** The tree the text of a value should say. */
  ghost function TreeOf(v: Value): Tree
    decreases v
  {
    match v
    case Bool(b) => TBool(b)
    case Int(n) => if -SAFE <= n <= SAFE then TNumber(FloatText.NumberOf(n)) else TNull
    case Float(f) => TNumber(f)
    case Str(s) => TString(s)
    case List(items) => TArray(TreesOf(items, v))
    case Tuple(items) => TArray(TreesOf(items, v))
    case Dict(_) =>
      if Members(v).Error? then TNull
      else
        assert forall m :: m in Sort(Members(v).value) ==> m in multiset(Sort(Members(v).value));
        TObject(BranchesOf(Sort(Members(v).value), v))
    case _ => TNull
  }

  ghost function TreesOf(items: seq<Value>, bound: Value): (r: seq<Tree>)
    requires forall x :: x in items ==> x < bound
    ensures |r| == |items|
    decreases bound, |items|
  {
    if items == [] then []
    else
      assert items[0] in items && forall x :: x in items[1..] ==> x in items;
      [TreeOf(items[0])] + TreesOf(items[1..], bound)
  }

  ghost function BranchesOf(ms: seq<Member>, bound: Value): (r: seq<Branch>)
    requires forall m :: m in ms ==> m.1 < bound
    ensures |r| == |ms|
    decreases bound, |ms|
  {
    if ms == [] then []
    else
      assert ms[0] in ms && forall m :: m in ms[1..] ==> m in ms;
      [Branch(ms[0].0, TreeOf(ms[0].1))] + BranchesOf(ms[1..], bound)
  }

  lemma EscapeCharReads(c: char, x: string)
    ensures var t := EscapeChar(c) + x; t != "" && t[0] != '"' && ReadChar(t) == Ok(Piece(c, x))
  {
    var e := EscapeChar(c);
    var t := e + x;
    assert t[0] == e[0] && t[|e|..] == x;
    if |e| > 1 { assert t[1] == e[1]; }
    if |e| == 6 {
      HexReads(c as nat / 16);
      HexReads(c as nat % 16);
      assert t[2..][0] == '0' && t[2..][1] == '0' && t[2..][2] == e[4] && t[2..][3] == e[5];
    }
  }

  lemma HexReads(d: nat)
    requires d < 16
    ensures HexValue(Digit(d)) == Ok(d)
  {
  }

  /** Of all the ways to write a character in a JSON string the one used is the shortest, in lower case. */
  lemma EscapeShortest(c: char, t: string)
    requires t != "" && t[0] != '"' && ReadChar(t) == Ok(Piece(c, ""))
    ensures |EscapeChar(c)| <= |t|
    ensures |EscapeChar(c)| == |t| ==> t == EscapeChar(c) || exists i :: 0 <= i < |t| && 'A' <= t[i] <= 'F'
  {
    if t[0] == '\\' && t[1] == 'u' {
      EscapedUnitLength(t);
      if |EscapeChar(c)| == 6 && |t| == 6 && forall i :: 0 <= i < |t| ==> !('A' <= t[i] <= 'F') { HexText(c, t); }
    } else if t[0] == '\\' {
      assert |t| == 2;
      assert t == [t[0], t[1]];
    } else {
      assert |t| == 1;
      assert t == [t[0]];
    }
  }

  lemma EscapedUnitLength(t: string)
    requires |t| >= 2
    ensures ReadEscapedUnit(t).Ok? && ReadEscapedUnit(t).value.rest == "" ==> |t| == 6 || |t| == 12
  {
  }

  lemma HexText(c: char, t: string)
    requires |t| == 6 && t[0] == '\\' && t[1] == 'u' && c < '\U{20}' && ReadEscapedUnit(t) == Ok(Piece(c, ""))
    requires forall i :: 0 <= i < |t| ==> !('A' <= t[i] <= 'F')
    ensures t == "\\u00" + [Digit(c as nat / 16), Digit(c as nat % 16)]
  {
    var u := t[2..];
    assert u[0] == t[2] && u[1] == t[3] && u[2] == t[4] && u[3] == t[5];
    UnitOf(u);
    SmallUnit(HexValue(t[2]).value, HexValue(t[3]).value, HexValue(t[4]).value, HexValue(t[5]).value, c as nat);
    SixLong(t);
  }

  lemma UnitOf(u: string)
    requires |u| == 4 && ReadUnit(u).Ok? && forall i :: 0 <= i < 4 ==> !('A' <= u[i] <= 'F')
    ensures forall i :: 0 <= i < 4 ==>
              HexValue(u[i]).Ok? && HexValue(u[i]).value < 16 && Digit(HexValue(u[i]).value) == u[i]
    ensures ReadUnit(u).value == ((HexValue(u[0]).value * 16 + HexValue(u[1]).value) * 16 + HexValue(u[2]).value) * 16
                                 + HexValue(u[3]).value
  {
    forall i | 0 <= i < 4
      ensures HexValue(u[i]).Ok? && HexValue(u[i]).value < 16 && Digit(HexValue(u[i]).value) == u[i]
    {
      HexDigit(u[i]);
    }
  }

  lemma SmallUnit(a: nat, b: nat, c: nat, d: nat, n: nat)
    requires a < 16 && b < 16 && c < 16 && d < 16 && n < 32 && n == ((a * 16 + b) * 16 + c) * 16 + d
    ensures a == 0 && b == 0 && c == n / 16 && d == n % 16
  {
  }

  lemma SixLong(t: string)
    requires |t| == 6
    ensures t == [t[0], t[1], t[2], t[3]] + [t[4], t[5]]
  {
  }

  lemma HexDigit(c: char)
    requires HexValue(c).Ok? && !('A' <= c <= 'F')
    ensures HexValue(c).value < 16 && Digit(HexValue(c).value) == c
  {
  }

  lemma EscapeCons(s: string, x: string)
    requires s != ""
    ensures Escape(s) + x == EscapeChar(s[0]) + (Escape(s[1..]) + x)
  {
  }

  lemma {:induction false} StringReads(s: string, x: string)
    ensures ReadString(Escape(s) + ("\"" + x)) == Ok(StringRead(s, x))
  {
    if s == "" {
      EndReads(x);
    } else {
      EscapeCons(s, "\"" + x);
      EscapeCharReads(s[0], Escape(s[1..]) + ("\"" + x));
      StringReads(s[1..], x);
      HeadAndTail(s);
    }
  }

  lemma EndReads(x: string)
    ensures Escape("") + ("\"" + x) == "\"" + x && ReadString("\"" + x) == Ok(StringRead("", x))
  {
    assert ("\"" + x)[1..] == x;
  }

  lemma HeadAndTail(s: string)
    requires s != ""
    ensures s == [s[0]] + s[1..]
  {
  }

  lemma Regroup(a: string, b: string, c: string, x: string)
    ensures ((a + b) + c) + x == a + (b + (c + x))
  {
  }

  lemma QuoteReads(s: string, x: string)
    ensures var t := Quote(s) + x; t != "" && t[0] == '"' && ReadString(t[1..]) == Ok(StringRead(s, x))
  {
    Regroup("\"", Escape(s), "\"", x);
    StringReads(s, x);
  }

  lemma WordReads(word: string, tree: Tree, x: string)
    requires word != ""
    ensures ReadWord(word + x, word, tree) == Ok(TreeRead(tree, x)) && (word + x)[0] == word[0]
  {
    assert word <= word + x && (word + x)[|word|..] == x;
  }

  lemma LiteralReads(v: Value, x: string)
    requires v.Null? || v.Bool?
    ensures ReadValue(Dump(v).value + x) == Ok(TreeRead(TreeOf(v), x))
  {
    WordReads("null", TNull, x);
    WordReads("true", TBool(true), x);
    WordReads("false", TBool(false), x);
  }

  lemma NumberReads(v: Value, x: string)
    requires (v.Int? || v.Float?) && Denote(v).Ok? && Stop(x)
    ensures Dump(v).Ok? && ReadValue(Dump(v).value + x) == Ok(TreeRead(TreeOf(v), x))
  {
    var f := Denote(v).value.number;
    NumberDump(v);
    assert TreeOf(v) == TNumber(f);
    NumberTextReads(Dump(v).value, x, f);
  }

  lemma NumberTextReads(t: string, x: string, f: FloatText.Double)
    requires NumberText(t) && Stop(x) && !f.NotFinite? && t == FloatText.SerializedText(f).text
    ensures ReadValue(t + x) == Ok(TreeRead(TNumber(f), x))
  {
    NumberLengthOf(t, x);
    FloatText.ReadNumberBack(f);
    NumberAt(t, x, f);
    NumberFirst(t + x);
  }

  lemma NumberAt(t: string, x: string, f: FloatText.Double)
    requires NumberText(t) && NumberLength(t + x) == |t| && FloatText.ReadNumber(t) == Ok(f)
    ensures ReadNumberValue(t + x) == Ok(TreeRead(TNumber(f), x))
  {
    var u := t + x;
    assert u[..|t|] == t && u[|t|..] == x && u[0] == t[0];
  }

  lemma NumberFirst(u: string)
    requires u != "" && (u[0] == '-' || '0' <= u[0] <= '9')
    ensures ReadValue(u) == ReadNumberValue(u)
  {
  }

  /** Reading the text of a value gives its tree, whatever a value may be followed by. */
  lemma {:induction false} ValueReads(v: Value, x: string)
    requires Fit(v) && Dump(v).Ok? && Stop(x)
    ensures ReadValue(Dump(v).value + x) == Ok(TreeRead(TreeOf(v), x))
    decreases v
  {
    DumpOk(v);
    match v
    case Null => LiteralReads(v, x);
    case Bool(_) => LiteralReads(v, x);
    case Int(_) => NumberReads(v, x);
    case Float(_) => NumberReads(v, x);
    case Str(s) => QuoteReads(s, x);
    case List(items) => ArrayReads(v, x);
    case Tuple(items) => ArrayReads(v, x);
    case Dict(_) => ObjectReads(v, x);
  }

  lemma Opened(open: char, body: string, x: string)
    ensures var t := ([open] + body) + x; t != "" && t[0] == open && t[1..] == body + x
  {
  }

  lemma {:induction false} ArrayReads(v: Value, x: string)
    requires (v.List? || v.Tuple?) && Fit(v) && Dump(v).Ok?
    ensures ReadValue(Dump(v).value + x) == Ok(TreeRead(TreeOf(v), x))
    decreases v, |v.items| + 1
  {
    var body := DumpItems(v.items, v).value;
    Opened('[', body, x);
    assert Dump(v).value == ['['] + body;
    ItemsRead(v.items, v, x);
  }

  lemma {:induction false} ItemsRead(items: seq<Value>, bound: Value, x: string)
    requires (forall y :: y in items ==> y < bound && Fit(y)) && DumpItems(items, bound).Ok?
    ensures ReadItems(DumpItems(items, bound).value + x) == Ok(JsonText.ItemsRead(TreesOf(items, bound), x))
    ensures items != [] ==>
              ReadSomeItems(DumpItems(items, bound).value + x) == Ok(JsonText.ItemsRead(TreesOf(items, bound), x))
    decreases bound, |items|
  {
    if items == [] {
      assert ("]" + x)[1..] == x;
    } else {
      ItemsCut(items, bound, x);
      var rest := DumpItems(items[1..], bound).value;
      var after := AfterFirst(rest, |items| > 1, x);
      var t := Dump(items[0]).value + after;
      ValueReads(items[0], after);
      if |items| == 1 {
        OneItem(items, bound);
        LastItem(t, TreeOf(items[0]), x);
      } else {
        ItemsRead(items[1..], bound, x);
        Comma(rest, x);
        MoreItems(t, TreeOf(items[0]), rest + x, TreesOf(items[1..], bound), x);
      }
    }
  }

  lemma Comma(rest: string, x: string)
    ensures AfterFirst(rest, true, x) == "," + (rest + x)
  {
  }

  lemma OneItem(items: seq<Value>, bound: Value)
    requires (forall y :: y in items ==> y < bound) && |items| == 1 && DumpItems(items, bound).Ok?
    ensures DumpItems(items[1..], bound) == Ok("]") && TreesOf(items, bound) == [TreeOf(items[0])]
    ensures forall x :: AfterFirst("]", false, x) == "]" + x
  {
    assert items[1..] == [];
  }

  lemma {:induction false} ObjectReads(v: Value, x: string)
    requires v.Dict? && Fit(v) && Dump(v).Ok?
    ensures ReadValue(Dump(v).value + x) == Ok(TreeRead(TreeOf(v), x))
    decreases v, |v.entries| + 1
  {
    FitMembers(v);
    var ms := Sort(Members(v).value);
    SortMembers(Members(v).value);
    var body := DumpMembers(ms, v).value;
    Opened('{', body, x);
    assert Dump(v).value == ['{'] + body;
    MembersRead(ms, v, x);
  }

  lemma {:induction false} MembersRead(ms: seq<Member>, bound: Value, x: string)
    requires (forall m :: m in ms ==> m.1 < bound && Fit(m.1)) && DumpMembers(ms, bound).Ok?
    ensures ReadMembers(DumpMembers(ms, bound).value + x) == Ok(JsonText.MembersRead(BranchesOf(ms, bound), x))
    ensures ms != [] ==>
              ReadSomeMembers(DumpMembers(ms, bound).value + x) == Ok(JsonText.MembersRead(BranchesOf(ms, bound), x))
    decreases bound, |ms|
  {
    if ms == [] {
      assert ("}" + x)[1..] == x;
    } else {
      MembersCut(ms, bound, x);
      var rest := DumpMembers(ms[1..], bound).value;
      var after := AfterFirst(rest, |ms| > 1, x);
      var value := Dump(ms[0].1).value + after;
      QuoteReads(ms[0].0, ":" + value);
      MemberAt(ms[0].0, Quote(ms[0].0) + (":" + value), value);
      ValueReads(ms[0].1, after);
      if |ms| == 1 {
        OneMemberText(ms, bound);
        LastMember(ms[0].0, value, TreeOf(ms[0].1), x);
      } else {
        MembersRead(ms[1..], bound, x);
        Comma(rest, x);
        MoreMembers(ms[0].0, value, TreeOf(ms[0].1), rest + x, BranchesOf(ms[1..], bound), x);
      }
    }
  }

  lemma OneMemberText(ms: seq<Member>, bound: Value)
    requires (forall m :: m in ms ==> m.1 < bound) && |ms| == 1 && DumpMembers(ms, bound).Ok?
    ensures DumpMembers(ms[1..], bound) == Ok("}") && BranchesOf(ms, bound) == [Branch(ms[0].0, TreeOf(ms[0].1))]
    ensures forall x :: AfterFirst("}", false, x) == "}" + x
  {
    assert ms[1..] == [];
  }

  // ---------------------------------------------------------------- what the tree says

  lemma {:induction false} TreeMeans(v: Value)
    requires Fit(v) && Denote(v).Ok?
    ensures Denote(v) == Ok(Meaning(TreeOf(v)))
    decreases v
  {
    match v
    case List(items) => ArrayTreeMeans(v);
    case Tuple(items) => ArrayTreeMeans(v);
    case Dict(_) => ObjectTreeMeans(v);
    case _ =>
  }

  lemma {:induction false} ArrayTreeMeans(v: Value)
    requires (v.List? || v.Tuple?) && Fit(v) && Denote(v).Ok?
    ensures Denote(v) == Ok(Meaning(TreeOf(v)))
    decreases v, |v.items| + 1
  {
    ItemsFit(v);
    var items := TreesOf(v.items, v);
    ItemsBelow(items);
    TreesMean(v.items, v, TArray(items));
    assert TreeOf(v) == TArray(items);
  }

  lemma ItemsFit(v: Value)
    requires (v.List? || v.Tuple?) && Fit(v)
    ensures forall y :: y in v.items ==> y < v && Fit(y)
  {
    forall y | y in v.items ensures y < v && Fit(y) {
      var i :| 0 <= i < |v.items| && v.items[i] == y;
    }
  }

  lemma ItemsBelow(items: seq<Tree>)
    ensures forall t :: t in items ==> t < TArray(items)
  {
    forall t | t in items ensures t < TArray(items) {
      var i :| 0 <= i < |items| && items[i] == t;
    }
  }

  lemma BranchesBelow(members: seq<Branch>)
    ensures forall b :: b in members ==> b.tree < TObject(members)
  {
    forall b | b in members ensures b.tree < TObject(members) {
      var i :| 0 <= i < |members| && members[i] == b;
    }
  }

  lemma TreesStep(items: seq<Value>, bound: Value)
    requires items != [] && forall y :: y in items ==> y < bound
    ensures TreesOf(items, bound)[0] == TreeOf(items[0])
    ensures forall y :: y in items[1..] ==> y in items
    ensures TreesOf(items, bound)[1..] == TreesOf(items[1..], bound)
    ensures forall t :: t in TreesOf(items[1..], bound) ==> t in TreesOf(items, bound)
  {
    assert items[0] in items && forall y :: y in items[1..] ==> y in items;
    assert TreesOf(items, bound)[1..] == TreesOf(items[1..], bound);
  }

  lemma BranchesStep(ms: seq<Member>, bound: Value)
    requires ms != [] && forall m :: m in ms ==> m.1 < bound
    ensures BranchesOf(ms, bound)[0] == Branch(ms[0].0, TreeOf(ms[0].1))
    ensures forall m :: m in ms[1..] ==> m in ms
    ensures BranchesOf(ms, bound)[1..] == BranchesOf(ms[1..], bound)
    ensures forall b :: b in BranchesOf(ms[1..], bound) ==> b in BranchesOf(ms, bound)
  {
    assert ms[0] in ms && forall m :: m in ms[1..] ==> m in ms;
    assert BranchesOf(ms, bound)[1..] == BranchesOf(ms[1..], bound);
  }

  lemma {:induction false} TreesMean(items: seq<Value>, bound: Value, tree: Tree)
    requires (forall y :: y in items ==> y < bound && Fit(y)) && DenoteItems(items, bound).Ok?
    requires forall t :: t in TreesOf(items, bound) ==> t < tree
    ensures DenoteItems(items, bound) == Ok(MeaningOfItems(TreesOf(items, bound), tree))
    decreases bound, |items|
  {
    if items != [] {
      assert items[0] in items && forall y :: y in items[1..] ==> y in items;
      TreesStep(items, bound);
      ItemsMean(items, bound);
      TreeMeans(items[0]);
      TreesMean(items[1..], bound, tree);
    }
  }

  lemma {:induction false} BranchesMean(ms: seq<Member>, bound: Value, tree: Tree)
    requires (forall m :: m in ms ==> m.1 < bound && Fit(m.1)) && DenoteMembers(ms, bound).Ok?
    requires forall b :: b in BranchesOf(ms, bound) ==> b.tree < tree
    ensures DenoteMembers(ms, bound) == Ok(MeaningOfMembers(BranchesOf(ms, bound), tree))
    decreases bound, |ms|
  {
    if ms != [] {
      assert ms[0] in ms && forall m :: m in ms[1..] ==> m in ms;
      BranchesStep(ms, bound);
      MembersMean(ms, bound);
      TreeMeans(ms[0].1);
      BranchesMean(ms[1..], bound, tree);
    }
  }

  /** Listing the members in order does not change the object. */
  lemma SortedSame(ms: seq<Member>, bound: Value)
    requires (forall m :: m in ms ==> m.1 < bound) && DistinctKeys(ms) && DenoteMembers(ms, bound).Ok?
    ensures forall m :: m in Sort(ms) ==> m.1 < bound
    ensures DenoteMembers(Sort(ms), bound) == DenoteMembers(ms, bound)
  {
    SortMembers(ms);
    SortedListing(ms, bound);
    SortedDistinct(Sort(ms));
    ListingMeans(Sort(ms), bound, DenoteMembers(ms, bound).value);
  }

  lemma ListingMeans(ms: seq<Member>, bound: Value, obj: map<string, Json>)
    requires (forall m :: m in ms ==> m.1 < bound) && DistinctKeys(ms) && Lists(ms, obj)
    ensures DenoteMembers(ms, bound) == Ok(obj)
  {
    DenoteMembersAt(ms, bound);
    var d := DenoteMembers(ms, bound).value;
    forall k | k in d ensures k in obj && d[k] == obj[k] { ListedOnce(ms, bound, obj, k); }
    assert d == obj;
  }

  lemma ListedOnce(ms: seq<Member>, bound: Value, obj: map<string, Json>, k: string)
    requires (forall m :: m in ms ==> m.1 < bound) && DistinctKeys(ms) && Lists(ms, obj)
    requires DenoteMembers(ms, bound).Ok? && k in DenoteMembers(ms, bound).value
    ensures k in obj && DenoteMembers(ms, bound).value[k] == obj[k]
  {
    DenoteMembersAt(ms, bound);
    var i :| 0 <= i < |ms| && ms[i].0 == k;
    assert Denote(ms[i].1) == Ok(obj[ms[i].0]);
  }

  lemma SortedDistinct(ms: seq<Member>)
    requires Sorted(ms)
    ensures DistinctKeys(ms)
  {
    forall i, j | 0 <= i < j < |ms| ensures ms[i].0 != ms[j].0 { KeyTotal(ms[i].0, ms[j].0); }
  }

  lemma {:induction false} ObjectTreeMeans(v: Value)
    requires v.Dict? && Fit(v) && Denote(v).Ok?
    ensures Denote(v) == Ok(Meaning(TreeOf(v)))
    decreases v, |v.entries| + 1
  {
    FitMembers(v);
    SortMembers(Members(v).value);
    SortedSame(Members(v).value, v);
    BranchesBelow(BranchesOf(Sort(Members(v).value), v));
    BranchesMean(Sort(Members(v).value), v, TreeOf(v));
  }

  lemma {:induction false} TreesInOrder(items: seq<Value>, bound: Value)
    requires forall y :: y in items ==> y < bound && Fit(y)
    ensures forall i :: 0 <= i < |items| ==> InKeyOrder(TreesOf(items, bound)[i])
    decreases bound, |items|
  {
    if items != [] {
      assert items[0] in items && forall y :: y in items[1..] ==> y in items;
      TreeInOrder(items[0]);
      TreesInOrder(items[1..], bound);
      forall i | 0 <= i < |items| ensures InKeyOrder(TreesOf(items, bound)[i]) {
        if i > 0 { assert TreesOf(items, bound)[i] == TreesOf(items[1..], bound)[i - 1]; }
      }
    }
  }

  lemma {:induction false} BranchesInOrder(ms: seq<Member>, bound: Value)
    requires forall m :: m in ms ==> m.1 < bound && Fit(m.1)
    ensures forall i :: 0 <= i < |ms| ==>
              BranchesOf(ms, bound)[i].key == ms[i].0 && InKeyOrder(BranchesOf(ms, bound)[i].tree)
    decreases bound, |ms|
  {
    if ms != [] {
      assert ms[0] in ms && forall m :: m in ms[1..] ==> m in ms;
      TreeInOrder(ms[0].1);
      BranchesInOrder(ms[1..], bound);
      forall i | 0 <= i < |ms|
        ensures BranchesOf(ms, bound)[i].key == ms[i].0 && InKeyOrder(BranchesOf(ms, bound)[i].tree)
      {
        if i > 0 { assert BranchesOf(ms, bound)[i] == BranchesOf(ms[1..], bound)[i - 1] && ms[i] == ms[1..][i - 1]; }
      }
    }
  }

  lemma {:induction false} TreeInOrder(v: Value)
    requires Fit(v)
    ensures InKeyOrder(TreeOf(v))
    decreases v
  {
    match v
    case List(items) => TreesInOrder(items, v);
    case Tuple(items) => TreesInOrder(items, v);
    case Dict(_) => if Members(v).Ok? { ObjectInOrder(v); }
    case _ =>
  }

  lemma {:induction false} ObjectInOrder(v: Value)
    requires v.Dict? && Fit(v) && Members(v).Ok?
    ensures InKeyOrder(TreeOf(v))
    decreases v, |v.entries| + 1
  {
    FitMembers(v);
    var ms := Sort(Members(v).value);
    SortMembers(Members(v).value);
    SortSorted(Members(v).value);
    BranchesInOrder(ms, v);
    forall i | 0 < i < |ms| ensures Collections.LexBy(Utf16(ms[i - 1].0), Utf16(ms[i].0)) {
      assert KeyLess(ms[i - 1].0, ms[i].0);
      Collections.LexExactly(Utf16(ms[i - 1].0), Utf16(ms[i].0));
    }
  }

  /** A canonical text read back means what the payload means, and says its keys in order at every depth. */
  lemma CanonicalTextReads(payload: Value)
    requires WellFormed(payload) && JcsText(payload).Ok?
    ensures var read := Read(JcsText(payload).value);
            read.Ok? && Denote(payload) == Ok(Meaning(read.value)) && InKeyOrder(read.value)
  {
    var v := Plain(payload);
    PlainKeepsMeaning(payload);
    DumpOk(v);
    ValueReads(v, "");
    assert Dump(v).value + "" == Dump(v).value;
    TreeMeans(v);
    TreeInOrder(v);
  }

  /** A text, followed by anything a value may be followed by, is the text of one meaning only. */
  lemma TextFixesMeaning(a: Value, x: string, b: Value, y: string)
    requires Fit(a) && Fit(b) && Dump(a).Ok? && Dump(b).Ok?
    requires Stop(x) && Stop(y) && Dump(a).value + x == Dump(b).value + y
    ensures Denote(a).Ok? && Denote(a) == Denote(b) && x == y
  {
    ValueReads(a, x);
    ValueReads(b, y);
    DumpOk(a);
    DumpOk(b);
    TreeMeans(a);
    TreeMeans(b);
  }

  // ---------------------------------------------------------------- the hashes

  /** Two payloads have the same canonical text exactly when they mean the same JSON object; and a payload
      has one exactly when it means one. */
  lemma CanonicalTextIsMeaning(a: Value, b: Value)
    requires WellFormed(a) && WellFormed(b)
    ensures JcsText(a).Ok? <==> (a.Dict? || a.Mapping?) && Denote(a).Ok?
    ensures JcsText(a).Ok? && JcsText(b).Ok? ==> (JcsText(a) == JcsText(b) <==> Denote(a) == Denote(b))
  {
    PlainKeepsMeaning(a);
    PlainKeepsMeaning(b);
    DumpOk(Plain(a));
    if JcsText(a).Ok? && JcsText(b).Ok? {
      if Denote(a) == Denote(b) {
        MeaningFixesText(Plain(a), Plain(b));
      }
      if JcsText(a) == JcsText(b) {
        assert Dump(Plain(a)).value + "" == Dump(Plain(b)).value + "";
        TextFixesMeaning(Plain(a), "", Plain(b), "");
      }
    }
  }

  lemma MembersMean(ms: seq<Member>, bound: Value)
    requires (forall m :: m in ms ==> m.1 < bound) && ms != []
    ensures ms[0] in ms
    ensures DenoteMembers(ms, bound) ==
              if Denote(ms[0].1).Ok? && DenoteMembers(ms[1..], bound).Ok?
              then Ok(DenoteMembers(ms[1..], bound).value[ms[0].0 := Denote(ms[0].1).value]) else Error
  {
  }

  lemma EnvelopeIsWellFormed(name: string, version: string, payload: Value)
    requires WellFormed(payload)
    ensures WellFormed(Envelope(name, version, payload))
  {
    assert |"contract_name"| == 13 && |"contract_version"| == 16 && |"payload"| == 7;
  }

  function ThreeKeys(name: string, version: string, payload: Json): Json {
    JObject(map["contract_name" := JString(name), "contract_version" := JString(version), "payload" := payload])
  }

  lemma EnvelopeMembers(name: string, version: string, payload: Value)
    ensures Members(Envelope(name, version, payload)) ==
            Ok([("contract_name", Str(name)), ("contract_version", Str(version)), ("payload", payload)])
  {
    var v := Envelope(name, version, payload);
    assert Members(v).Ok?;
    assert Members(v).value == [("contract_name", Str(name)), ("contract_version", Str(version)), ("payload", payload)];
  }

  lemma ThreeMembersMean(k: string, l: string, m: string, a: Value, b: Value, c: Value, bound: Value)
    requires a < bound && b < bound && c < bound
    ensures DenoteMembers([(k, a), (l, b), (m, c)], bound) ==
              if Denote(a).Ok? && Denote(b).Ok? && Denote(c).Ok?
              then Ok(map[m := Denote(c).value][l := Denote(b).value][k := Denote(a).value]) else Error
  {
    var ms := [(k, a), (l, b), (m, c)];
    assert ms[1..] == [(l, b), (m, c)] && [(l, b), (m, c)][1..] == [(m, c)];
    MembersMean(ms, bound);
    MembersMean([(l, b), (m, c)], bound);
    LastMemberMeans(m, c, bound);
  }

  lemma LastMemberMeans(k: string, v: Value, bound: Value)
    requires v < bound
    ensures DenoteMembers([(k, v)], bound) == if Denote(v).Ok? then Ok(map[k := Denote(v).value]) else Error
  {
    MembersMean([(k, v)], bound);
    assert [(k, v)][1..] == [];
  }

  lemma EnvelopeMeaning(name: string, version: string, payload: Value)
    ensures Denote(Envelope(name, version, payload)) ==
              if Denote(payload).Ok? then Ok(ThreeKeys(name, version, Denote(payload).value)) else Error
  {
    var v := Envelope(name, version, payload);
    EnvelopeMembers(name, version, payload);
    InsideEnvelope(name, version, payload);
    ThreeMembersMean("contract_name", "contract_version", "payload", Str(name), Str(version), payload, v);
    if Denote(payload).Ok? {
      var j := Denote(payload).value;
      assert map["payload" := j]["contract_version" := JString(version)]["contract_name" := JString(name)]
             == ThreeKeys(name, version, j).members;
    }
  }

  lemma InsideEnvelope(name: string, version: string, payload: Value)
    ensures var v := Envelope(name, version, payload); Str(name) < v && Str(version) < v && payload < v
  {
    var v := Envelope(name, version, payload);
    assert v.entries[0].value == Str(name) && v.entries[1].value == Str(version) && v.entries[2].value == payload;
  }

  /** Two contract hashes coincide exactly when name, version and payload all do. */
  lemma ContractsCoincide(registered: set<(string, string)>, name: string, version: string, payload: Value,
                          name': string, version': string, payload': Value)
    requires WellFormed(payload) && WellFormed(payload')
    requires ContractText(registered, name, version, payload).Ok?
    requires ContractText(registered, name', version', payload').Ok?
    ensures ContractText(registered, name, version, payload) == ContractText(registered, name', version', payload') <==>
              name == name' && version == version' && Denote(payload) == Denote(payload')
  {
    EnvelopeMeaning(name, version, payload);
    EnvelopeMeaning(name', version', payload');
    EnvelopeIsWellFormed(name, version, payload);
    EnvelopeIsWellFormed(name', version', payload');
    CanonicalTextIsMeaning(Envelope(name, version, payload), Envelope(name', version', payload'));
    CanonicalTextIsMeaning(Envelope(name', version', payload'), Envelope(name, version, payload));
    ThreeKeysInjective(name, version, Denote(payload).value, name', version', Denote(payload').value);
  }

  lemma ThreeKeysInjective(name: string, version: string, j: Json, name': string, version': string, j': Json)
    ensures ThreeKeys(name, version, j) == ThreeKeys(name', version', j') <==>
              name == name' && version == version' && j == j'
  {
    var m, n := ThreeKeys(name, version, j).members, ThreeKeys(name', version', j').members;
    if m == n {
      assert m["contract_name"] == n["contract_name"] && m["contract_version"] == n["contract_version"];
      assert m["payload"] == n["payload"];
    }
  }

  /** A bare payload hash is a contract hash exactly when the payload is itself that three-key object. */
  lemma BareMatchesContract(registered: set<(string, string)>, bare: Value, name: string, version: string,
                            payload: Value)
    requires WellFormed(bare) && WellFormed(payload)
    requires JcsText(bare).Ok? && ContractText(registered, name, version, payload).Ok?
    ensures Denote(payload).Ok?
    ensures JcsText(bare) == ContractText(registered, name, version, payload) <==>
              Denote(bare) == Ok(ThreeKeys(name, version, Denote(payload).value))
  {
    EnvelopeMeaning(name, version, payload);
    EnvelopeIsWellFormed(name, version, payload);
    CanonicalTextIsMeaning(Envelope(name, version, payload), bare);
    CanonicalTextIsMeaning(bare, Envelope(name, version, payload));
  }

  /** Such a payload: the envelope itself, hashed bare. */
  lemma EnvelopeHashedBare(name: string, version: string)
    ensures var empty := Dict([]);
            && WellFormed(Envelope(name, version, empty)) && JcsText(Envelope(name, version, empty)).Ok?
            && JcsText(Envelope(name, version, empty)) == ContractText({(name, version)}, name, version, empty)
  {
    var empty := Dict([]);
    EnvelopeIsWellFormed(name, version, empty);
    EnvelopeMeaning(name, version, empty);
    EmptyMeans();
    CanonicalTextIsMeaning(Envelope(name, version, empty), Envelope(name, version, empty));
  }

  lemma EmptyMeans()
    ensures WellFormed(Dict([])) && Denote(Dict([])) == Ok(JObject(map[]))
  {
    var v := Dict([]);
    assert Members(v).Ok? && Members(v).value == [];
  }

  /** Payloads that are single numbers under one key have one text exactly when the numbers are equal, integer or
      float; `FloatText.NormalForm` and `FloatText.NumberOfText` say what equal means. */
  lemma NumbersCoincide(key: string, a: Value, b: Value)
    requires (a.Int? || a.Float?) && (b.Int? || b.Float?) && Denote(a).Ok? && Denote(b).Ok?
    ensures var p, q := Dict([Entry(Name(key), a)]), Dict([Entry(Name(key), b)]);
            && JcsText(p).Ok? && JcsText(q).Ok?
            && (JcsText(p) == JcsText(q) <==> FloatText.SameValue(Denote(a).value.number, Denote(b).value.number))
  {
    var p, q := Dict([Entry(Name(key), a)]), Dict([Entry(Name(key), b)]);
    OneMember(key, a);
    OneMember(key, b);
    CanonicalTextIsMeaning(p, q);
    CanonicalTextIsMeaning(q, p);
    NumberDump(a);
    NumberDump(b);
    var x, y := Denote(a).value, Denote(b).value;
    assert map[key := x][key] == x && map[key := y][key] == y;
    FloatText.NormalForm(x.number, y.number);
  }

  lemma OneMember(key: string, v: Value)
    requires (v.Int? || v.Float?) && Denote(v).Ok?
    ensures var p := Dict([Entry(Name(key), v)]);
            WellFormed(p) && Denote(p) == Ok(JObject(map[key := Denote(v).value]))
  {
    var p := Dict([Entry(Name(key), v)]);
    assert p.entries[0].value == v;
    assert Members(p).Ok? && Members(p).value == [(key, v)];
    LastMemberMeans(key, v, p);
  }
}
