/** What a payload says as JSON, node by node, and which payloads are refused. */
module CanonicalMeaning {
  import opened Options
  import opened Canonical
  import opened JsonText
  import opened Numerals
  import FloatText

  /** Nothing in it is refused: integers up to 2^53 - 1 either way, finite floats, string keys, and no other type. */
  ghost predicate Writable(v: Value)
    decreases v
  {
    if v.List? || v.Tuple? then forall i :: 0 <= i < |v.items| ==> Writable(v.items[i])
    else if v.Dict? || v.Mapping? then
      forall i :: 0 <= i < |v.entries| ==> v.entries[i].key.Name? && Writable(v.entries[i].value)
    else
      match v
      case Int(n) => -9007199254740991 <= n <= 9007199254740991
      case Float(f) => !f.NotFinite?
      case Unsupported => false
      case _ => true
  }

  predicate Named(entries: seq<Entry>, i: nat, name: string) { i < |entries| && entries[i].key == Name(name) }

  /** The JSON value says what the payload says: arrays item by item, objects member by member. */
  ghost predicate Says(v: Value, j: Json)
    decreases v
  {
    if v.List? || v.Tuple? then
      j.JArray? && |j.items| == |v.items| && forall i :: 0 <= i < |v.items| ==> Says(v.items[i], j.items[i])
    else if v.Dict? || v.Mapping? then
      && j.JObject? && (forall name :: name in j.members <==> exists i: nat :: Named(v.entries, i, name))
      && forall i :: 0 <= i < |v.entries| && v.entries[i].key.Name? && v.entries[i].key.name in j.members ==>
           Says(v.entries[i].value, j.members[v.entries[i].key.name])
    else
      match v
      case Null => j == JNull
      case Bool(b) => j == JBool(b)
      case Int(n) => j.JNumber? && FloatText.SameNumber(j.number, n)
      case Float(f) => j == JNumber(f)
      case Str(s) => j == JString(s)
      case _ => false
  }

  lemma {:induction false} ItemsDenoted(items: seq<Value>, bound: Value)
    requires forall v :: v in items ==> v < bound
    ensures DenoteItems(items, bound).Ok? <==> forall i :: 0 <= i < |items| ==> Denote(items[i]).Ok?
    ensures DenoteItems(items, bound).Ok? ==>
              forall i :: 0 <= i < |items| ==> Denote(items[i]) == Ok(DenoteItems(items, bound).value[i])
    decreases |items|
  {
    if items != [] {
      assert items[0] in items && forall v :: v in items[1..] ==> v in items;
      ItemsMean(items, bound);
      ItemsDenoted(items[1..], bound);
      ConsIndex(items);
    }
  }

  lemma ConsIndex(items: seq<Value>)
    requires items != []
    ensures (forall i :: 0 <= i < |items| ==> Denote(items[i]).Ok?) <==>
              Denote(items[0]).Ok? && forall i :: 0 <= i < |items| - 1 ==> Denote(items[1..][i]).Ok?
  {
    assert forall i :: 0 < i < |items| ==> items[i] == items[1..][i - 1];
  }

  /** The members of a dict or mapping whose keys are all strings. */
  lemma MembersAre(v: Value)
    requires (v.Dict? || v.Mapping?) && WellFormed(v)
    ensures Members(v).Ok? <==> forall i :: 0 <= i < |v.entries| ==> v.entries[i].key.Name?
    ensures Members(v).Ok? ==>
              var ms := Members(v).value;
              && |ms| == |v.entries| && DistinctKeys(ms)
              && forall i :: 0 <= i < |ms| ==> v.entries[i].key == Name(ms[i].0) && v.entries[i].value == ms[i].1
  {
  }

  ghost predicate Known(v: Value) { (Denote(v).Ok? <==> Writable(v)) && (Denote(v).Ok? ==> Says(v, Denote(v).value)) }

  lemma {:induction false} ObjectSays(v: Value)
    requires (v.Dict? || v.Mapping?) && WellFormed(v)
    ensures Known(v)
    decreases v, 0
  {
    MembersAre(v);
    forall i | 0 <= i < |v.entries| ensures Known(v.entries[i].value) { DenoteSays(v.entries[i].value); }
    ObjectWritable(v);
    if Denote(v).Ok? { MembersSay(v); }
  }

  lemma ObjectWritable(v: Value)
    requires (v.Dict? || v.Mapping?) && WellFormed(v)
    requires forall i :: 0 <= i < |v.entries| ==> Known(v.entries[i].value)
    ensures Denote(v).Ok? <==> Writable(v)
  {
    MembersAre(v);
    if Members(v).Ok? { DenoteMembersAt(Members(v).value, v); }
  }

  lemma MembersSay(v: Value)
    requires (v.Dict? || v.Mapping?) && WellFormed(v) && Denote(v).Ok?
    requires forall i :: 0 <= i < |v.entries| ==> Known(v.entries[i].value)
    ensures Says(v, Denote(v).value)
  {
    MembersAre(v);
    var ms, obj := Members(v).value, Denote(v).value.members;
    DenoteMembersAt(ms, v);
    forall name ensures name in obj <==> exists i: nat :: Named(v.entries, i, name) { KeyNamed(v, ms, name); }
    forall i | 0 <= i < |v.entries|
      ensures ms[i].0 in obj && Says(v.entries[i].value, obj[ms[i].0])
    {
      assert Known(v.entries[i].value);
    }
  }

  lemma KeyNamed(v: Value, ms: seq<Member>, name: string)
    requires (v.Dict? || v.Mapping?) && |ms| == |v.entries|
    requires forall i :: 0 <= i < |ms| ==> v.entries[i].key == Name(ms[i].0)
    ensures HasKey(ms, name) <==> exists i: nat :: Named(v.entries, i, name)
  {
    if HasKey(ms, name) {
      var i :| 0 <= i < |ms| && ms[i].0 == name;
      assert Named(v.entries, i, name);
    }
    if i: nat :| Named(v.entries, i, name) {
      assert ms[i].0 == name;
    }
  }

  lemma {:induction false} ArraySays(v: Value)
    requires (v.List? || v.Tuple?) && WellFormed(v)
    ensures Known(v)
    decreases v, 0
  {
    forall i | 0 <= i < |v.items| ensures Known(v.items[i]) { DenoteSays(v.items[i]); }
    ItemsDenoted(v.items, v);
  }

  /** A payload has a meaning exactly when nothing in it is refused, and the meaning says what it says. */
  lemma {:induction false} DenoteSays(v: Value)
    requires WellFormed(v)
    ensures Known(v)
    decreases v, 1
  {
    match v
    case List(_) => ArraySays(v);
    case Tuple(_) => ArraySays(v);
    case Dict(_) => ObjectSays(v);
    case Mapping(_) => ObjectSays(v);
    case _ => ScalarSays(v);
  }

  lemma ScalarSays(v: Value)
    requires !v.List? && !v.Tuple? && !v.Dict? && !v.Mapping?
    ensures Known(v)
  {
    if v.Int? && -SAFE <= v.n <= SAFE { FloatText.NumberOfText(v.n); }
  }

  /** A payload is hashed exactly when it is an object and nothing in it is refused; and its canonical text, read back,
      says exactly what the payload says, its keys in order at every depth. */
  lemma TextSays(payload: Value)
    requires WellFormed(payload)
    ensures JcsText(payload).Ok? <==> (payload.Dict? || payload.Mapping?) && Writable(payload)
    ensures JcsText(payload).Ok? ==>
              var read := Read(JcsText(payload).value);
              read.Ok? && Says(payload, Meaning(read.value)) && InKeyOrder(read.value)
  {
    DenoteSays(payload);
    CanonicalTextIsMeaning(payload, payload);
    if JcsText(payload).Ok? { CanonicalTextReads(payload); }
  }
}
