/** JSON values, JSON text as a tree, and a reader of JSON text without insignificant white space. */
module JsonText {
  import opened Options
  import opened Numerals
  import Collections
  import FloatText

  /** A JSON value: an object is a set of members, whatever order they were inserted in, and a number is a number,
      whether it was an integer or a float. */
  datatype Json =
    | JNull
    | JBool(b: bool)
    | JNumber(number: FloatText.Double)
    | JString(s: string)
    | JArray(items: seq<Json>)
    | JObject(members: map<string, Json>)

  /** What a text says, its members in the order of the text. */
  datatype Tree =
    | TNull
    | TBool(b: bool)
    | TNumber(number: FloatText.Double)
    | TString(s: string)
    | TArray(items: seq<Tree>)
    | TObject(members: seq<Branch>)

  datatype Branch = Branch(key: string, tree: Tree)

  /** The value of a tree. */
  ghost function Meaning(t: Tree): Json
    decreases t
  {
    match t
    case TNull => JNull
    case TBool(b) => JBool(b)
    case TNumber(f) => JNumber(f)
    case TString(s) => JString(s)
    case TArray(items) => JArray(MeaningOfItems(items, t))
    case TObject(members) => JObject(MeaningOfMembers(members, t))
  }

  ghost function MeaningOfItems(items: seq<Tree>, bound: Tree): (r: seq<Json>)
    requires forall t :: t in items ==> t < bound
    ensures |r| == |items|
    decreases bound, |items|
  {
    if items == [] then []
    else
      assert items[0] in items && forall t :: t in items[1..] ==> t in items;
      [Meaning(items[0])] + MeaningOfItems(items[1..], bound)
  }

  ghost function MeaningOfMembers(ms: seq<Branch>, bound: Tree): map<string, Json>
    requires forall m :: m in ms ==> m.tree < bound
    decreases bound, |ms|
  {
    if ms == [] then map[]
    else
      assert ms[0] in ms && forall m :: m in ms[1..] ==> m in ms;
      MeaningOfMembers(ms[1..], bound)[ms[0].key := Meaning(ms[0].tree)]
  }

  // ---------------------------------------------------------------- the reader

  function HexValue(c: char): Result<nat> {
    if '0' <= c <= '9' then Ok(c as nat - '0' as nat)
    else if 'a' <= c <= 'f' then Ok(c as nat - 'a' as nat + 10)
    else if 'A' <= c <= 'F' then Ok(c as nat - 'A' as nat + 10)
    else Error
  }

  /** Four hexadecimal digits. */
  function ReadUnit(t: string): (r: Result<nat>)
    ensures r.Ok? ==> r.value < 0x10000
  {
    if |t| < 4 then Error
    else
      var a :- HexValue(t[0]);
      var b :- HexValue(t[1]);
      var c :- HexValue(t[2]);
      var d :- HexValue(t[3]);
      if a < 16 && b < 16 && c < 16 && d < 16 then Ok(((a * 16 + b) * 16 + c) * 16 + d) else Error
  }

  datatype Piece = Piece(c: char, rest: string)

  /** One character of a string: itself, or an escape of RFC 8259; a pair of surrogate escapes is one character. */
  function ReadChar(t: string): (r: Result<Piece>)
    requires t != "" && t[0] != '"'
    ensures r.Ok? ==> |r.value.rest| < |t|
  {
    if t[0] < '\U{20}' then Error
    else if t[0] != '\\' then Ok(Piece(t[0], t[1..]))
    else if |t| < 2 then Error
    else if t[1] == 'u' then ReadEscapedUnit(t)
    else
      var c :- Unescaped(t[1]);
      Ok(Piece(c, t[2..]))
  }

  function Unescaped(c: char): Result<char> {
    match c
    case '"' => Ok('"')
    case '\\' => Ok('\\')
    case '/' => Ok('/')
    case 'b' => Ok('\U{08}')
    case 'f' => Ok('\U{0C}')
    case 'n' => Ok('\n')
    case 'r' => Ok('\r')
    case 't' => Ok('\t')
    case _ => Error
  }

  function ReadEscapedUnit(t: string): (r: Result<Piece>)
    requires |t| >= 2
    ensures r.Ok? ==> |r.value.rest| < |t|
  {
    var u :- ReadUnit(t[2..]);
    if u < 0xD800 || u >= 0xE000 then Ok(Piece(u as char, t[6..]))
    else if u < 0xDC00 && |t| >= 12 && t[6] == '\\' && t[7] == 'u' then
      var v :- ReadUnit(t[8..]);
      if 0xDC00 <= v < 0xE000 then Ok(Piece((0x10000 + (u - 0xD800) * 0x400 + (v - 0xDC00)) as char, t[12..]))
      else Error
    else Error
  }

  datatype StringRead = StringRead(s: string, rest: string)

  /** A string after its opening quote, and what follows its closing one. */
  function ReadString(t: string): (r: Result<StringRead>)
    ensures r.Ok? ==> |r.value.rest| < |t|
    decreases |t|
  {
    if t == "" then Error
    else if t[0] == '"' then Ok(StringRead("", t[1..]))
    else
      var first :- ReadChar(t);
      var more :- ReadString(first.rest);
      Ok(StringRead([first.c] + more.s, more.rest))
  }

  function NumberLength(s: string): (n: nat)
    ensures n <= |s|
  {
    if s != "" && NumberChar(s[0]) then 1 + NumberLength(s[1..]) else 0
  }

  datatype TreeRead = TreeRead(tree: Tree, rest: string)
  datatype ItemsRead = ItemsRead(items: seq<Tree>, rest: string)
  datatype MembersRead = MembersRead(members: seq<Branch>, rest: string)

  /** A value at the beginning of a text, and what follows it. */
  function ReadValue(t: string): (r: Result<TreeRead>)
    ensures r.Ok? ==> |r.value.rest| < |t|
    decreases |t|, 1
  {
    if t == "" then Error
    else if t[0] == '-' || '0' <= t[0] <= '9' then ReadNumberValue(t)
    else if t[0] == '"' then
      var s :- ReadString(t[1..]);
      Ok(TreeRead(TString(s.s), s.rest))
    else if t[0] == '[' then
      var items :- ReadItems(t[1..]);
      Ok(TreeRead(TArray(items.items), items.rest))
    else if t[0] == '{' then
      var members :- ReadMembers(t[1..]);
      Ok(TreeRead(TObject(members.members), members.rest))
    else if t[0] == 'n' then ReadWord(t, "null", TNull)
    else if t[0] == 't' then ReadWord(t, "true", TBool(true))
    else if t[0] == 'f' then ReadWord(t, "false", TBool(false))
    else Error
  }

  function ReadWord(t: string, word: string, tree: Tree): (r: Result<TreeRead>)
    requires word != ""
    ensures r.Ok? ==> |r.value.rest| < |t|
  {
    if word <= t then Ok(TreeRead(tree, t[|word|..])) else Error
  }

  function ReadNumberValue(t: string): (r: Result<TreeRead>)
    ensures r.Ok? ==> |r.value.rest| < |t|
  {
    var n := NumberLength(t);
    if n == 0 then Error
    else
      var f :- FloatText.ReadNumber(t[..n]);
      Ok(TreeRead(TNumber(f), t[n..]))
  }

  /** The items of an array after its opening bracket. */
  function ReadItems(t: string): (r: Result<ItemsRead>)
    ensures r.Ok? ==> |r.value.rest| < |t|
    decreases |t|, 3
  {
    if t != "" && t[0] == ']' then Ok(ItemsRead([], t[1..])) else ReadSomeItems(t)
  }

  function ReadSomeItems(t: string): (r: Result<ItemsRead>)
    ensures r.Ok? ==> |r.value.rest| < |t|
    decreases |t|, 2
  {
    var first :- ReadValue(t);
    if first.rest == "" then Error
    else if first.rest[0] == ']' then Ok(ItemsRead([first.tree], first.rest[1..]))
    else if first.rest[0] == ',' then
      var more :- ReadSomeItems(first.rest[1..]);
      Ok(ItemsRead([first.tree] + more.items, more.rest))
    else Error
  }

  /** The members of an object after its opening brace. */
  function ReadMembers(t: string): (r: Result<MembersRead>)
    ensures r.Ok? ==> |r.value.rest| < |t|
    decreases |t|, 3
  {
    if t != "" && t[0] == '}' then Ok(MembersRead([], t[1..])) else ReadSomeMembers(t)
  }

  function ReadSomeMembers(t: string): (r: Result<MembersRead>)
    ensures r.Ok? ==> |r.value.rest| < |t|
    decreases |t|, 2
  {
    if t == "" || t[0] != '"' then Error
    else
      var key :- ReadString(t[1..]);
      if key.rest == "" || key.rest[0] != ':' then Error else ReadAfterKey(key.s, key.rest[1..])
  }

  function ReadAfterKey(key: string, t: string): (r: Result<MembersRead>)
    ensures r.Ok? ==> |r.value.rest| < |t|
    decreases |t|, 2
  {
    var first :- ReadValue(t);
    if first.rest == "" then Error
    else if first.rest[0] == '}' then Ok(MembersRead([Branch(key, first.tree)], first.rest[1..]))
    else if first.rest[0] == ',' then
      var more :- ReadSomeMembers(first.rest[1..]);
      Ok(MembersRead([Branch(key, first.tree)] + more.members, more.rest))
    else Error
  }

  /** A whole text. */
  function Read(t: string): Result<Tree> {
    var r :- ReadValue(t);
    if r.rest == "" then Ok(r.tree) else Error
  }

  // ---------------------------------------------------------------- how lists read

  lemma LastItem(t: string, tree: Tree, x: string)
    requires ReadValue(t) == Ok(TreeRead(tree, "]" + x))
    ensures ReadSomeItems(t) == Ok(ItemsRead([tree], x)) && ReadItems(t) == ReadSomeItems(t)
  {
    assert ("]" + x)[1..] == x;
  }

  lemma MoreItems(t: string, tree: Tree, u: string, items: seq<Tree>, x: string)
    requires ReadValue(t) == Ok(TreeRead(tree, "," + u)) && ReadSomeItems(u) == Ok(ItemsRead(items, x))
    ensures ReadSomeItems(t) == Ok(ItemsRead([tree] + items, x)) && ReadItems(t) == ReadSomeItems(t)
  {
    assert ("," + u)[1..] == u;
  }

  lemma MemberAt(key: string, t: string, u: string)
    requires t != "" && t[0] == '"' && ReadString(t[1..]) == Ok(StringRead(key, ":" + u))
    ensures ReadMembers(t) == ReadSomeMembers(t)
    ensures ReadSomeMembers(t) == ReadAfterKey(key, u)
  {
    assert (":" + u)[1..] == u;
  }

  lemma LastMember(key: string, t: string, tree: Tree, x: string)
    requires ReadValue(t) == Ok(TreeRead(tree, "}" + x))
    ensures ReadAfterKey(key, t) == Ok(MembersRead([Branch(key, tree)], x))
  {
    assert ("}" + x)[1..] == x;
  }

  lemma MoreMembers(key: string, t: string, tree: Tree, u: string, members: seq<Branch>, x: string)
    requires ReadValue(t) == Ok(TreeRead(tree, "," + u)) && ReadSomeMembers(u) == Ok(MembersRead(members, x))
    ensures ReadAfterKey(key, t) == Ok(MembersRead([Branch(key, tree)] + members, x))
  {
    assert ("," + u)[1..] == u;
  }

  // ---------------------------------------------------------------- the order of keys in a text

  /** The UTF-16 code units of a character. */
  function Units(c: char): seq<nat> {
    var n := c as int;
    if n < 0x10000 then [n] else [0xD800 + (n - 0x10000) / 0x400, 0xDC00 + (n - 0x10000) % 0x400]
  }

  /** The units are the ones a decoder takes back. */
  lemma UnitsBack(c: char)
    ensures forall u :: u in Units(c) ==> 0 <= u < 0x10000
    ensures c as int < 0x10000 ==> Units(c) == [c as int]
    ensures c as int >= 0x10000 ==>
              && |Units(c)| == 2 && 0xD800 <= Units(c)[0] < 0xDC00 <= Units(c)[1] < 0xE000
              && c as int == 0x10000 + (Units(c)[0] - 0xD800) * 0x400 + (Units(c)[1] - 0xDC00)
  {
  }

  function Utf16(s: string): seq<nat> { if s == "" then [] else Units(s[0]) + Utf16(s[1..]) }

  /** At every depth, each key stands before the next: of their UTF-16 units, where the two first differ, it has the
      smaller, or it is a proper prefix. */
  ghost predicate InKeyOrder(t: Tree)
    decreases t
  {
    match t
    case TArray(items) => forall i :: 0 <= i < |items| ==> InKeyOrder(items[i])
    case TObject(ms) =>
      && (forall i :: 0 < i < |ms| ==> Collections.LexBy(Utf16(ms[i - 1].key), Utf16(ms[i].key)))
      && forall i :: 0 <= i < |ms| ==> InKeyOrder(ms[i].tree)
    case _ => true
  }
}
