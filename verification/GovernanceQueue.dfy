/** The review queue: candidate groups, their order, the usage summary of a group and the three counts. */
module GovernanceQueue {
  import opened Options
  import opened Collections
  import Canonical
  import Numerals
  import Text

  /** One "already depended on by" record. */
  datatype Usage = Usage(category: string, state: string, count: Option<int>, display: string,
                         store: string, basis: string, reason: string)

  /** A pending decision. `entityId` is "" when the detail carries none; `strength` is absent when it is not
      a number. */
  datatype Item = Item(factKey: string, catalogs: seq<string>, entityId: string, strength: Option<real>,
                       actions: seq<string>, usages: seq<Usage>)

  datatype Group = Group(entity: string, catalogs: seq<string>)

  datatype Entry = Entry(key: string, group: Option<Group>, items: seq<Item>)

  // ---------------------------------------------------------------- candidate groups

  const BAR: char := '|'

  function Label(item: Item): string { if item.entityId == "" then "(unnamed entity)" else item.entityId }

  function SortNames(names: seq<string>): seq<string> { Sort(names, Canonical.KeyLess) }

  function GroupKey(item: Item): string { Label(item) + [BAR] + Text.Join(SortNames(item.catalogs), [BAR]) }

  /** `rank(b) - rank(a) < 0`: a stronger before a weaker, any recorded strength before none. */
  predicate Stronger(a: Item, b: Item) {
    a.strength.Some? && (b.strength.None? || a.strength.value > b.strength.value)
  }

  /** `byStrength`. */
  function ByStrength(items: seq<Item>): seq<Item> { Sort(items, Stronger) }

  function EntryOf(key: string, bucket: seq<Item>): Entry
    requires bucket != []
  {
    if |bucket| > 1 then Entry(key, Some(Group(Label(bucket[0]), bucket[0].catalogs)), ByStrength(bucket))
    else Entry(bucket[0].factKey, None, bucket)
  }

  function Single(item: Item): Entry { Entry(item.factKey, None, [item]) }

  /** The entries of a section, said by what each must hold. */
  ghost predicate Sectioned(kind: string, items: seq<Item>, entries: seq<Entry>) {
    if kind != "entity_bridge" then
      |entries| == |items| && forall i :: 0 <= i < |items| ==> entries[i] == Single(items[i])
    else
      var ks := Keys(items, GroupKey);
      |entries| == |ks| && forall i :: 0 <= i < |ks| ==>
        Bucket(items, GroupKey, ks[i]) != [] && entries[i] == EntryOf(ks[i], Bucket(items, GroupKey, ks[i]))
  }

  /** `entriesFor`. */
  method EntriesFor(kind: string, items: seq<Item>) returns (entries: seq<Entry>)
    ensures Sectioned(kind, items, entries)
  {
    if kind != "entity_bridge" {
      return seq(|items|, i requires 0 <= i < |items| => Single(items[i]));
    }
    NothingFiled(GroupKey);
    assert [] + items == items;
    var order, buckets := FileAll([], items, GroupKey, [], map[]);
    GroupedReady(items, GroupKey, order, buckets);
    entries := EntryList(order, buckets);
  }

  /** `[...buckets].map(...)`. */
  function EntryList(order: seq<string>, buckets: map<string, seq<Item>>): (r: seq<Entry>)
    requires Ready(order, buckets)
    ensures |r| == |order|
    ensures forall i :: 0 <= i < |order| ==> r[i] == EntryOf(order[i], buckets[order[i]])
  {
    seq(|order|, i requires 0 <= i < |order| => EntryOf(order[i], buckets[order[i]]))
  }

  // ---------------------------------------------------------------- which bridges share an entry

  lemma SortNamesEqual(c: seq<string>, d: seq<string>)
    ensures SortNames(c) == SortNames(d) <==> multiset(c) == multiset(d)
  {
    if multiset(c) == multiset(d) {
      Canonical.KeyOrder();
      SortOrdered(c, Canonical.KeyLess);
      SortOrdered(d, Canonical.KeyLess);
      SortedUnique(SortNames(c), SortNames(d), Canonical.KeyLess);
    }
  }

  /** What the key is joined from. No catalogs and one unnamed catalog leave the same trace. */
  function Parts(item: Item): seq<string> { [Label(item)] + CatalogParts(item.catalogs) }

  function CatalogParts(catalogs: seq<string>): seq<string> { if catalogs == [] then [""] else SortNames(catalogs) }

  predicate NoBar(item: Item) {
    BAR !in Label(item) && forall i :: 0 <= i < |item.catalogs| ==> BAR !in item.catalogs[i]
  }

  lemma KeyIsJoined(item: Item)
    ensures GroupKey(item) == Text.Join(Parts(item), [BAR])
  {
    var parts := Parts(item);
    assert |SortNames(item.catalogs)| == |multiset(SortNames(item.catalogs))| == |item.catalogs|;
    assert parts[1..] == CatalogParts(item.catalogs);
    assert Text.Join([""], [BAR]) == Text.Join([], [BAR]) == "";
    if item.catalogs == [] {
      assert SortNames(item.catalogs) == [];
    }
  }

  lemma PartsHaveNoBar(item: Item)
    requires NoBar(item)
    ensures forall p :: p in Parts(item) ==> BAR !in p
  {
    forall p | p in SortNames(item.catalogs) ensures BAR !in p {
      assert p in multiset(SortNames(item.catalogs)) && p in item.catalogs;
    }
  }

  predicate Unnamed(catalogs: seq<string>) { catalogs == [] || catalogs == [""] }

  lemma ConsEqual(x: string, s: seq<string>, y: string, t: seq<string>)
    ensures [x] + s == [y] + t <==> x == y && s == t
  {
    if [x] + s == [y] + t {
      assert ([x] + s)[0] == x && ([y] + t)[0] == y;
      assert ([x] + s)[1..] == s && ([y] + t)[1..] == t;
    }
  }

  lemma CatalogPartsEqual(c: seq<string>, d: seq<string>)
    ensures CatalogParts(c) == CatalogParts(d) <==> multiset(c) == multiset(d) || (Unnamed(c) && Unnamed(d))
  {
    assert SortNames([""]) == [""];
    SortNamesEqual(c, d);
    SortNamesEqual([""], d);
    SortNamesEqual(c, [""]);
    OneName(c);
    OneName(d);
  }

  lemma PartsEqual(a: Item, b: Item)
    ensures Parts(a) == Parts(b) <==> SameBridgeEnds(a, b)
  {
    ConsEqual(Label(a), CatalogParts(a.catalogs), Label(b), CatalogParts(b.catalogs));
    CatalogPartsEqual(a.catalogs, b.catalogs);
  }

  lemma OneName(c: seq<string>)
    ensures multiset(c) == multiset([""]) <==> c == [""]
    ensures multiset(c) == multiset([]) <==> c == []
  {
    if multiset(c) == multiset([""]) {
      assert |multiset(c)| == |c| == 1;
      assert c[0] in multiset(c);
    }
    assert |multiset(c)| == |c|;
  }

  predicate SameBridgeEnds(a: Item, b: Item) {
    Label(a) == Label(b) &&
    (multiset(a.catalogs) == multiset(b.catalogs) || (Unnamed(a.catalogs) && Unnamed(b.catalogs)))
  }

  /** Two bridges share an entry exactly when label and sorted catalogs, cut at every bar, are the same pieces. For
      names without a bar that is: the same entity label and the same catalogs, up to order; the one exception is
      that no catalogs and a single unnamed catalog are not told apart. */
  lemma SharedEntry(a: Item, b: Item)
    ensures GroupKey(a) == GroupKey(b) <==> Text.Pieces(Parts(a), BAR) == Text.Pieces(Parts(b), BAR)
    ensures NoBar(a) && NoBar(b) ==> (GroupKey(a) == GroupKey(b) <==> SameBridgeEnds(a, b))
  {
    KeyIsJoined(a);
    KeyIsJoined(b);
    Text.SplitOfJoin(Parts(a), BAR);
    Text.SplitOfJoin(Parts(b), BAR);
    Text.JoinSplit(GroupKey(a), BAR);
    Text.JoinSplit(GroupKey(b), BAR);
    if NoBar(a) && NoBar(b) {
      PartsHaveNoBar(a);
      PartsHaveNoBar(b);
      Text.SplitJoin(Parts(a), BAR);
      Text.SplitJoin(Parts(b), BAR);
      PartsEqual(a, b);
    }
  }

  /** With a bar, different ends can share an entry. */
  lemma BarMerges(a: Item, b: Item)
    requires a.entityId == "x" && a.catalogs == ["y|z"] && b.entityId == "x|y" && b.catalogs == ["z"]
    ensures GroupKey(a) == GroupKey(b) && !SameBridgeEnds(a, b)
  {
    assert SortNames(["y|z"]) == ["y|z"] && SortNames(["z"]) == ["z"];
    assert GroupKey(a) == "x|y|z" == GroupKey(b);
  }

  // ---------------------------------------------------------------- order

  /** Members of a group: strongest first, those without a recorded strength last, ties in payload order. */
  lemma RankedByStrength(items: seq<Item>)
    ensures multiset(ByStrength(items)) == multiset(items)
    ensures var r := ByStrength(items);
            forall i, j :: 0 <= i < j < |r| && r[j].strength.Some? ==>
              r[i].strength.Some? && r[i].strength.value >= r[j].strength.value
  {
    assert WeakOrder(Stronger);
    SortOrdered(items, Stronger);
  }

  lemma TiesInPayloadOrder(items: seq<Item>, strength: Option<real>)
    ensures Filter(ByStrength(items), (x: Item) => x.strength == strength) ==
            Filter(items, (x: Item) => x.strength == strength)
  {
    SortStable(items, Stronger, (x: Item) => x.strength == strength);
  }

  /** 0: something here is yours to confirm; 1: somebody else's; 2: settled. */
  function Tier(e: Entry): nat {
    if exists i :: 0 <= i < |e.items| && "confirm" in e.items[i].actions then 0
    else if exists i :: 0 <= i < |e.items| && |e.items[i].actions| > 0 then 1
    else 2
  }

  predicate MoreUrgent(a: Entry, b: Entry) { Tier(a) < Tier(b) }

  /** `byUrgency`. */
  function ByUrgency(entries: seq<Entry>): seq<Entry> { Sort(entries, MoreUrgent) }

  function AtTier(entries: seq<Entry>, tier: nat): seq<Entry> { Filter(entries, (e: Entry) => Tier(e) == tier) }

  lemma {:induction false} OrderedByTier(r: seq<Entry>)
    requires Ordered(r, MoreUrgent)
    ensures r == AtTier(r, 0) + AtTier(r, 1) + AtTier(r, 2)
  {
    if r != [] {
      OrderedByTier(r[1..]);
      assert r == [r[0]] + r[1..];
      NoneBelow(r, 0);
      NoneBelow(r, 1);
    }
  }

  lemma NoneBelow(r: seq<Entry>, tier: nat)
    requires Ordered(r, MoreUrgent) && r != []
    ensures tier < Tier(r[0]) ==> AtTier(r[1..], tier) == []
  {
    if tier < Tier(r[0]) {
      forall e | e in r[1..] ensures Tier(e) != tier {
        var i :| 0 <= i < |r[1..]| && r[1..][i] == e;
        assert !MoreUrgent(r[i + 1], r[0]);
      }
      FilterAll(r[1..], (e: Entry) => Tier(e) == tier);
    }
  }

  /** The entries come out as the three tiers one after the other, each in the order it came in. */
  lemma UrgencyIsTiers(entries: seq<Entry>)
    ensures ByUrgency(entries) == AtTier(entries, 0) + AtTier(entries, 1) + AtTier(entries, 2)
  {
    SortOrdered(entries, MoreUrgent);
    OrderedByTier(ByUrgency(entries));
    SortStable(entries, MoreUrgent, (e: Entry) => Tier(e) == 0);
    SortStable(entries, MoreUrgent, (e: Entry) => Tier(e) == 1);
    SortStable(entries, MoreUrgent, (e: Entry) => Tier(e) == 2);
  }

  // ---------------------------------------------------------------- nothing is lost

  function AllItems(entries: seq<Entry>): multiset<Item> {
    if entries == [] then multiset{} else multiset(entries[0].items) + AllItems(entries[1..])
  }

  lemma {:induction false} AllItemsConcat(a: seq<Entry>, b: seq<Entry>)
    ensures AllItems(a + b) == AllItems(a) + AllItems(b)
  {
    if a == [] {
      assert a + b == b;
    } else {
      assert (a + b)[1..] == a[1..] + b;
      AllItemsConcat(a[1..], b);
    }
  }

  lemma {:induction false} TiersCover(entries: seq<Entry>)
    ensures AllItems(entries) == AllItems(AtTier(entries, 0)) + AllItems(AtTier(entries,
        1)) + AllItems(AtTier(entries, 2))
  {
    if entries != [] {
      TiersCover(entries[1..]);
      FirstInTier(entries, 0);
      FirstInTier(entries, 1);
      FirstInTier(entries, 2);
    }
  }

  lemma FirstInTier(entries: seq<Entry>, tier: nat)
    requires entries != []
    ensures AllItems(AtTier(entries, tier)) ==
              (if Tier(entries[0]) == tier then multiset(entries[0].items) else multiset{}) +
              AllItems(AtTier(entries[1..], tier))
  {
    var rest := AtTier(entries[1..], tier);
    if Tier(entries[0]) == tier {
      assert AtTier(entries, tier) == [entries[0]] + rest;
      assert AtTier(entries, tier)[1..] == rest;
    } else {
      assert AtTier(entries, tier) == rest;
    }
  }

  lemma {:induction false} SectionContents(items: seq<Item>, ks: seq<string>, entries: seq<Entry>)
    requires |entries| == |ks|
    requires forall i :: 0 <= i < |ks| ==>
               Bucket(items, GroupKey, ks[i]) != [] && entries[i] == EntryOf(ks[i], Bucket(items, GroupKey, ks[i]))
    ensures AllItems(entries) == Contents(items, GroupKey, ks)
  {
    if ks != [] {
      SectionContents(items, ks[1..], entries[1..]);
    }
  }

  lemma {:induction false} SinglesContents(items: seq<Item>, entries: seq<Entry>)
    requires |entries| == |items| && forall i :: 0 <= i < |items| ==> entries[i] == Single(items[i])
    ensures AllItems(entries) == multiset(items)
  {
    if items != [] {
      SinglesContents(items[1..], entries[1..]);
      assert items == [items[0]] + items[1..];
    }
  }

  /** Grouping and then sorting by urgency shows every item exactly once. */
  lemma EveryItemOnce(kind: string, items: seq<Item>, entries: seq<Entry>)
    requires Sectioned(kind, items, entries)
    ensures AllItems(ByUrgency(entries)) == multiset(items)
  {
    UrgencyIsTiers(entries);
    TiersCover(entries);
    AllItemsConcat(AtTier(entries, 0) + AtTier(entries, 1), AtTier(entries, 2));
    AllItemsConcat(AtTier(entries, 0), AtTier(entries, 1));
    if kind != "entity_bridge" {
      SinglesContents(items, entries);
    } else {
      SectionContents(items, Keys(items, GroupKey), entries);
      BucketsCover(items, GroupKey);
    }
  }

  /** The three counts over the shown items add up. */
  lemma {:induction false} CountsAddUp(items: seq<Item>)
    ensures |Filter(items, (x: Item) => "confirm" in x.actions)| +
            |Filter(items, (x: Item) => |x.actions| > 0 && "confirm" !in x.actions)| +
            |Filter(items, (x: Item) => |x.actions| == 0)| == |items|
  {
    if items != [] {
      CountsAddUp(items[1..]);
    }
  }

  // ---------------------------------------------------------------- usage of a group

  function CategoryOf(u: Usage): string { u.category }

  predicate Measured(u: Usage) { u.state == "counted" && u.count.Some? }

  function Total(all: seq<Usage>): int {
    if all == [] then 0 else (if all[0].count.Some? then all[0].count.value else 0) + Total(all[1..])
  }

  predicate AnyUnreadable(all: seq<Usage>) { exists i :: 0 <= i < |all| && all[i].state == "unreadable" }

  predicate AllMeasured(all: seq<Usage>) { forall i :: 0 <= i < |all| ==> Measured(all[i]) }

  function GroupState(all: seq<Usage>): string {
    if AnyUnreadable(all) then "unreadable" else if AllMeasured(all) then "counted" else "not_tracked_yet"
  }

  function GroupCount(all: seq<Usage>): Option<int> { if AllMeasured(all) then Some(Total(all)) else None }

  /** The one record shown for a category: the first record's words with the group's state and count. */
  function Summary(all: seq<Usage>): Usage
    requires all != []
  {
    var count := GroupCount(all);
    all[0].(state := GroupState(all), count := count,
            display := if count.None? then GroupState(all) else Numerals.IntText(count.value))
  }

  function AllUsages(items: seq<Item>): seq<Usage> {
    if items == [] then [] else AllUsages(items[..|items| - 1]) + items[|items| - 1].usages
  }

  /** One summary per category, in order of first appearance. */
  ghost predicate Summarised(items: seq<Item>, shown: seq<Usage>) {
    var all := AllUsages(items);
    var ks := Keys(all, CategoryOf);
    |shown| == |ks| && forall i :: 0 <= i < |ks| ==>
      Bucket(all, CategoryOf, ks[i]) != [] && shown[i] == Summary(Bucket(all, CategoryOf, ks[i]))
  }

  function SummaryList(order: seq<string>, buckets: map<string, seq<Usage>>): (r: seq<Usage>)
    requires Ready(order, buckets)
    ensures |r| == |order|
    ensures forall i :: 0 <= i < |order| ==> r[i] == Summary(buckets[order[i]])
  {
    seq(|order|, i requires 0 <= i < |order| => Summary(buckets[order[i]]))
  }

  /** `groupUsages`. */
  method GroupUsages(items: seq<Item>) returns (shown: seq<Usage>)
    ensures Summarised(items, shown)
  {
    var order: seq<string>, byCategory: map<string, seq<Usage>> := [], map[];
    NothingFiled(CategoryOf);
    for n := 0 to |items|
      invariant Grouped(AllUsages(items[..n]), CategoryOf, order, byCategory)
    {
      assert items[..n + 1][..n] == items[..n];
      order, byCategory := FileAll(AllUsages(items[..n]), items[n].usages, CategoryOf, order, byCategory);
    }
    assert items[..|items|] == items;
    GroupedReady(AllUsages(items), CategoryOf, order, byCategory);
    shown := SummaryList(order, byCategory);
  }

  lemma SummaryMeans(held: seq<Usage>)
    requires held != []
    ensures var shown := Summary(held);
            && shown.category == held[0].category
            && (shown.count.Some? <==> forall u :: u in held ==> Measured(u))
            && (shown.count.Some? ==> shown.count.value == Total(held) && shown.state == "counted")
            && (shown.state == "unreadable" <==> exists u :: u in held && u.state == "unreadable")
  {
    QualityMeans(held);
  }

  lemma HeldFor(all: seq<Usage>, k: string)
    ensures forall u :: u in Bucket(all, CategoryOf, k) <==> u in all && u.category == k
  {
    forall u
        ensures u in Bucket(all, CategoryOf, k) <==> u in all && u.category == k { BucketIn(all, CategoryOf, k, u); }
  }

  /** A category gets a number exactly when every record held for it is a measurement, and the number is then
      their sum; one unreadable record makes it unreadable. */
  lemma NumberOnlyIfAllMeasured(items: seq<Item>, shown: seq<Usage>, i: nat)
    requires Summarised(items, shown) && i < |shown|
    ensures var held := Bucket(AllUsages(items), CategoryOf, shown[i].category);
            && held != []
            && (forall u :: u in held <==> u in AllUsages(items) && u.category == shown[i].category)
            && (shown[i].count.Some? <==> forall u :: u in held ==> Measured(u))
            && (shown[i].count.Some? ==> shown[i].count.value == Total(held) && shown[i].state == "counted")
            && (shown[i].state == "unreadable" <==> exists u :: u in held && u.state == "unreadable")
  {
    var all := AllUsages(items);
    var k := Keys(all, CategoryOf)[i];
    var held := Bucket(all, CategoryOf, k);
    HeldFor(all, k);
    SummaryMeans(held);
    assert held[0] in held;
  }

  lemma {:induction false} TotalConcat(a: seq<Usage>, b: seq<Usage>)
    ensures Total(a + b) == Total(a) + Total(b)
  {
    if a == [] {
      assert a + b == b;
    } else {
      assert (a + b)[1..] == a[1..] + b;
      TotalConcat(a[1..], b);
    }
  }

  lemma TotalWithout(b: seq<Usage>, j: nat)
    requires j < |b|
    ensures Total(b) == Total([b[j]]) + Total(b[..j] + b[j + 1..])
  {
    CutAround(b, j);
    TotalConcat(b[..j], [b[j]] + b[j + 1..]);
    TotalConcat([b[j]], b[j + 1..]);
    TotalConcat(b[..j], b[j + 1..]);
  }

  lemma TotalFirst(a: seq<Usage>)
    requires a != []
    ensures Total(a) == Total([a[0]]) + Total(a[1..])
  {
    assert [a[0]][1..] == [];
  }

  lemma {:induction false} TotalSameMembers(a: seq<Usage>, b: seq<Usage>)
    requires multiset(a) == multiset(b)
    ensures Total(a) == Total(b)
    decreases |a|
  {
    assert |multiset(a)| == |a| && |multiset(b)| == |b|;
    if a != [] {
      var j := Without(a, b);
      TotalFirst(a);
      TotalWithout(b, j);
      TotalSameMembers(a[1..], b[..j] + b[j + 1..]);
    }
  }

  lemma QualityMeans(all: seq<Usage>)
    ensures AnyUnreadable(all) <==> exists u :: u in all && u.state == "unreadable"
    ensures AllMeasured(all) <==> forall u :: u in all ==> Measured(u)
  {
    assert forall i :: 0 <= i < |all| ==> all[i] in all;
  }

  lemma SameStateAndCount(a: seq<Usage>, b: seq<Usage>)
    requires multiset(a) == multiset(b)
    ensures GroupState(a) == GroupState(b) && GroupCount(a) == GroupCount(b)
  {
    TotalSameMembers(a, b);
    SameMembersIn(a, b);
    QualityMeans(a);
    QualityMeans(b);
  }

  lemma {:induction false} UsagesConcat(a: seq<Item>, b: seq<Item>)
    ensures AllUsages(a + b) == AllUsages(a) + AllUsages(b)
  {
    if b == [] {
      assert a + b == a;
    } else {
      assert (a + b)[..|a + b| - 1] == a + b[..|b| - 1];
      UsagesConcat(a, b[..|b| - 1]);
    }
  }

  /** Taking one item out takes its records out. */
  lemma UsagesWithout(b: seq<Item>, j: nat)
    requires j < |b|
    ensures multiset(AllUsages(b)) == multiset(b[j].usages) + multiset(AllUsages(b[..j] + b[j + 1..]))
  {
    var head, tail := b[..j], b[j + 1..];
    CutAround(b, j);
    UsagesConcat(head, [b[j]] + tail);
    UsagesConcat([b[j]], tail);
    UsagesConcat(head, tail);
    UsagesOfOne(b[j]);
    MiddleOut(AllUsages(head), b[j].usages, AllUsages(tail));
  }

  lemma UsagesOfOne(item: Item)
    ensures AllUsages([item]) == item.usages
  {
    assert [item][..0] == [] && AllUsages([]) == [];
  }

  lemma UsagesFirst(a: seq<Item>)
    requires a != []
    ensures multiset(AllUsages(a)) == multiset(a[0].usages) + multiset(AllUsages(a[1..]))
  {
    UsagesWithout(a, 0);
    NothingBefore(a);
    assert AllUsages(a[..0] + a[1..]) == AllUsages(a[1..]);
  }

  lemma {:induction false} UsagesSameMembers(a: seq<Item>, b: seq<Item>)
    requires multiset(a) == multiset(b)
    ensures multiset(AllUsages(a)) == multiset(AllUsages(b))
    decreases |a|
  {
    assert |multiset(a)| == |a| && |multiset(b)| == |b|;
    if a != [] {
      var j := Without(a, b);
      UsagesFirst(a);
      UsagesWithout(b, j);
      UsagesSameMembers(a[1..], b[..j] + b[j + 1..]);
    }
  }

  lemma SameForOrder(a: seq<Item>, b: seq<Item>, category: string)
    requires multiset(a) == multiset(b)
    ensures category in Keys(AllUsages(a), CategoryOf) <==> category in Keys(AllUsages(b), CategoryOf)
    ensures var p, q := Bucket(AllUsages(a), CategoryOf, category), Bucket(AllUsages(b), CategoryOf, category);
            GroupState(p) == GroupState(q) && GroupCount(p) == GroupCount(q)
  {
    UsagesSameMembers(a, b);
    BucketSameMembers(AllUsages(a), AllUsages(b), CategoryOf, category);
    SameStateAndCount(Bucket(AllUsages(a), CategoryOf, category), Bucket(AllUsages(b), CategoryOf, category));
  }

  lemma ShownCategories(items: seq<Item>, shown: seq<Usage>)
    requires Summarised(items, shown)
    ensures forall i :: 0 <= i < |shown| ==> shown[i].category == Keys(AllUsages(items), CategoryOf)[i]
  {
    var all := AllUsages(items);
    var ks := Keys(all, CategoryOf);
    forall i | 0 <= i < |shown| ensures shown[i].category == ks[i] {
      var held := Bucket(all, CategoryOf, ks[i]);
      BucketIn(all, CategoryOf, ks[i], held[0]);
    }
  }

  /** However a group's items are ordered, the same categories are shown with the same state and count. */
  lemma UsageIgnoresOrder(a: seq<Item>, b: seq<Item>, shownA: seq<Usage>, shownB: seq<Usage>, i: nat) returns (j: nat)
    requires multiset(a) == multiset(b)
    requires Summarised(a, shownA) && Summarised(b, shownB) && i < |shownA|
    ensures j < |shownB| && shownB[j].category == shownA[i].category
    ensures shownB[j].state == shownA[i].state && shownB[j].count == shownA[i].count
  {
    ShownCategories(a, shownA);
    ShownCategories(b, shownB);
    var k := shownA[i].category;
    SameForOrder(a, b, k);
    j :| 0 <= j < |shownB| && Keys(AllUsages(b), CategoryOf)[j] == k;
  }
}
