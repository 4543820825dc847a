/** What the review queue shows, said of the items it is given: the entries of a section, the three tiers, and the usage
    summary of a group. */
module QueueReading {
  import opened Options
  import opened Collections
  import opened GovernanceQueue
  import Numerals

  // ---------------------------------------------------------------- order of first appearance

  /** `firsts` are the places where the keys appear for the first time, in order, and there is no other key. */
  ghost predicate FirstPlaces<T>(s: seq<T>, key: T -> string, ks: seq<string>, firsts: seq<nat>) {
    && |firsts| == |ks|
    && (forall i, j :: 0 <= i < j < |firsts| ==> firsts[i] < firsts[j])
    && (forall i :: 0 <= i < |ks| ==>
          firsts[i] < |s| && key(s[firsts[i]]) == ks[i] && forall p :: 0 <= p < firsts[i] ==> key(s[p]) != ks[i])
    && (forall p :: 0 <= p < |s| ==> key(s[p]) in ks)
  }

  lemma {:induction false} KeysByFirstPlace<T>(s: seq<T>, key: T -> string) returns (firsts: seq<nat>)
    ensures FirstPlaces(s, key, Keys(s, key), firsts)
  {
    if s == [] {
      firsts := [];
    } else {
      var n := |s| - 1;
      firsts := KeysByFirstPlace(s[..n], key);
      LastOff(s);
      OneMore(s[..n], s[n], key, Keys(s[..n], key), firsts);
      if key(s[n]) !in Keys(s[..n], key) { firsts := firsts + [n]; }
    }
  }

  lemma OneMore<T>(s: seq<T>, x: T, key: T -> string, ks: seq<string>, firsts: seq<nat>)
    requires FirstPlaces(s, key, ks, firsts)
    ensures if key(x) in ks then FirstPlaces(s + [x], key, ks, firsts)
            else FirstPlaces(s + [x], key, ks + [key(x)], firsts + [|s|])
  {
    var all := s + [x];
    assert forall p :: 0 <= p < |s| ==> all[p] == s[p];
    if key(x) !in ks {
      var more := ks + [key(x)];
      assert key(x) in more && forall k :: k in ks ==> k in more;
    }
  }

  lemma {:induction false} FilterOfNone<T>(s: seq<T>, p: T -> bool)
    requires forall i :: 0 <= i < |s| ==> !p(s[i])
    ensures Filter(s, p) == []
  {
    if s != [] { FilterOfNone(s[1..], p); }
  }

  lemma FilterFromFirst<T>(s: seq<T>, p: T -> bool, first: nat)
    requires first < |s| && p(s[first]) && forall i :: 0 <= i < first ==> !p(s[i])
    ensures Filter(s, p) == [s[first]] + Filter(s[first + 1..], p)
  {
    var before, rest := s[..first], s[first..];
    assert s == before + rest;
    FilterConcat(before, rest, p);
    FilterOfNone(before, p);
    assert rest[1..] == s[first + 1..];
  }

  /** From its first place on: the items of that key. */
  lemma BucketFromFirst<T>(s: seq<T>, key: T -> string, first: nat)
    requires first < |s| && forall i :: 0 <= i < first ==> key(s[i]) != key(s[first])
    ensures Bucket(s, key, key(s[first])) == [s[first]] + Bucket(s[first + 1..], key, key(s[first]))
  {
    var k := key(s[first]);
    FilterFromFirst(s, x => key(x) == k, first);
  }

  // ---------------------------------------------------------------- the entries of a section

  /** The entry of the key first seen at `first`: that item alone, under its own fact key, or the group of all the items
      of the key, strongest first, named after the first. */
  ghost predicate EntryReads(items: seq<Item>, first: nat, e: Entry) {
    && first < |items|
    && var item, later := items[first], Bucket(items[first + 1..], GroupKey, GroupKey(items[first]));
       if later == [] then e.key == item.factKey && e.group == None && e.items == [item]
       else
         && e.key == GroupKey(item) && e.items == ByStrength([item] + later)
         && e.group == Some(Group(if item.entityId == "" then "(unnamed entity)" else item.entityId, item.catalogs))
  }

  /** Bridges are grouped by key in order of first appearance; items of every other kind stay alone. */
  lemma SectionReads(kind: string, items: seq<Item>, entries: seq<Entry>) returns (firsts: seq<nat>)
    requires Sectioned(kind, items, entries)
    ensures kind != "entity_bridge" ==>
              |entries| == |items| && forall i :: 0 <= i < |items| ==>
                entries[i] == Entry(items[i].factKey, None, [items[i]])
    ensures kind == "entity_bridge" ==>
              && FirstPlaces(items, GroupKey, Keys(items, GroupKey), firsts) && |entries| == |firsts|
              && forall i :: 0 <= i < |entries| ==> EntryReads(items, firsts[i], entries[i])
  {
    firsts := KeysByFirstPlace(items, GroupKey);
    if kind == "entity_bridge" {
      forall i | 0 <= i < |entries| ensures EntryReads(items, firsts[i], entries[i]) {
        BucketReads(items, firsts[i], Keys(items, GroupKey)[i]);
      }
    }
  }

  lemma BucketReads(items: seq<Item>, first: nat, k: string)
    requires first < |items| && GroupKey(items[first]) == k
    requires forall p :: 0 <= p < first ==> GroupKey(items[p]) != k
    ensures Bucket(items, GroupKey, k) != [] && EntryReads(items, first, EntryOf(k, Bucket(items, GroupKey, k)))
  {
    BucketFromFirst(items, GroupKey, first);
    GroupReads(items, first, Bucket(items[first + 1..], GroupKey, k));
  }

  lemma GroupReads(items: seq<Item>, first: nat, later: seq<Item>)
    requires first < |items| && later == Bucket(items[first + 1..], GroupKey, GroupKey(items[first]))
    ensures EntryReads(items, first, EntryOf(GroupKey(items[first]), [items[first]] + later))
  {
    assert ([items[first]] + later)[0] == items[first];
    if later == [] { assert [items[first]] + later == [items[first]]; }
  }

  lemma {:induction false} SamePredicate<T(!new)>(s: seq<T>, p: T -> bool, q: T -> bool)
    requires forall x :: p(x) <==> q(x)
    ensures Filter(s, p) == Filter(s, q)
  {
    if s != [] { SamePredicate(s[1..], p, q); }
  }

  // ---------------------------------------------------------------- the three tiers

  /** Some member can be confirmed by this user. */
  predicate Confirmable(e: Entry) { exists i :: 0 <= i < |e.items| && "confirm" in e.items[i].actions }

  /** Some member can be acted on. */
  predicate Actionable(e: Entry) { exists i :: 0 <= i < |e.items| && e.items[i].actions != [] }

  lemma TierReads(e: Entry)
    ensures Tier(e) == 0 <==> Confirmable(e)
    ensures Tier(e) == 2 <==> !Actionable(e)
    ensures Confirmable(e) ==> Actionable(e)
    ensures Tier(e) <= 2
  {
  }

  function Yours(entries: seq<Entry>): seq<Entry> { Filter(entries, (e: Entry) => Confirmable(e)) }

  function Theirs(entries: seq<Entry>): seq<Entry> {
    Filter(entries, (e: Entry) => Actionable(e) && !Confirmable(e))
  }

  function Settled(entries: seq<Entry>): seq<Entry> { Filter(entries, (e: Entry) => !Actionable(e)) }

  /** First the entries with a member to confirm, then those with a member to act on, then the rest, each in the order
      it came in. */
  lemma UrgencyReads(entries: seq<Entry>)
    ensures ByUrgency(entries) == Yours(entries) + Theirs(entries) + Settled(entries)
  {
    UrgencyIsTiers(entries);
    forall e: Entry ensures Tier(e) == 0 <==> Confirmable(e) { TierReads(e); }
    forall e: Entry ensures Tier(e) == 1 <==> Actionable(e) && !Confirmable(e) { TierReads(e); }
    forall e: Entry ensures Tier(e) == 2 <==> !Actionable(e) { TierReads(e); }
    SamePredicate(entries, (e: Entry) => Tier(e) == 0, (e: Entry) => Confirmable(e));
    SamePredicate(entries, (e: Entry) => Tier(e) == 1, (e: Entry) => Actionable(e) && !Confirmable(e));
    SamePredicate(entries, (e: Entry) => Tier(e) == 2, (e: Entry) => !Actionable(e));
  }

  // ---------------------------------------------------------------- the usage of a group

  /** The sum of the counts: none is nothing, one is itself, and two parts are added. */
  lemma TotalIsSum(u: Usage, a: seq<Usage>, b: seq<Usage>)
    ensures Total([]) == 0
    ensures Total([u]) == match u.count { case None => 0 case Some(n) => n }
    ensures Total(a + b) == Total(a) + Total(b)
  {
    TotalConcat(a, b);
    assert [u][1..] == [];
  }

  ghost predicate Counted(held: seq<Usage>) {
    forall i :: 0 <= i < |held| ==> held[i].state == "counted" && held[i].count.Some?
  }

  /** The record shown for a category: the first one's store, basis and reason; its state one of three words; a number,
      the sum, only when all are counted; and the number or else the word to read. */
  ghost predicate SummaryReads(held: seq<Usage>, shown: Usage) {
    && held != [] && shown.category == held[0].category
    && shown.store == held[0].store && shown.basis == held[0].basis && shown.reason == held[0].reason
    && (shown.state == "unreadable" <==> exists i :: 0 <= i < |held| && held[i].state == "unreadable")
    && (shown.state == "counted" <==> Counted(held))
    && (shown.state == "unreadable" || shown.state == "counted" || shown.state == "not_tracked_yet")
    && (if Counted(held) then shown.count == Some(Total(held)) && shown.display == Numerals.IntText(Total(held))
        else shown.count == None && shown.display == shown.state)
  }

  lemma SummaryIsRead(held: seq<Usage>)
    requires held != []
    ensures SummaryReads(held, Summary(held))
  {
    if AnyUnreadable(held) {
      var i :| 0 <= i < |held| && held[i].state == "unreadable";
      assert !Measured(held[i]);
    }
  }

  /** One record per category, in order of first appearance over the items' records, of all the records held for it. */
  lemma UsageReads(items: seq<Item>, shown: seq<Usage>) returns (firsts: seq<nat>)
    requires Summarised(items, shown)
    ensures var all := AllUsages(items);
            && |shown| == |firsts| && FirstPlaces(all, CategoryOf, Keys(all, CategoryOf), firsts)
            && forall i :: 0 <= i < |shown| ==>
                 && firsts[i] < |all|
                 && SummaryReads([all[firsts[i]]] + Bucket(all[firsts[i] + 1..], CategoryOf, all[firsts[i]].category),
                                 shown[i])
  {
    var all := AllUsages(items);
    firsts := KeysByFirstPlace(all, CategoryOf);
    forall i | 0 <= i < |shown|
      ensures SummaryReads([all[firsts[i]]] + Bucket(all[firsts[i] + 1..], CategoryOf, all[firsts[i]].category),
                           shown[i])
    {
      HeldReads(all, firsts[i]);
    }
  }

  lemma HeldReads(all: seq<Usage>, first: nat)
    requires first < |all| && forall p :: 0 <= p < first ==> CategoryOf(all[p]) != CategoryOf(all[first])
    ensures var held := [all[first]] + Bucket(all[first + 1..], CategoryOf, all[first].category);
            Bucket(all, CategoryOf, CategoryOf(all[first])) == held && SummaryReads(held, Summary(held))
  {
    BucketFromFirst(all, CategoryOf, first);
    SummaryIsRead([all[first]] + Bucket(all[first + 1..], CategoryOf, all[first].category));
  }
}
