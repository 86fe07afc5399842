/** The providers' list call (`listObjects` of OBS and COS, `listFiles` of Qiniu) over the abstract
    bucket: the keys under a prefix, those with a delimiter after the prefix rolled up into common
    prefixes, listed after a marker, at most `maxKeys` per page. */
module Listing {
  import opened Wrappers
  import opened Text
  import opened Bucket

  datatype ListRequest = ListRequest(prefix: string, delimiter: string, marker: string, maxKeys: nat)

  /** One listed item: an object, or a common prefix standing for every key that begins with it. */
  datatype Item = Leaf(entry: Entry) | Rollup(group: string)

  /** The answer to one list call. `nextMarker` is "" when the listing is complete. */
  datatype Page = Page(contents: seq<Entry>, commonPrefixes: seq<string>, nextMarker: string, isTruncated: bool)

  /** The most keys a provider returns in one page, and what every adapter asks for. */
  const MaxKeys: nat := 1000

  function ItemKey(it: Item): string {
    match it
    case Leaf(e) => e.key
    case Rollup(g) => g
  }

  /** The entries whose key begins with `prefix`, in order. */
  function Under(es: seq<Entry>, prefix: string): (r: seq<Entry>)
    ensures forall x :: x in r <==> x in es && StartsWith(x.key, prefix)
    ensures forall i :: 0 <= i < |r| ==> StartsWith(r[i].key, prefix)
  {
    if es == [] then []
    else
      var rest := Under(es[1..], prefix);
      assert forall x :: x in es <==> x == es[0] || x in es[1..];
      if StartsWith(es[0].key, prefix) then [es[0]] + rest else rest
  }

  /** The common prefix a key is rolled up into: the prefix followed by the key's text up to and
      including the first delimiter after the prefix; none without a delimiter. */
  function GroupOf(key: string, prefix: string, delimiter: string): (g: Option<string>)
    requires StartsWith(key, prefix)
    ensures delimiter == "" ==> g.None?
    ensures g.Some? ==> StartsWith(key, g.value) && StartsWith(g.value, prefix) && |g.value| > |prefix|
    ensures g.Some? ==> EndsWith(g.value, delimiter)
  {
    if delimiter == "" then None
    else
      match IndexOfSub(key[|prefix|..], delimiter)
      case None => None
      case Some(j) =>
        var g := key[..|prefix| + j + |delimiter|];
        assert g[|g| - |delimiter|..] == key[|prefix|..][j..j + |delimiter|];
        Some(g)
  }

  /** The leading entries that begin with `g`, dropped. */
  function DropGroup(cs: seq<Entry>, g: string): (r: seq<Entry>)
    ensures |r| <= |cs| && r == cs[|cs| - |r|..]
    ensures r == [] || !StartsWith(r[0].key, g)
    ensures forall i :: 0 <= i < |cs| - |r| ==> StartsWith(cs[i].key, g)
  {
    if cs != [] && StartsWith(cs[0].key, g) then DropGroup(cs[1..], g) else cs
  }

  /** The listed items of entries under `prefix`: each key without a delimiter after the prefix on its
      own, each run of keys sharing a common prefix as that prefix once. */
  function Items(cs: seq<Entry>, prefix: string, delimiter: string): seq<Item>
    requires forall i :: 0 <= i < |cs| ==> StartsWith(cs[i].key, prefix)
    decreases |cs|
  {
    if cs == [] then []
    else
      match GroupOf(cs[0].key, prefix, delimiter)
      case None => [Leaf(cs[0])] + Items(cs[1..], prefix, delimiter)
      case Some(g) => [Rollup(g)] + Items(DropGroup(cs[1..], g), prefix, delimiter)
  }

  /** Every item the provider would list under the prefix, from the start. */
  function AllItems(es: seq<Entry>, prefix: string, delimiter: string): seq<Item> {
    Items(Under(es, prefix), prefix, delimiter)
  }

  /** The items listed after `marker`. */
  function After(items: seq<Item>, marker: string): (r: seq<Item>)
    ensures |r| <= |items|
    ensures forall x :: x in r <==> x in items && Below(marker, ItemKey(x))
  {
    if items == [] then []
    else
      var rest := After(items[1..], marker);
      assert forall x :: x in items <==> x == items[0] || x in items[1..];
      if Below(marker, ItemKey(items[0])) then [items[0]] + rest else rest
  }

  /** The objects among the items, in order. */
  function Leaves(items: seq<Item>): seq<Entry> {
    if items == [] then [] else LeafOf(items[0]) + Leaves(items[1..])
  }

  function LeafOf(it: Item): seq<Entry> {
    if it.Leaf? then [it.entry] else []
  }

  /** The common prefixes among the items, in order. */
  function Groups(items: seq<Item>): seq<string> {
    if items == [] then [] else RollupOf(items[0]) + Groups(items[1..])
  }

  function RollupOf(it: Item): seq<string> {
    if it.Rollup? then [it.group] else []
  }

  /** The items a request still has to list. */
  function Remaining(es: seq<Entry>, req: ListRequest): seq<Item> {
    After(AllItems(es, req.prefix, req.delimiter), req.marker)
  }

  /** One page: the first `maxKeys` remaining items; when more remain, the page is truncated and
      its next marker is the key or common prefix of its last item. */
  function ListObjects(es: seq<Entry>, req: ListRequest): (page: Page)
    requires req.maxKeys > 0
    ensures page.isTruncated <==> |Remaining(es, req)| > req.maxKeys
    ensures page.isTruncated ==> page.nextMarker == ItemKey(Remaining(es, req)[req.maxKeys - 1])
    ensures !page.isTruncated ==> page.nextMarker == ""
  {
    var items := Remaining(es, req);
    if |items| <= req.maxKeys then Page(Leaves(items), Groups(items), "", false)
    else
      var shown := items[..req.maxKeys];
      assert shown[|shown| - 1] == items[req.maxKeys - 1];
      Page(Leaves(shown), Groups(shown), ItemKey(shown[|shown| - 1]), true)
  }

  // ---------------------------------------------------------------------------------------------
  // Progress: a truncated page leaves fewer items to list, so following next markers ends.

  lemma {:induction false} AfterShrinks(items: seq<Item>, a: string, b: string)
    requires forall x :: x in items && Below(a, ItemKey(x)) ==> Below(b, ItemKey(x))
    ensures |After(items, a)| <= |After(items, b)|
    ensures (exists x :: x in items && Below(b, ItemKey(x)) && !Below(a, ItemKey(x))) ==>
              |After(items, a)| < |After(items, b)|
  {
    if items != [] {
      AfterShrinks(items[1..], a, b);
      assert forall x :: x in items <==> x == items[0] || x in items[1..];
    }
  }

  /** After a truncated page fewer items remain to be listed. */
  lemma Progress(es: seq<Entry>, req: ListRequest)
    requires req.maxKeys > 0
    requires ListObjects(es, req).isTruncated
    ensures |Remaining(es, req.(marker := ListObjects(es, req).nextMarker))| < |Remaining(es, req)|
  {
    var items := Remaining(es, req);
    var last := items[req.maxKeys - 1];
    assert ListObjects(es, req).nextMarker == ItemKey(last);
    assert last in items;
    var all := AllItems(es, req.prefix, req.delimiter);
    forall x | x in all && Below(ItemKey(last), ItemKey(x)) ensures Below(req.marker, ItemKey(x)) {
      BelowTransitive(req.marker, ItemKey(last), ItemKey(x));
    }
    BelowIrreflexive(ItemKey(last));
    assert last in all && Below(req.marker, ItemKey(last)) && !Below(ItemKey(last), ItemKey(last));
    AfterShrinks(all, ItemKey(last), req.marker);
  }

  // ---------------------------------------------------------------------------------------------
  // Order: items come out with strictly increasing keys, so pages are consecutive slices.

  predicate ItemsSorted(items: seq<Item>) {
    forall i, j :: 0 <= i < j < |items| ==> Below(ItemKey(items[i]), ItemKey(items[j]))
  }

  /** A key that begins with another key's common prefix has that common prefix too. */
  lemma GroupStable(k0: string, k: string, prefix: string, d: string, g: string)
    requires StartsWith(k0, prefix) && StartsWith(k, prefix)
    requires GroupOf(k0, prefix, d) == Some(g)
    requires StartsWith(k, g)
    ensures GroupOf(k, prefix, d) == Some(g)
  {
    var r0, r := k0[|prefix|..], k[|prefix|..];
    var j := IndexOfSub(r0, d).value;
    var n := j + |d|;
    assert g == k0[..|prefix| + n];
    assert r[..n] == r0[..n] by {
      assert r[..n] == k[..|prefix| + n][|prefix|..];
      assert r0[..n] == k0[..|prefix| + n][|prefix|..];
      assert k[..|prefix| + n] == g;
    }
    FirstOccurrenceKept(r0, r, d, j);
    assert k[..|prefix| + n] == g;
  }

  /** Whether `d` occurs at `t` depends only on the text up to `n`, when the occurrence ends by `n`. */
  lemma OccursWithin(a: string, b: string, d: string, t: nat, n: nat)
    requires t + |d| <= n <= |a| && n <= |b| && a[..n] == b[..n]
    ensures OccursAt(a, d, t) <==> OccursAt(b, d, t)
  {
    assert a[t..t + |d|] == a[..n][t..t + |d|];
    assert b[t..t + |d|] == b[..n][t..t + |d|];
  }

  /** An occurrence with none before it is the one `IndexOfSub` finds. */
  lemma FirstOccurrence(s: string, d: string, j: nat)
    requires OccursAt(s, d, j)
    requires forall t: nat :: t < j ==> !OccursAt(s, d, t)
    ensures IndexOfSub(s, d) == Some(j)
  {
    var r := IndexOfSub(s, d);
    assert r.Some?;
    assert r.value <= j;
  }

  /** The first occurrence of `d` in `a` is the first in any text that agrees with `a` up to its end. */
  lemma FirstOccurrenceKept(a: string, b: string, d: string, j: nat)
    requires IndexOfSub(a, d) == Some(j)
    requires j + |d| <= |b| && b[..j + |d|] == a[..j + |d|]
    ensures IndexOfSub(b, d) == Some(j)
  {
    var n := j + |d|;
    OccursWithin(a, b, d, j, n);
    forall t: nat | t < j
      ensures !OccursAt(b, d, t)
    {
      OccursWithin(a, b, d, t, n);
    }
    FirstOccurrence(b, d, j);
  }

  /** A suffix of entries under a prefix is under it too. */
  lemma UnderSuffix(cs: seq<Entry>, prefix: string, k: nat)
    requires forall i :: 0 <= i < |cs| ==> StartsWith(cs[i].key, prefix)
    requires k <= |cs|
    ensures forall i :: 0 <= i < |cs| - k ==> StartsWith(cs[k..][i].key, prefix)
  {
    assert forall i :: 0 <= i < |cs| - k ==> cs[k..][i] == cs[k + i];
  }

  lemma SuffixIn(cs: seq<Entry>, k: nat)
    requires k <= |cs|
    ensures forall x :: x in cs[k..] ==> x in cs
  {
    forall x | x in cs[k..] ensures x in cs {
      var i :| 0 <= i < |cs| - k && cs[k..][i] == x;
      assert cs[k + i] == x;
    }
  }

  /** Every item comes from an entry: a leaf is an entry without a common prefix, a rolled-up prefix
      is the common prefix of some entry. */
  lemma {:induction false} ItemsOrigin(cs: seq<Entry>, prefix: string, d: string, it: Item)
    requires forall i :: 0 <= i < |cs| ==> StartsWith(cs[i].key, prefix)
    requires it in Items(cs, prefix, d)
    ensures exists e :: e in cs && StartsWith(e.key, prefix) && Origin(e, prefix, d, it)
    decreases |cs|, 1
  {
    assert StartsWith(cs[0].key, prefix);
    match GroupOf(cs[0].key, prefix, d)
    case None =>
      LeafOrigin(cs, prefix, d, it);
    case Some(g) =>
      RollupOrigin(cs, prefix, d, g, it);
  }

  /** `ItemsOrigin` when the first entry has no common prefix. */
  lemma {:induction false} LeafOrigin(cs: seq<Entry>, prefix: string, d: string, it: Item)
    requires cs != []
    requires forall i :: 0 <= i < |cs| ==> StartsWith(cs[i].key, prefix)
    requires GroupOf(cs[0].key, prefix, d).None?
    requires it in Items(cs, prefix, d)
    ensures exists e :: e in cs && StartsWith(e.key, prefix) && Origin(e, prefix, d, it)
    decreases |cs|, 0
  {
    var c, tail := cs[0], cs[1..];
    assert StartsWith(c.key, prefix);
    if it != Leaf(c) {
      SuffixIn(cs, 1);
      UnderSuffix(cs, prefix, 1);
      assert it in Items(tail, prefix, d);
      ItemsOrigin(tail, prefix, d, it);
    } else {
      assert c in cs && Origin(c, prefix, d, it);
    }
  }

  /** `ItemsOrigin` when the first entry has the common prefix `g`. */
  lemma {:induction false} RollupOrigin(cs: seq<Entry>, prefix: string, d: string, g: string, it: Item)
    requires cs != []
    requires forall i :: 0 <= i < |cs| ==> StartsWith(cs[i].key, prefix)
    requires GroupOf(cs[0].key, prefix, d) == Some(g)
    requires it in Items(cs, prefix, d)
    ensures exists e :: e in cs && StartsWith(e.key, prefix) && Origin(e, prefix, d, it)
    decreases |cs|, 0
  {
    var c, tail := cs[0], cs[1..];
    assert StartsWith(c.key, prefix);
    if it != Rollup(g) {
      var rest := DropGroup(tail, g);
      assert rest == cs[|cs| - |rest|..];
      SuffixIn(cs, |cs| - |rest|);
      UnderSuffix(cs, prefix, |cs| - |rest|);
      assert it in Items(rest, prefix, d);
      ItemsOrigin(rest, prefix, d, it);
    } else {
      assert c in cs && Origin(c, prefix, d, it);
    }
  }

  /** The entry `e` is where the item `it` comes from. */
  predicate Origin(e: Entry, prefix: string, d: string, it: Item)
    requires StartsWith(e.key, prefix)
  {
    match it
    case Leaf(x) => x == e && GroupOf(e.key, prefix, d).None?
    case Rollup(g) => GroupOf(e.key, prefix, d) == Some(g)
  }

  /** After the run of a common prefix, no entry of a sorted list begins with it. */
  lemma DropGroupRest(c: Entry, tail: seq<Entry>, g: string)
    requires Sorted([c] + tail) && StartsWith(c.key, g)
    ensures forall x :: x in DropGroup(tail, g) ==> !StartsWith(x.key, g)
  {
    var rest := DropGroup(tail, g);
    var cs := [c] + tail;
    forall x | x in rest ensures !StartsWith(x.key, g) {
      var i :| 0 <= i < |rest| && rest[i] == x;
      if StartsWith(x.key, g) && i > 0 {
        var off := |tail| - |rest|;
        assert cs[0] == c && rest[0] == cs[off + 1] && x == cs[off + 1 + i];
        assert Below(cs[0].key, cs[off + 1].key) && Below(cs[off + 1].key, cs[off + 1 + i].key);
        PrefixConvex(g, c.key, rest[0].key, x.key);
      }
    }
  }

  lemma SortedSuffix(cs: seq<Entry>, k: nat)
    requires Sorted(cs) && k <= |cs|
    ensures Sorted(cs[k..])
  {
    assert forall i :: 0 <= i < |cs| - k ==> cs[k..][i] == cs[k + i];
  }

  lemma SortedTail(c: Entry, tail: seq<Entry>, x: Entry)
    requires Sorted([c] + tail) && x in tail
    ensures Below(c.key, x.key)
  {
    var i :| 0 <= i < |tail| && tail[i] == x;
    var cs := [c] + tail;
    assert cs[0] == c && cs[i + 1] == x;
    assert Below(cs[0].key, cs[i + 1].key);
  }

  /** A key that is not in a group sorts below that group's prefix when it sorts below a member. */
  lemma BelowGroup(k: string, g: string, e: string)
    requires Below(k, e) && StartsWith(e, g) && !StartsWith(k, g)
    ensures Below(k, g)
  {
    BelowTotal(k, g);
    if Below(g, k) {
      assert StartsWith(g, g);
      PrefixConvex(g, g, k, e);
    }
  }

  /** A first item below every later one, before sorted items, gives sorted items. */
  lemma ConsSorted(first: Item, later: seq<Item>)
    requires ItemsSorted(later)
    requires forall it :: it in later ==> Below(ItemKey(first), ItemKey(it))
    ensures ItemsSorted([first] + later)
  {
    var items := [first] + later;
    forall i, j | 0 <= i < j < |items| ensures Below(ItemKey(items[i]), ItemKey(items[j])) {
      assert items[j] == later[j - 1];
      if i == 0 {
        assert later[j - 1] in later;
      } else {
        assert items[i] == later[i - 1];
      }
    }
  }

  /** An entry without a common prefix sorts below every item listed from the entries after it. */
  lemma LeafFirst(c: Entry, tail: seq<Entry>, prefix: string, d: string, it: Item)
    requires Sorted([c] + tail) && StartsWith(c.key, prefix) && GroupOf(c.key, prefix, d).None?
    requires forall i :: 0 <= i < |tail| ==> StartsWith(tail[i].key, prefix)
    requires it in Items(tail, prefix, d)
    ensures Below(c.key, ItemKey(it))
  {
    ItemsOrigin(tail, prefix, d, it);
    var e :| e in tail && StartsWith(e.key, prefix) && Origin(e, prefix, d, it);
    SortedTail(c, tail, e);
    if it.Rollup? {
      if StartsWith(c.key, it.group) {
        GroupStable(e.key, c.key, prefix, d, it.group);
      }
      BelowGroup(c.key, it.group, e.key);
    }
  }

  /** A key past the run of a common prefix sorts after the common prefix. */
  lemma PastGroup(g: string, ck: string, ek: string)
    requires StartsWith(ck, g) && Below(ck, ek) && !StartsWith(ek, g)
    ensures Below(g, ek)
  {
    if g != ck {
      PrefixBelow(g, ck);
      BelowTransitive(g, ck, ek);
    }
  }

  /** The common prefix of a key past the run of another common prefix sorts after it. */
  lemma RollupAfterRollup(ck: string, ek: string, prefix: string, d: string, g: string, g2: string)
    requires StartsWith(ck, prefix) && StartsWith(ek, prefix)
    requires GroupOf(ck, prefix, d) == Some(g) && GroupOf(ek, prefix, d) == Some(g2)
    requires Below(ck, ek) && !StartsWith(ek, g)
    ensures Below(g, g2)
  {
    BelowTotal(g, g2);
    if Below(g2, g) {
      if g != ck {
        PrefixBelow(g, ck);
        BelowTransitive(g2, g, ck);
      }
      PrefixConvex(g2, g2, ck, ek);
      GroupStable(ek, ck, prefix, d, g2);
      BelowIrreflexive(g);
    }
  }

  /** A common prefix sorts below every item listed from the entries after its run. */
  lemma RollupFirst(c: Entry, tail: seq<Entry>, prefix: string, d: string, g: string, it: Item)
    requires Sorted([c] + tail) && StartsWith(c.key, prefix) && GroupOf(c.key, prefix, d) == Some(g)
    requires forall i :: 0 <= i < |DropGroup(tail, g)| ==> StartsWith(DropGroup(tail, g)[i].key, prefix)
    requires it in Items(DropGroup(tail, g), prefix, d)
    ensures Below(g, ItemKey(it))
  {
    var rest := DropGroup(tail, g);
    ItemsOrigin(rest, prefix, d, it);
    var e :| e in rest && StartsWith(e.key, prefix) && Origin(e, prefix, d, it);
    SuffixIn(tail, |tail| - |rest|);
    SortedTail(c, tail, e);
    DropGroupRest(c, tail, g);
    match it
    case Leaf(_) =>
      PastGroup(g, c.key, e.key);
    case Rollup(g2) =>
      RollupAfterRollup(c.key, e.key, prefix, d, g, g2);
  }

  /** The items come out with strictly increasing keys. */
  lemma {:induction false} ItemsAreSorted(cs: seq<Entry>, prefix: string, d: string)
    requires Sorted(cs)
    requires forall i :: 0 <= i < |cs| ==> StartsWith(cs[i].key, prefix)
    ensures ItemsSorted(Items(cs, prefix, d))
    decreases |cs|, 1
  {
    if cs != [] {
      assert StartsWith(cs[0].key, prefix);
      match GroupOf(cs[0].key, prefix, d)
      case None =>
        LeafThenSorted(cs, prefix, d);
      case Some(g) =>
        RollupThenSorted(cs, prefix, d, g);
    }
  }

  /** An object without a common prefix, listed before the items of the keys above it, keeps the order. */
  lemma {:induction false} LeafThenSorted(cs: seq<Entry>, prefix: string, d: string)
    requires cs != [] && Sorted(cs)
    requires forall i :: 0 <= i < |cs| ==> StartsWith(cs[i].key, prefix)
    requires GroupOf(cs[0].key, prefix, d).None?
    ensures ItemsSorted(Items(cs, prefix, d))
    decreases |cs|, 0
  {
    var c, tail := cs[0], cs[1..];
    assert cs == [c] + tail;
    assert StartsWith(c.key, prefix);
    SortedSuffix(cs, 1);
    UnderSuffix(cs, prefix, 1);
    ItemsAreSorted(tail, prefix, d);
    forall it | it in Items(tail, prefix, d) ensures Below(ItemKey(Leaf(c)), ItemKey(it)) {
      LeafFirst(c, tail, prefix, d, it);
    }
    ConsSorted(Leaf(c), Items(tail, prefix, d));
  }

  /** A common prefix, listed before the items of the keys beyond its group, keeps the order. */
  lemma {:induction false} RollupThenSorted(cs: seq<Entry>, prefix: string, d: string, g: string)
    requires cs != [] && Sorted(cs)
    requires forall i :: 0 <= i < |cs| ==> StartsWith(cs[i].key, prefix)
    requires GroupOf(cs[0].key, prefix, d) == Some(g)
    ensures ItemsSorted(Items(cs, prefix, d))
    decreases |cs|, 0
  {
    var rest := DropGroup(cs[1..], g);
    RollupRest(cs, prefix, g);
    ItemsAreSorted(rest, prefix, d);
    RollupBeforeRest(cs, prefix, d, g);
    ConsSorted(Rollup(g), Items(rest, prefix, d));
  }

  /** What follows a common prefix's run is sorted and under the prefix. */
  lemma RollupRest(cs: seq<Entry>, prefix: string, g: string)
    requires cs != [] && Sorted(cs)
    requires forall i :: 0 <= i < |cs| ==> StartsWith(cs[i].key, prefix)
    ensures Sorted(DropGroup(cs[1..], g))
    ensures forall i :: 0 <= i < |DropGroup(cs[1..], g)| ==> StartsWith(DropGroup(cs[1..], g)[i].key, prefix)
  {
    var tail := cs[1..];
    var rest := DropGroup(tail, g);
    SortedSuffix(cs, 1);
    SortedSuffix(tail, |tail| - |rest|);
    UnderRest(cs, prefix, g);
  }

  /** What follows a common prefix's run is under the prefix. */
  lemma UnderRest(cs: seq<Entry>, prefix: string, g: string)
    requires cs != []
    requires forall i :: 0 <= i < |cs| ==> StartsWith(cs[i].key, prefix)
    ensures forall i :: 0 <= i < |DropGroup(cs[1..], g)| ==> StartsWith(DropGroup(cs[1..], g)[i].key, prefix)
  {
    var tail := cs[1..];
    UnderSuffix(cs, prefix, 1);
    UnderSuffix(tail, prefix, |tail| - |DropGroup(tail, g)|);
  }

  /** A common prefix comes before every item of the keys beyond its run. */
  lemma RollupBeforeRest(cs: seq<Entry>, prefix: string, d: string, g: string)
    requires cs != [] && Sorted(cs)
    requires forall i :: 0 <= i < |cs| ==> StartsWith(cs[i].key, prefix)
    requires GroupOf(cs[0].key, prefix, d) == Some(g)
    requires forall i :: 0 <= i < |DropGroup(cs[1..], g)| ==> StartsWith(DropGroup(cs[1..], g)[i].key, prefix)
    ensures forall it :: it in Items(DropGroup(cs[1..], g), prefix, d) ==> Below(ItemKey(Rollup(g)), ItemKey(it))
  {
    var c, tail := cs[0], cs[1..];
    assert cs == [c] + tail;
    assert StartsWith(c.key, prefix);
    forall it | it in Items(DropGroup(tail, g), prefix, d) ensures Below(ItemKey(Rollup(g)), ItemKey(it)) {
      RollupFirst(c, tail, prefix, d, g, it);
    }
  }

  // ---------------------------------------------------------------------------------------------
  // Pages: following next markers lists every remaining item exactly once, page after page.

  lemma {:induction false} AfterAll(items: seq<Item>, x: string)
    requires forall i :: 0 <= i < |items| ==> Below(x, ItemKey(items[i]))
    ensures After(items, x) == items
  {
    if items != [] {
      AfterAll(items[1..], x);
      assert items == [items[0]] + items[1..];
    }
  }

  lemma {:induction false} AfterNone(items: seq<Item>, x: string)
    requires forall i :: 0 <= i < |items| ==> !Below(x, ItemKey(items[i]))
    ensures After(items, x) == []
  {
    if items != [] {
      AfterNone(items[1..], x);
    }
  }

  lemma SortedItemsTail(items: seq<Item>)
    requires ItemsSorted(items) && items != []
    ensures ItemsSorted(items[1..])
    ensures forall x :: x in items[1..] ==> Below(ItemKey(items[0]), ItemKey(x))
  {
    assert forall i :: 0 <= i < |items| - 1 ==> items[1..][i] == items[i + 1];
  }

  /** In sorted items, those after an item's key are exactly the items that follow it. */
  lemma {:induction false} AfterSortedAt(items: seq<Item>, k: nat)
    requires ItemsSorted(items) && k < |items|
    ensures After(items, ItemKey(items[k])) == items[k + 1..]
  {
    SortedItemsTail(items);
    var x := ItemKey(items[k]);
    if k == 0 {
      BelowIrreflexive(x);
      assert forall i :: 0 <= i < |items| - 1 ==> items[1..][i] == items[i + 1];
      AfterAll(items[1..], x);
    } else {
      BelowAsymmetric(ItemKey(items[0]), x);
      assert items[1..][k - 1] == items[k];
      AfterSortedAt(items[1..], k - 1);
      assert items[1..][k..] == items[k + 1..];
    }
  }

  /** Filtering after `m` keeps items sorted. */
  lemma {:induction false} AfterKeepsSorted(items: seq<Item>, m: string)
    requires ItemsSorted(items)
    ensures ItemsSorted(After(items, m))
  {
    if items != [] {
      SortedItemsTail(items);
      AfterKeepsSorted(items[1..], m);
      if Below(m, ItemKey(items[0])) {
        ConsSorted(items[0], After(items[1..], m));
      }
    }
  }

  /** Filtering twice is filtering once by the larger bound. */
  lemma {:induction false} AfterAfter(items: seq<Item>, m: string, x: string)
    requires forall it :: it in items && Below(x, ItemKey(it)) ==> Below(m, ItemKey(it))
    ensures After(After(items, m), x) == After(items, x)
  {
    if items != [] {
      assert items[0] in items;
      AfterAfter(items[1..], m, x);
    }
  }

  /** Items keep the order of their entries, and every key is non-empty in a wellformed bucket. */
  lemma AllItemsSorted(es: seq<Entry>, prefix: string, d: string)
    requires Sorted(es)
    ensures ItemsSorted(AllItems(es, prefix, d))
  {
    var cs := Under(es, prefix);
    UnderSorted(es, prefix);
    ItemsAreSorted(cs, prefix, d);
  }

  lemma {:induction false} UnderSorted(es: seq<Entry>, prefix: string)
    requires Sorted(es)
    ensures Sorted(Under(es, prefix))
  {
    if es != [] {
      SortedSuffix(es, 1);
      UnderSorted(es[1..], prefix);
      var rest := Under(es[1..], prefix);
      if StartsWith(es[0].key, prefix) {
        forall x | x in rest ensures Below(es[0].key, x.key) {
          assert es == [es[0]] + es[1..];
          SortedTail(es[0], es[1..], x);
        }
        var r := [es[0]] + rest;
        forall i, j | 0 <= i < j < |r| ensures Below(r[i].key, r[j].key) {
          assert r[j] == rest[j - 1] && rest[j - 1] in rest;
          if i > 0 { assert r[i] == rest[i - 1]; }
        }
      }
    }
  }

  lemma ItemKeysNonEmpty(es: seq<Entry>, prefix: string, d: string)
    requires Wellformed(es)
    ensures forall i :: 0 <= i < |AllItems(es, prefix, d)| ==> ItemKey(AllItems(es, prefix, d)[i]) != ""
  {
    var cs := Under(es, prefix);
    var items := AllItems(es, prefix, d);
    forall i | 0 <= i < |items| ensures ItemKey(items[i]) != "" {
      assert items[i] in items;
      ItemsOrigin(cs, prefix, d, items[i]);
      var e :| e in cs && StartsWith(e.key, prefix) && Origin(e, prefix, d, items[i]);
      var j :| 0 <= j < |es| && es[j] == e;
    }
  }

  /** A request with the empty marker has every item still to list. */
  lemma RemainingFromStart(es: seq<Entry>, req: ListRequest)
    requires Wellformed(es) && req.marker == ""
    ensures Remaining(es, req) == AllItems(es, req.prefix, req.delimiter)
  {
    ItemKeysNonEmpty(es, req.prefix, req.delimiter);
    AfterAll(AllItems(es, req.prefix, req.delimiter), "");
  }

  /** Filtering after the key of an item already listed after `m` needs `m` no more. */
  lemma AfterListed(all: seq<Item>, m: string, it: Item)
    requires it in After(all, m)
    ensures After(After(all, m), ItemKey(it)) == After(all, ItemKey(it))
  {
    var x := ItemKey(it);
    assert Below(m, x);
    forall y | y in all && Below(x, ItemKey(y)) ensures Below(m, ItemKey(y)) {
      BelowTransitive(m, x, ItemKey(y));
    }
    AfterAfter(all, m, x);
  }

  /** Of sorted items, those after the `n`th one listed after `m` are the rest of that listing. */
  lemma AfterPageSplit(all: seq<Item>, m: string, n: nat)
    requires ItemsSorted(all) && 0 < n < |After(all, m)|
    ensures After(all, ItemKey(After(all, m)[n - 1])) == After(all, m)[n..]
  {
    var items := After(all, m);
    assert items[n - 1] in items;
    AfterListed(all, m, items[n - 1]);
    AfterKeepsSorted(all, m);
    AfterSortedAt(items, n - 1);
  }

  /** What a truncated page leaves is exactly what its next marker asks for. */
  lemma RemainingAfterPage(es: seq<Entry>, req: ListRequest)
    requires Sorted(es) && req.maxKeys > 0
    requires ListObjects(es, req).isTruncated
    ensures Remaining(es, req.(marker := ListObjects(es, req).nextMarker)) == Remaining(es, req)[req.maxKeys..]
  {
    AllItemsSorted(es, req.prefix, req.delimiter);
    AfterPageSplit(AllItems(es, req.prefix, req.delimiter), req.marker, req.maxKeys);
  }

  /** A page is truncated exactly when it carries a next marker: the marker is the key of an item
      listed after the request's marker, and no such key is empty. */
  lemma TruncatedIffMarker(es: seq<Entry>, req: ListRequest)
    requires req.maxKeys > 0
    ensures ListObjects(es, req).isTruncated <==> ListObjects(es, req).nextMarker != ""
  {
    var items := Remaining(es, req);
    if |items| > req.maxKeys {
      var it := items[req.maxKeys - 1];
      assert items[..req.maxKeys][req.maxKeys - 1] == it;
      assert it in items;
      assert Below(req.marker, ItemKey(it));
    }
  }

  lemma {:induction false} LeavesAppend(a: seq<Item>, b: seq<Item>)
    ensures Leaves(a + b) == Leaves(a) + Leaves(b)
  {
    if a == [] {
      assert a + b == b;
    } else {
      assert (a + b)[0] == a[0] && (a + b)[1..] == a[1..] + b;
      LeavesAppend(a[1..], b);
    }
  }

  lemma {:induction false} GroupsAppend(a: seq<Item>, b: seq<Item>)
    ensures Groups(a + b) == Groups(a) + Groups(b)
  {
    if a == [] {
      assert a + b == b;
    } else {
      assert (a + b)[0] == a[0] && (a + b)[1..] == a[1..] + b;
      GroupsAppend(a[1..], b);
    }
  }

  /** The objects of every page, following next markers until a page is not truncated. */
  function ListedLeaves(es: seq<Entry>, req: ListRequest): seq<Entry>
    requires Sorted(es) && req.maxKeys > 0
    decreases |Remaining(es, req)|
  {
    var page := ListObjects(es, req);
    if !page.isTruncated then page.contents
    else
      Progress(es, req);
      page.contents + ListedLeaves(es, req.(marker := page.nextMarker))
  }

  /** The common prefixes of every page, following next markers. */
  function ListedGroups(es: seq<Entry>, req: ListRequest): seq<string>
    requires Sorted(es) && req.maxKeys > 0
    decreases |Remaining(es, req)|
  {
    var page := ListObjects(es, req);
    if !page.isTruncated then page.commonPrefixes
    else
      Progress(es, req);
      page.commonPrefixes + ListedGroups(es, req.(marker := page.nextMarker))
  }

  /** Paging loses nothing and repeats nothing: the pages together list every remaining item once. */
  lemma {:induction false} PagesComplete(es: seq<Entry>, req: ListRequest)
    requires Sorted(es) && req.maxKeys > 0
    ensures ListedLeaves(es, req) == Leaves(Remaining(es, req))
    ensures ListedGroups(es, req) == Groups(Remaining(es, req))
    decreases |Remaining(es, req)|
  {
    var page := ListObjects(es, req);
    ListedStep(es, req);
    if page.isTruncated {
      PagesComplete(es, req.(marker := page.nextMarker));
      RemainingAfterPage(es, req);
      PageSplit(es, req);
    }
  }

  /** A truncated page's objects and common prefixes are those of the first `maxKeys` remaining
      items, and the rest follow them. */
  lemma PageSplit(es: seq<Entry>, req: ListRequest)
    requires req.maxKeys > 0 && ListObjects(es, req).isTruncated
    ensures var items := Remaining(es, req);
      Leaves(items) == ListObjects(es, req).contents + Leaves(items[req.maxKeys..]) &&
      Groups(items) == ListObjects(es, req).commonPrefixes + Groups(items[req.maxKeys..])
  {
    var items := Remaining(es, req);
    assert ListObjects(es, req).contents == Leaves(items[..req.maxKeys]) &&
           ListObjects(es, req).commonPrefixes == Groups(items[..req.maxKeys]);
    ItemsAt(items, req.maxKeys);
  }

  /** The objects and common prefixes of a list of items, cut at `n`. */
  lemma ItemsAt(items: seq<Item>, n: nat)
    requires n <= |items|
    ensures Leaves(items) == Leaves(items[..n]) + Leaves(items[n..])
    ensures Groups(items) == Groups(items[..n]) + Groups(items[n..])
  {
    assert items == items[..n] + items[n..];
    LeavesAppend(items[..n], items[n..]);
    GroupsAppend(items[..n], items[n..]);
  }

  // ---------------------------------------------------------------------------------------------
  // Completeness: every entry under the prefix shows up, on its own or through its common prefix.

  /** Every entry gives its item: itself when it has no common prefix, its common prefix otherwise. */
  lemma {:induction false} OriginListed(cs: seq<Entry>, prefix: string, d: string, x: Entry, it: Item)
    requires forall i :: 0 <= i < |cs| ==> StartsWith(cs[i].key, prefix)
    requires x in cs && StartsWith(x.key, prefix) && Origin(x, prefix, d, it)
    ensures it in Items(cs, prefix, d)
    decreases |cs|, 1
  {
    assert StartsWith(cs[0].key, prefix);
    if x != cs[0] {
      match GroupOf(cs[0].key, prefix, d)
      case None =>
        OriginAfterLeaf(cs, prefix, d, x, it);
      case Some(g) =>
        OriginAfterRollup(cs, prefix, d, g, x, it);
    }
  }

  /** `OriginListed` for a later entry, when the first entry has no common prefix. */
  lemma {:induction false} OriginAfterLeaf(cs: seq<Entry>, prefix: string, d: string, x: Entry, it: Item)
    requires cs != []
    requires forall i :: 0 <= i < |cs| ==> StartsWith(cs[i].key, prefix)
    requires GroupOf(cs[0].key, prefix, d).None?
    requires x in cs[1..] && StartsWith(x.key, prefix) && Origin(x, prefix, d, it)
    ensures it in Items(cs, prefix, d)
    decreases |cs|, 0
  {
    UnderSuffix(cs, prefix, 1);
    OriginListed(cs[1..], prefix, d, x, it);
  }

  /** `OriginListed` for a later entry, when the first entry has the common prefix `g`. */
  lemma {:induction false} OriginAfterRollup(cs: seq<Entry>, prefix: string, d: string, g: string, x: Entry, it: Item)
    requires cs != []
    requires forall i :: 0 <= i < |cs| ==> StartsWith(cs[i].key, prefix)
    requires GroupOf(cs[0].key, prefix, d) == Some(g)
    requires x in cs[1..] && StartsWith(x.key, prefix) && Origin(x, prefix, d, it)
    ensures it in Items(cs, prefix, d)
    decreases |cs|, 0
  {
    var c, tail := cs[0], cs[1..];
    assert StartsWith(c.key, prefix);
    if it != Rollup(g) {
      var rest := DropGroup(tail, g);
      var k := |tail| - |rest|;
      if StartsWith(x.key, g) {
        GroupStable(c.key, x.key, prefix, d, g);
      }
      var i :| 0 <= i < |tail| && tail[i] == x;
      assert rest[i - k] == x;
      UnderRest(cs, prefix, g);
      OriginListed(rest, prefix, d, x, it);
    }
  }

  lemma {:induction false} LeafIn(items: seq<Item>, e: Entry)
    ensures e in Leaves(items) <==> Leaf(e) in items
  {
    if items != [] {
      LeafIn(items[1..], e);
      assert forall y :: y in items <==> y == items[0] || y in items[1..];
    }
  }

  lemma {:induction false} RollupIn(items: seq<Item>, g: string)
    ensures g in Groups(items) <==> Rollup(g) in items
  {
    if items != [] {
      RollupIn(items[1..], g);
      assert forall y :: y in items <==> y == items[0] || y in items[1..];
    }
  }

  /** The object keys among sorted items strictly increase. */
  lemma {:induction false} LeavesSorted(items: seq<Item>)
    requires ItemsSorted(items)
    ensures Sorted(Leaves(items))
  {
    if items != [] {
      SortedItemsTail(items);
      LeavesSorted(items[1..]);
      var rest := Leaves(items[1..]);
      if items[0].Leaf? {
        var r := [items[0].entry] + rest;
        forall i, j | 0 <= i < j < |r| ensures Below(r[i].key, r[j].key) {
          assert r[j] == rest[j - 1] && rest[j - 1] in rest;
          LeafIn(items[1..], rest[j - 1]);
          if i > 0 { assert r[i] == rest[i - 1]; }
        }
      }
    }
  }

  predicate Increasing(gs: seq<string>) {
    forall i, j :: 0 <= i < j < |gs| ==> Below(gs[i], gs[j])
  }

  /** The common prefixes among sorted items strictly increase. */
  lemma {:induction false} GroupsSorted(items: seq<Item>)
    requires ItemsSorted(items)
    ensures Increasing(Groups(items))
  {
    if items != [] {
      SortedItemsTail(items);
      GroupsSorted(items[1..]);
      var rest := Groups(items[1..]);
      if items[0].Rollup? {
        var r := [items[0].group] + rest;
        forall i, j | 0 <= i < j < |r| ensures Below(r[i], r[j]) {
          assert r[j] == rest[j - 1] && rest[j - 1] in rest;
          RollupIn(items[1..], rest[j - 1]);
          if i > 0 { assert r[i] == rest[i - 1]; }
        }
      }
    }
  }

  /** Listing a wellformed bucket from the start, following next markers, gives every object under
      the prefix without a delimiter after it, and every common prefix of the others, each once and
      in key order. */
  lemma ListingComplete(es: seq<Entry>, req: ListRequest)
    requires Wellformed(es) && req.maxKeys > 0 && req.marker == ""
    ensures forall e :: e in ListedLeaves(es, req) <==>
      e in es && StartsWith(e.key, req.prefix) && GroupOf(e.key, req.prefix, req.delimiter).None?
    ensures forall g :: g in ListedGroups(es, req) <==>
      exists e :: e in es && StartsWith(e.key, req.prefix) && GroupOf(e.key, req.prefix, req.delimiter) == Some(g)
    ensures Sorted(ListedLeaves(es, req)) && Increasing(ListedGroups(es, req))
  {
    LeavesComplete(es, req);
    GroupsComplete(es, req);
  }

  /** The objects part of `ListingComplete`. */
  lemma LeavesComplete(es: seq<Entry>, req: ListRequest)
    requires Wellformed(es) && req.maxKeys > 0 && req.marker == ""
    ensures forall e :: e in ListedLeaves(es, req) <==>
      e in es && StartsWith(e.key, req.prefix) && GroupOf(e.key, req.prefix, req.delimiter).None?
    ensures Sorted(ListedLeaves(es, req))
  {
    var prefix, d := req.prefix, req.delimiter;
    var cs := Under(es, prefix);
    var items := AllItems(es, prefix, d);
    PagesComplete(es, req);
    RemainingFromStart(es, req);
    AllItemsSorted(es, prefix, d);
    LeavesSorted(items);
    forall e ensures e in ListedLeaves(es, req) <==>
      e in es && StartsWith(e.key, prefix) && GroupOf(e.key, prefix, d).None?
    {
      LeafIn(items, e);
      if Leaf(e) in items {
        ItemsOrigin(cs, prefix, d, Leaf(e));
      }
      if e in es && StartsWith(e.key, prefix) && GroupOf(e.key, prefix, d).None? {
        OriginListed(cs, prefix, d, e, Leaf(e));
      }
    }
  }

  /** The common-prefix part of `ListingComplete`. */
  lemma GroupsComplete(es: seq<Entry>, req: ListRequest)
    requires Wellformed(es) && req.maxKeys > 0 && req.marker == ""
    ensures forall g :: g in ListedGroups(es, req) <==>
      exists e :: e in es && StartsWith(e.key, req.prefix) && GroupOf(e.key, req.prefix, req.delimiter) == Some(g)
    ensures Increasing(ListedGroups(es, req))
  {
    var prefix, d := req.prefix, req.delimiter;
    var cs := Under(es, prefix);
    var items := AllItems(es, prefix, d);
    PagesComplete(es, req);
    RemainingFromStart(es, req);
    AllItemsSorted(es, prefix, d);
    GroupsSorted(items);
    forall g ensures g in ListedGroups(es, req) <==>
      exists e :: e in es && StartsWith(e.key, prefix) && GroupOf(e.key, prefix, d) == Some(g)
    {
      RollupIn(items, g);
      if Rollup(g) in items {
        ItemsOrigin(cs, prefix, d, Rollup(g));
      }
      if exists e :: e in es && StartsWith(e.key, prefix) && GroupOf(e.key, prefix, d) == Some(g) {
        var e :| e in es && StartsWith(e.key, prefix) && GroupOf(e.key, prefix, d) == Some(g);
        OriginListed(cs, prefix, d, e, Rollup(g));
      }
    }
  }

  // ---------------------------------------------------------------------------------------------
  // Depth: common prefixes are longer than the prefix listed and no longer than the longest key.

  function MaxKeyLength(es: seq<Entry>): (n: nat)
    ensures forall i :: 0 <= i < |es| ==> |es[i].key| <= n
  {
    if es == [] then 0
    else
      var m := MaxKeyLength(es[1..]);
      assert forall i :: 1 <= i < |es| ==> es[i] == es[1..][i - 1];
      if |es[0].key| > m then |es[0].key| else m
  }

  /** `g` is a common prefix strictly below `prefix` in a listing of `es`. */
  predicate Deeper(es: seq<Entry>, prefix: string, g: string) {
    |prefix| < |g| <= MaxKeyLength(es)
  }

  /** How far below `prefix` a listing of `es` can still go. */
  function Depth(es: seq<Entry>, prefix: string): nat {
    if |prefix| <= MaxKeyLength(es) then MaxKeyLength(es) - |prefix| else 0
  }

  lemma DeeperDepth(es: seq<Entry>, prefix: string, g: string)
    requires Deeper(es, prefix, g)
    ensures Depth(es, g) < Depth(es, prefix)
  {
  }

  /** The common prefix of an entry is deeper than the prefix listed. */
  lemma OriginDeeper(es: seq<Entry>, prefix: string, d: string, g: string)
    requires Rollup(g) in AllItems(es, prefix, d)
    ensures Deeper(es, prefix, g)
  {
    var cs := Under(es, prefix);
    ItemsOrigin(cs, prefix, d, Rollup(g));
    var e :| e in cs && StartsWith(e.key, prefix) && Origin(e, prefix, d, Rollup(g));
    var i :| 0 <= i < |es| && es[i] == e;
  }

  /** Every common prefix of a page is deeper than the prefix listed. */
  lemma PageGroupsDeeper(es: seq<Entry>, req: ListRequest)
    requires req.maxKeys > 0
    ensures forall g :: g in ListObjects(es, req).commonPrefixes ==> Deeper(es, req.prefix, g)
  {
    var items := Remaining(es, req);
    var shown := if |items| <= req.maxKeys then items else items[..req.maxKeys];
    forall g | g in ListObjects(es, req).commonPrefixes ensures Deeper(es, req.prefix, g) {
      RollupIn(shown, g);
      assert Rollup(g) in items;
      OriginDeeper(es, req.prefix, req.delimiter, g);
    }
  }

  /** Every common prefix of a whole listing is deeper than the prefix listed. */
  lemma ListedGroupsDeeper(es: seq<Entry>, req: ListRequest)
    requires Sorted(es) && req.maxKeys > 0
    ensures forall g :: g in ListedGroups(es, req) ==> Deeper(es, req.prefix, g)
  {
    PagesComplete(es, req);
    var items := Remaining(es, req);
    forall g | g in ListedGroups(es, req) ensures Deeper(es, req.prefix, g) {
      RollupIn(items, g);
      OriginDeeper(es, req.prefix, req.delimiter, g);
    }
  }

  /** A loop that follows the pages and appends each page's objects and prefixes to what it has
      gathered keeps one invariant: the gathered part plus what the pages still to come list is the
      whole listing from `first`. On the last page the gathered part is the whole listing. */
  lemma Accumulate(es: seq<Entry>, first: ListRequest, req: ListRequest, seen: seq<Entry>, groups: seq<string>)
    requires Wellformed(es) && req.maxKeys > 0 && first.maxKeys > 0
    requires seen + ListedLeaves(es, req) == ListedLeaves(es, first)
    requires groups + ListedGroups(es, req) == ListedGroups(es, first)
    ensures var page := ListObjects(es, req);
      var next := req.(marker := page.nextMarker);
      if page.nextMarker == "" then
        seen + page.contents == ListedLeaves(es, first) &&
        groups + page.commonPrefixes == ListedGroups(es, first)
      else
        (seen + page.contents) + ListedLeaves(es, next) == ListedLeaves(es, first) &&
        (groups + page.commonPrefixes) + ListedGroups(es, next) == ListedGroups(es, first) &&
        |Remaining(es, next)| < |Remaining(es, req)|
  {
    var page := ListObjects(es, req);
    TruncatedIffMarker(es, req);
    ListedStep(es, req);
    if page.isTruncated {
      Progress(es, req);
      var next := req.(marker := page.nextMarker);
      AppendAssoc(seen, page.contents, ListedLeaves(es, next));
      AppendAssoc(groups, page.commonPrefixes, ListedGroups(es, next));
    }
  }

  /** The listing from `req` is its first page followed, when that page is truncated, by the listing
      from the page's next marker. */
  lemma ListedStep(es: seq<Entry>, req: ListRequest)
    requires Sorted(es) && req.maxKeys > 0
    ensures var page := ListObjects(es, req);
      var next := req.(marker := page.nextMarker);
      if page.isTruncated then
        |Remaining(es, next)| < |Remaining(es, req)| &&
        ListedLeaves(es, req) == page.contents + ListedLeaves(es, next) &&
        ListedGroups(es, req) == page.commonPrefixes + ListedGroups(es, next)
      else
        ListedLeaves(es, req) == page.contents && ListedGroups(es, req) == page.commonPrefixes
  {
    if ListObjects(es, req).isTruncated {
      Progress(es, req);
    }
  }

  /** With delimiter `/`, a key is rolled up exactly when a `/` follows the prefix. */
  lemma NoGroupIffNoSlash(k: string, prefix: string)
    requires StartsWith(k, prefix)
    ensures GroupOf(k, prefix, "/").None? <==> '/' !in k[|prefix|..]
  {
    var r := k[|prefix|..];
    if '/' in r {
      var j :| 0 <= j < |r| && r[j] == '/';
      assert r[j..j + 1] == "/";
      assert OccursAt(r, "/", j);
    } else {
      forall j: nat ensures !OccursAt(r, "/", j) {
        if j + 1 <= |r| {
          assert r[j..j + 1][0] == r[j];
        }
      }
    }
  }

  /** The first `n` elements of `s`, or all of them when there are fewer. */
  function Take<T>(s: seq<T>, n: nat): (r: seq<T>)
    ensures |r| == if |s| <= n then |s| else n
    ensures r == s[..|r|]
  {
    if |s| <= n then s else s[..n]
  }

  /** Without a delimiter nothing is rolled up: each entry under the prefix is an item of its own. */
  lemma {:induction false} ItemsFlat(cs: seq<Entry>, prefix: string)
    requires forall i :: 0 <= i < |cs| ==> StartsWith(cs[i].key, prefix)
    ensures |Items(cs, prefix, "")| == |cs|
    ensures forall i :: 0 <= i < |cs| ==> Items(cs, prefix, "")[i] == Leaf(cs[i])
    decreases |cs|
  {
    if cs != [] {
      assert forall i :: 0 <= i < |cs[1..]| ==> cs[1..][i] == cs[i + 1];
      ItemsFlat(cs[1..], prefix);
    }
  }

  lemma {:induction false} LeavesFlat(items: seq<Item>)
    requires forall i :: 0 <= i < |items| ==> items[i].Leaf?
    ensures |Leaves(items)| == |items|
    ensures forall i :: 0 <= i < |items| ==> Leaves(items)[i] == items[i].entry
  {
    if items != [] {
      assert forall i :: 0 <= i < |items[1..]| ==> items[1..][i] == items[i + 1];
      LeavesFlat(items[1..]);
    }
  }

  /** A listing without a delimiter, from the start: the first page holds the first `maxKeys` entries
      under the prefix and is truncated exactly when there are more; following the markers gives all
      of them, in order. */
  lemma FlatListing(es: seq<Entry>, req: ListRequest)
    requires Wellformed(es) && req.maxKeys > 0 && req.marker == "" && req.delimiter == ""
    ensures var under := Under(es, req.prefix);
      var page := ListObjects(es, req);
      page.contents == Take(under, req.maxKeys) && (page.isTruncated <==> |under| > req.maxKeys) &&
      ListedLeaves(es, req) == under
  {
    FlatPage(es, req);
    var under := Under(es, req.prefix);
    RemainingFromStart(es, req);
    ItemsFlat(under, req.prefix);
    FlatLeaves(AllItems(es, req.prefix, ""), under);
    PagesComplete(es, req);
  }

  /** The first page of a listing without a delimiter: the first `maxKeys` objects under the prefix. */
  lemma FlatPage(es: seq<Entry>, req: ListRequest)
    requires Wellformed(es) && req.maxKeys > 0 && req.marker == "" && req.delimiter == ""
    ensures var under := Under(es, req.prefix);
      var page := ListObjects(es, req);
      page.contents == Take(under, req.maxKeys) && (page.isTruncated <==> |under| > req.maxKeys)
  {
    var under := Under(es, req.prefix);
    var items := AllItems(es, req.prefix, "");
    RemainingFromStart(es, req);
    ItemsFlat(under, req.prefix);
    var n := |Take(items, req.maxKeys)|;
    FlatLeaves(items[..n], under[..n]);
  }

  /** Items that are the entries as leaves list those entries. */
  lemma FlatLeaves(items: seq<Item>, cs: seq<Entry>)
    requires |items| == |cs| && forall i :: 0 <= i < |items| ==> items[i] == Leaf(cs[i])
    ensures Leaves(items) == cs
  {
    LeavesFlat(items);
  }
}
