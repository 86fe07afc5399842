/** The Huawei OBS adapter: the filesystem operations over one OBS bucket. */
module ObsAdapter {
  import opened Wrappers
  import opened Text
  import opened Bucket
  import opened Listing
  import opened UrlCodec
  import opened Store
  import opened Visibility

  /** The marker the SDK's everyone-group grantee carries (`ObsClient::AllUsers`). */
  const AllUsers := "Everyone"

  /** The placeholder object the OBS console leaves in folders; listings skip keys ending in it. */
  const ConsoleMarker := "obs.txt"

  /** One object of `listDirObjects`: the directory it was listed under and what the page said. */
  datatype ObjectRecord = ObjectRecord(
    prefix: string, key: string, lastModified: string, etag: string, size: nat, storageClass: string)

  /** The result of `listDirObjects`: the objects and the common prefixes. */
  datatype DirListing = DirListing(objects: seq<ObjectRecord>, prefixes: seq<string>)

  /** The result of `getMetadata`. */
  datatype Metadata = Metadata(
    key: string, lastModified: string, etag: string, size: string, contentType: string, storageClass: string)

  /** One entry of `listContents`. */
  datatype FileInfo =
    | FileRecord(path: string, timestamp: string, size: string, mimetype: string, md5: string)
    | DirRecord(path: string)

  /** Every list call of `listDirObjects`: delimiter `/`, at most 1000 keys. */
  function ObsRequest(directory: string, marker: string): (req: ListRequest)
    ensures req.prefix == directory && req.delimiter == "/" && req.marker == marker && req.maxKeys == 1000
  {
    ListRequest(directory, "/", marker, MaxKeys)
  }

  function Record(directory: string, e: Entry): ObjectRecord {
    ObjectRecord(directory, e.key, e.obj.stamp.lastModified, e.obj.stamp.etag, |e.obj.body|, e.obj.stamp.storageClass)
  }

  /** The records of a page's objects, in page order, each carrying the directory listed. */
  function Records(directory: string, es: seq<Entry>): (r: seq<ObjectRecord>)
    ensures |r| == |es| && forall i :: 0 <= i < |es| ==> r[i] == Record(directory, es[i])
  {
    if es == [] then [] else Records(directory, es[..|es| - 1]) + [Record(directory, es[|es| - 1])]
  }

  lemma {:induction false} RecordsAppend(directory: string, a: seq<Entry>, b: seq<Entry>)
    ensures Records(directory, a + b) == Records(directory, a) + Records(directory, b)
  {
    var l, r := Records(directory, a + b), Records(directory, a) + Records(directory, b);
    assert |l| == |r|;
    forall i | 0 <= i < |l| ensures l[i] == r[i] {
      if i < |a| { assert (a + b)[i] == a[i]; } else { assert (a + b)[i] == b[i - |a|]; }
    }
  }

  // ---------------------------------------------------------------------------------------------
  // `listDirObjects` as written: a page without objects resets the objects gathered so far, a page
  // without common prefixes resets the prefixes, and in recursive mode every page descends into all
  // prefixes gathered so far.

  /** What `listDirObjects(directory, recursive)` returns over the bucket `es`. */
  function ObsList(es: seq<Entry>, directory: string, recursive: bool): DirListing
    decreases Depth(es, directory), 2, 0
  {
    ObsPages(es, directory, recursive, "", DirListing([], []))
  }

  /** What one page does to what the loop has gathered, before descending: objects and prefixes
      are appended, or reset when the page has none. */
  function Gather(directory: string, acc: DirListing, page: Page): DirListing {
    DirListing(
      if page.contents == [] then [] else acc.objects + Records(directory, page.contents),
      if page.commonPrefixes == [] then [] else acc.prefixes + page.commonPrefixes)
  }

  /** The loop from the list call with `marker` on, having gathered `acc`. */
  function ObsPages(es: seq<Entry>, directory: string, recursive: bool, marker: string, acc: DirListing): DirListing
    requires forall p :: p in acc.prefixes ==> Deeper(es, directory, p)
    decreases Depth(es, directory), 1, |Remaining(es, ObsRequest(directory, marker))|
  {
    var req := ObsRequest(directory, marker);
    var page := ListObjects(es, req);
    PageGroupsDeeper(es, req);
    var g := Gather(directory, acc, page);
    var merged := if recursive then g.objects + SubObjects(es, directory, g.prefixes) else g.objects;
    if page.nextMarker == "" then DirListing(merged, g.prefixes)
    else
      Progress(es, req);
      ObsPages(es, directory, recursive, page.nextMarker, DirListing(merged, g.prefixes))
  }

  /** The objects of the recursive listings of `prefixes`, one after the other. */
  function SubObjects(es: seq<Entry>, directory: string, prefixes: seq<string>): seq<ObjectRecord>
    requires forall p :: p in prefixes ==> Deeper(es, directory, p)
    decreases Depth(es, directory), 0, |prefixes|
  {
    if prefixes == [] then []
    else
      var last := prefixes[|prefixes| - 1];
      assert last in prefixes;
      DeeperDepth(es, directory, last);
      SubObjects(es, directory, prefixes[..|prefixes| - 1]) + ObsList(es, last, true).objects
  }

  // ---------------------------------------------------------------------------------------------
  // `listDirObjects` corrected: every page's objects and prefixes kept, each prefix descended into
  // once, after the last page.

  function ObsListFixed(es: seq<Entry>, directory: string, recursive: bool): DirListing
    requires Sorted(es)
    decreases Depth(es, directory), 1, 0
  {
    var req := ObsRequest(directory, "");
    ListedGroupsDeeper(es, req);
    var prefixes := ListedGroups(es, req);
    var objects := Records(directory, ListedLeaves(es, req));
    DirListing(if recursive then objects + SubObjectsFixed(es, directory, prefixes) else objects, prefixes)
  }

  function SubObjectsFixed(es: seq<Entry>, directory: string, prefixes: seq<string>): seq<ObjectRecord>
    requires Sorted(es)
    requires forall p :: p in prefixes ==> Deeper(es, directory, p)
    decreases Depth(es, directory), 0, |prefixes|
  {
    if prefixes == [] then []
    else
      var last := prefixes[|prefixes| - 1];
      assert last in prefixes;
      DeeperDepth(es, directory, last);
      SubObjectsFixed(es, directory, prefixes[..|prefixes| - 1]) + ObsListFixed(es, last, true).objects
  }

  lemma SubObjectsFixedStep(es: seq<Entry>, directory: string, prefixes: seq<string>, i: nat)
    requires Sorted(es)
    requires forall p :: p in prefixes ==> Deeper(es, directory, p)
    requires i < |prefixes|
    ensures forall p :: p in prefixes[..i + 1] ==> Deeper(es, directory, p)
    ensures SubObjectsFixed(es, directory, prefixes[..i + 1]) ==
            SubObjectsFixed(es, directory, prefixes[..i]) + ObsListFixed(es, prefixes[i], true).objects
  {
    var ps := prefixes[..i + 1];
    assert ps[..i] == prefixes[..i] && ps[i] == prefixes[i];
  }

  function Keys(objects: seq<ObjectRecord>): (ks: seq<string>)
    ensures |ks| == |objects| && forall i :: 0 <= i < |objects| ==> ks[i] == objects[i].key
  {
    if objects == [] then [] else Keys(objects[..|objects| - 1]) + [objects[|objects| - 1].key]
  }

  /** One key of the corrected non-recursive listing. */
  lemma FixedKey(es: seq<Entry>, directory: string, leaves: seq<Entry>, k: string)
    requires Sorted(es)
    requires forall e :: e in leaves <==>
      e in es && StartsWith(e.key, directory) && GroupOf(e.key, directory, "/").None?
    ensures k in Keys(Records(directory, leaves)) <==>
      Find(es, k).Some? && StartsWith(k, directory) && '/' !in k[|directory|..]
  {
    var ks := Keys(Records(directory, leaves));
    if k in ks {
      var i :| 0 <= i < |ks| && ks[i] == k;
      assert leaves[i] in leaves;
      NoGroupIffNoSlash(k, directory);
      var m :| 0 <= m < |es| && es[m] == leaves[i];
      FindAt(es, m);
    }
    if Find(es, k).Some? && StartsWith(k, directory) && '/' !in k[|directory|..] {
      var m :| 0 <= m < |es| && es[m].key == k;
      NoGroupIffNoSlash(k, directory);
      assert es[m] in leaves;
      var i :| 0 <= i < |leaves| && leaves[i] == es[m];
      assert ks[i] == k;
    }
  }

  /** The corrected non-recursive listing lists each object directly in the directory once, in key
      order, and each subdirectory's common prefix. */
  lemma ObsListFixedComplete(es: seq<Entry>, directory: string)
    requires Wellformed(es)
    ensures var l := ObsListFixed(es, directory, false);
      (forall k :: k in Keys(l.objects) <==> Find(es, k).Some? && StartsWith(k, directory) && '/' !in k[|directory|..]) &&
      (forall i, j :: 0 <= i < j < |l.objects| ==> Below(l.objects[i].key, l.objects[j].key)) &&
      (forall g :: g in l.prefixes <==>
        exists e :: e in es && StartsWith(e.key, directory) && GroupOf(e.key, directory, "/") == Some(g))
  {
    var req := ObsRequest(directory, "");
    ListingComplete(es, req);
    assert ObsListFixed(es, directory, false).objects == Records(directory, ListedLeaves(es, req));
    forall k ensures k in Keys(Records(directory, ListedLeaves(es, req))) <==>
      Find(es, k).Some? && StartsWith(k, directory) && '/' !in k[|directory|..]
    {
      FixedKey(es, directory, ListedLeaves(es, req), k);
    }
  }

  /** No key occurs twice. */
  predicate Distinct(ks: seq<string>) {
    forall i, j :: 0 <= i < j < |ks| ==> ks[i] != ks[j]
  }

  lemma KeysAppend(a: seq<ObjectRecord>, b: seq<ObjectRecord>)
    ensures Keys(a + b) == Keys(a) + Keys(b)
  {
    var l, r := Keys(a + b), Keys(a) + Keys(b);
    assert |l| == |r|;
    forall i | 0 <= i < |l| ensures l[i] == r[i] {
      if i < |a| { assert (a + b)[i] == a[i]; } else { assert (a + b)[i] == b[i - |a|]; }
    }
  }

  lemma DistinctAppend(a: seq<string>, b: seq<string>)
    requires Distinct(a) && Distinct(b)
    requires forall k :: k in a ==> k !in b
    ensures Distinct(a + b)
  {
    forall i, j | 0 <= i < j < |a + b| ensures (a + b)[i] != (a + b)[j] {
      if j < |a| {
        assert (a + b)[i] == a[i] && (a + b)[j] == a[j];
      } else if i < |a| {
        assert (a + b)[i] == a[i] && (a + b)[j] == b[j - |a|];
        assert a[i] in a;
      } else {
        assert (a + b)[i] == b[i - |a|] && (a + b)[j] == b[j - |a|];
      }
    }
  }

  /** Keys in strictly increasing order are distinct. */
  lemma IncreasingDistinct(ks: seq<string>)
    requires forall i, j :: 0 <= i < j < |ks| ==> Below(ks[i], ks[j])
    ensures Distinct(ks)
  {
    forall i, j | 0 <= i < j < |ks| ensures ks[i] != ks[j] {
      BelowIrreflexive(ks[i]);
    }
  }

  /** `g` is a common prefix of a listing of `directory`: the key `g` itself would be rolled up into `g`. */
  predicate IsGroup(g: string, directory: string) {
    StartsWith(g, directory) && GroupOf(g, directory, "/") == Some(g)
  }

  /** The keys under a common prefix are the keys of the directory that roll up into it. */
  lemma UnderGroup(k: string, directory: string, g: string)
    requires IsGroup(g, directory)
    ensures StartsWith(k, g) <==> StartsWith(k, directory) && GroupOf(k, directory, "/") == Some(g)
  {
    if StartsWith(k, g) {
      assert k[..|directory|] == g[..|directory|];
      GroupStable(g, k, directory, "/", g);
    }
  }

  /** The corrected listing, recursive: every object under the directory, each exactly once. */
  lemma {:induction false} ObsListFixedRecursive(es: seq<Entry>, directory: string)
    requires Wellformed(es)
    ensures var ks := Keys(ObsListFixed(es, directory, true).objects);
      (forall k :: k in ks <==> Find(es, k).Some? && StartsWith(k, directory)) && Distinct(ks)
    decreases Depth(es, directory), 1
  {
    var ps := ListedGroups(es, ObsRequest(directory, ""));
    ListedGroupsShape(es, directory);
    ObsListFixedComplete(es, directory);
    var direct, sub := ObsListFixed(es, directory, false).objects, SubObjectsFixed(es, directory, ps);
    IncreasingDistinct(Keys(direct));
    assert ObsListFixed(es, directory, true).objects == direct + sub;
    KeysAppend(direct, sub);
    SubFixedKeys(es, directory, ps);
    DirectAndGrouped(es, directory, Keys(direct), Keys(sub), ps);
  }

  /** The keys with no `/` after the directory, then those rolled up into the listed common
      prefixes: together every key under the directory, each once. */
  lemma DirectAndGrouped(es: seq<Entry>, directory: string, dk: seq<string>, gk: seq<string>, ps: seq<string>)
    requires forall k :: k in dk <==> Find(es, k).Some? && StartsWith(k, directory) && '/' !in k[|directory|..]
    requires forall k :: k in gk <==>
      (Find(es, k).Some? && StartsWith(k, directory) &&
       GroupOf(k, directory, "/").Some? && GroupOf(k, directory, "/").value in ps)
    requires forall k :: Find(es, k).Some? && StartsWith(k, directory) && GroupOf(k, directory, "/").Some? ==>
      GroupOf(k, directory, "/").value in ps
    requires Distinct(dk) && Distinct(gk)
    ensures forall k :: k in dk + gk <==> Find(es, k).Some? && StartsWith(k, directory)
    ensures Distinct(dk + gk)
  {
    forall k | Find(es, k).Some? && StartsWith(k, directory) && '/' in k[|directory|..]
      ensures k in gk
    {
      NoGroupIffNoSlash(k, directory);
    }
    forall k | k in dk ensures k !in gk {
      NoGroupIffNoSlash(k, directory);
    }
    DistinctAppend(dk, gk);
  }

  /** The common prefixes of a listing from the start: each deeper than the directory and a common
      prefix in its own right, none twice, and the one every key under the directory rolls up into. */
  lemma ListedGroupsShape(es: seq<Entry>, directory: string)
    requires Wellformed(es)
    ensures var ps := ListedGroups(es, ObsRequest(directory, ""));
      (forall p :: p in ps ==> Deeper(es, directory, p) && IsGroup(p, directory)) && Distinct(ps) &&
      (forall k :: Find(es, k).Some? && StartsWith(k, directory) && GroupOf(k, directory, "/").Some? ==>
        GroupOf(k, directory, "/").value in ps)
  {
    var req := ObsRequest(directory, "");
    ListingComplete(es, req);
    ListedGroupsDeeper(es, req);
    var ps := ListedGroups(es, req);
    forall p | p in ps ensures IsGroup(p, directory) {
      var e :| e in es && StartsWith(e.key, directory) && GroupOf(e.key, directory, "/") == Some(p);
      assert p[..|p|] == p;
      GroupStable(e.key, p, directory, "/", p);
    }
    IncreasingDistinct(ps);
    forall k | Find(es, k).Some? && StartsWith(k, directory) && GroupOf(k, directory, "/").Some?
      ensures GroupOf(k, directory, "/").value in ps
    {
      var m :| 0 <= m < |es| && es[m].key == k;
      assert es[m] in es;
    }
  }

  /** The keys of the corrected listing: the objects under the directory (only those directly in
      it when not recursive), each exactly once. */
  lemma ObsListFixedKeys(es: seq<Entry>, directory: string, recursive: bool)
    requires Wellformed(es)
    ensures var ks := Keys(ObsListFixed(es, directory, recursive).objects);
      (forall k :: k in ks <==>
        (Find(es, k).Some? && StartsWith(k, directory) && (recursive || '/' !in k[|directory|..]))) &&
      Distinct(ks)
  {
    if recursive {
      ObsListFixedRecursive(es, directory);
    } else {
      ObsListFixedComplete(es, directory);
      IncreasingDistinct(Keys(ObsListFixed(es, directory, false).objects));
    }
  }

  /** A distinct sequence is its distinct front and a last element not among them. */
  lemma DistinctSplit(ps: seq<string>)
    requires Distinct(ps) && ps != []
    ensures Distinct(ps[..|ps| - 1]) && ps[|ps| - 1] !in ps[..|ps| - 1]
    ensures forall g :: g in ps <==> g in ps[..|ps| - 1] || g == ps[|ps| - 1]
  {
    var init := ps[..|ps| - 1];
    assert ps == init + [ps[|ps| - 1]];
    forall i | 0 <= i < |init| ensures init[i] != ps[|ps| - 1] {
      assert init[i] == ps[i];
    }
  }

  /** The corrected recursive listings of distinct common prefixes of `directory`, one after the
      other: every object rolled up into one of them, each exactly once. */
  lemma {:induction false} SubFixedKeys(es: seq<Entry>, directory: string, ps: seq<string>)
    requires Wellformed(es)
    requires forall p :: p in ps ==> Deeper(es, directory, p) && IsGroup(p, directory)
    requires Distinct(ps)
    ensures var ks := Keys(SubObjectsFixed(es, directory, ps));
      (forall k :: k in ks <==>
        (Find(es, k).Some? && StartsWith(k, directory) &&
         GroupOf(k, directory, "/").Some? && GroupOf(k, directory, "/").value in ps)) &&
      Distinct(ks)
    decreases Depth(es, directory), 0, |ps|
  {
    if ps != [] {
      var n := |ps| - 1;
      var init, last := ps[..n], ps[n];
      DistinctSplit(ps);
      SubFixedKeys(es, directory, init);
      DeeperDepth(es, directory, last);
      ObsListFixedRecursive(es, last);
      var a, b := SubObjectsFixed(es, directory, init), ObsListFixed(es, last, true).objects;
      assert SubObjectsFixed(es, directory, ps) == a + b;
      KeysAppend(a, b);
      forall k ensures k in Keys(b) <==>
        Find(es, k).Some? && StartsWith(k, directory) && GroupOf(k, directory, "/") == Some(last)
      {
        UnderGroup(k, directory, last);
      }
      DistinctAppend(Keys(a), Keys(b));
    }
  }

  /** As written, a listing that fits one page is the corrected one: complete and without repeats. */
  lemma ObsSinglePage(es: seq<Entry>, directory: string)
    requires Wellformed(es)
    requires !ListObjects(es, ObsRequest(directory, "")).isTruncated
    ensures ObsList(es, directory, false) == ObsListFixed(es, directory, false)
  {
  }

  /** `listDirObjects` as written: when the last of two pages lists only common prefixes, the objects
      of the first page are reset away; the corrected listing keeps them. */
  lemma ObsLastPageDropsObjects(es: seq<Entry>, directory: string)
    requires Wellformed(es)
    requires var first := ListObjects(es, ObsRequest(directory, ""));
      first.isTruncated && first.contents != [] &&
      var second := ListObjects(es, ObsRequest(directory, first.nextMarker));
      !second.isTruncated && second.contents == []
    ensures ObsList(es, directory, false).objects == []
    ensures ObsListFixed(es, directory, false).objects != []
  {
    var req := ObsRequest(directory, "");
    var first := ListObjects(es, req);
    TruncatedIffMarker(es, req);
    Progress(es, req);
    var req2 := ObsRequest(directory, first.nextMarker);
    assert req2 == req.(marker := first.nextMarker);
    TruncatedIffMarker(es, req2);
    PageGroupsDeeper(es, req);
    PageGroupsDeeper(es, req2);
    var g := Gather(directory, DirListing([], []), first);
    assert ObsList(es, directory, false) == ObsPages(es, directory, false, first.nextMarker, g);
    assert ListedLeaves(es, req) == first.contents + ListedLeaves(es, req2);
  }

  /** `listDirObjects` as written, recursive, over two pages that both list objects and common
      prefixes: the second page descends again into the first page's prefixes, so their objects come
      twice. */
  lemma ObsRecursionRepeats(es: seq<Entry>, directory: string)
    requires Wellformed(es)
    requires var first := ListObjects(es, ObsRequest(directory, ""));
      first.isTruncated && first.contents != [] && first.commonPrefixes != [] &&
      var second := ListObjects(es, ObsRequest(directory, first.nextMarker));
      !second.isTruncated && second.contents != [] && second.commonPrefixes != []
    ensures var first := ListObjects(es, ObsRequest(directory, ""));
      var second := ListObjects(es, ObsRequest(directory, first.nextMarker));
      forall p :: p in first.commonPrefixes + second.commonPrefixes ==> Deeper(es, directory, p)
    ensures var first := ListObjects(es, ObsRequest(directory, ""));
      var second := ListObjects(es, ObsRequest(directory, first.nextMarker));
      var once := SubObjects(es, directory, first.commonPrefixes);
      ObsList(es, directory, true).objects ==
        Records(directory, first.contents) + once + Records(directory, second.contents) +
        (once + SubObjects(es, directory, second.commonPrefixes))
  {
    var req := ObsRequest(directory, "");
    var first := ListObjects(es, req);
    TruncatedIffMarker(es, req);
    var req2 := ObsRequest(directory, first.nextMarker);
    var second := ListObjects(es, req2);
    TruncatedIffMarker(es, req2);
    PageGroupsDeeper(es, req);
    PageGroupsDeeper(es, req2);
    var p1, p2 := first.commonPrefixes, second.commonPrefixes;
    var acc := DirListing(Records(directory, first.contents) + SubObjects(es, directory, p1), p1);
    ObsPagesFirst(es, directory, first);
    ObsPagesLast(es, directory, first.nextMarker, acc, second);
    SubObjectsAppend(es, directory, p1, p2);
  }

  /** As written, recursive, over the two pages of `ObsRecursionRepeats`: when the first page's last
      common prefix holds objects that fit one page, their keys are listed twice. */
  lemma ObsRecursionDuplicates(es: seq<Entry>, directory: string)
    requires Wellformed(es)
    requires var first := ListObjects(es, ObsRequest(directory, ""));
      first.isTruncated && first.contents != [] && first.commonPrefixes != [] &&
      var second := ListObjects(es, ObsRequest(directory, first.nextMarker));
      !second.isTruncated && second.contents != [] && second.commonPrefixes != []
    requires var ps := ListObjects(es, ObsRequest(directory, "")).commonPrefixes;
      var inner := ListObjects(es, ObsRequest(ps[|ps| - 1], ""));
      !inner.isTruncated && inner.contents != []
    ensures !Distinct(Keys(ObsList(es, directory, true).objects))
  {
    ObsRecursionRepeats(es, directory);
    var first := ListObjects(es, ObsRequest(directory, ""));
    var second := ListObjects(es, ObsRequest(directory, first.nextMarker));
    var ps := first.commonPrefixes;
    var n := |ps| - 1;
    assert ps[n] in first.commonPrefixes + second.commonPrefixes;
    assert forall p :: p in ps[..n] ==> p in first.commonPrefixes + second.commonPrefixes;
    OnePageListing(es, ps[n]);
    var once := SubObjects(es, directory, ps);
    assert once == SubObjects(es, directory, ps[..n]) + ObsList(es, ps[n], true).objects;
    var a, b := Records(directory, first.contents), Records(directory, second.contents);
    var objects := ObsList(es, directory, true).objects;
    assert objects == a + once + b + (once + SubObjects(es, directory, second.commonPrefixes));
    var i, j := |a|, |a| + |once| + |b|;
    assert objects[i] == once[0] == objects[j];
    assert Keys(objects)[i] == Keys(objects)[j];
  }

  /** A directory listed on one page that holds objects gives a recursive listing with objects. */
  lemma OnePageListing(es: seq<Entry>, directory: string)
    requires Wellformed(es)
    requires !ListObjects(es, ObsRequest(directory, "")).isTruncated
    requires ListObjects(es, ObsRequest(directory, "")).contents != []
    ensures ObsList(es, directory, true).objects != []
  {
    var req := ObsRequest(directory, "");
    var page := ListObjects(es, req);
    TruncatedIffMarker(es, req);
    PageGroupsDeeper(es, req);
    var g := Gather(directory, DirListing([], []), page);
    assert g.objects == Records(directory, page.contents);
    assert ObsList(es, directory, true).objects == g.objects + SubObjects(es, directory, g.prefixes);
  }

  /** The first iteration of the recursive loop on a truncated page with objects and prefixes. */
  lemma ObsPagesFirst(es: seq<Entry>, directory: string, first: Page)
    requires first == ListObjects(es, ObsRequest(directory, ""))
    requires first.nextMarker != "" && first.contents != [] && first.commonPrefixes != []
    requires forall p :: p in first.commonPrefixes ==> Deeper(es, directory, p)
    ensures ObsList(es, directory, true) ==
      ObsPages(es, directory, true, first.nextMarker,
        DirListing(Records(directory, first.contents) + SubObjects(es, directory, first.commonPrefixes), first.commonPrefixes))
  {
    var g := Gather(directory, DirListing([], []), first);
    assert g.objects == Records(directory, first.contents) && g.prefixes == first.commonPrefixes;
  }

  /** The last iteration of the recursive loop, on a page with objects and prefixes. */
  lemma ObsPagesLast(es: seq<Entry>, directory: string, marker: string, acc: DirListing, last: Page)
    requires forall p :: p in acc.prefixes ==> Deeper(es, directory, p)
    requires last == ListObjects(es, ObsRequest(directory, marker))
    requires last.nextMarker == "" && last.contents != [] && last.commonPrefixes != []
    requires forall p :: p in last.commonPrefixes ==> Deeper(es, directory, p)
    ensures forall p :: p in acc.prefixes + last.commonPrefixes ==> Deeper(es, directory, p)
    ensures ObsPages(es, directory, true, marker, acc).objects ==
      acc.objects + Records(directory, last.contents) + SubObjects(es, directory, acc.prefixes + last.commonPrefixes)
  {
    var g := Gather(directory, acc, last);
    assert g.objects == acc.objects + Records(directory, last.contents);
    assert g.prefixes == acc.prefixes + last.commonPrefixes;
  }


  /** The recursive listings of two runs of prefixes, one after the other. */
  lemma {:induction false} SubObjectsAppend(es: seq<Entry>, directory: string, a: seq<string>, b: seq<string>)
    requires forall p :: p in a + b ==> Deeper(es, directory, p)
    ensures forall p :: p in a ==> Deeper(es, directory, p)
    ensures forall p :: p in b ==> Deeper(es, directory, p)
    ensures SubObjects(es, directory, a + b) == SubObjects(es, directory, a) + SubObjects(es, directory, b)
    decreases |b|
  {
    assert forall p :: p in a ==> p in a + b;
    assert forall p :: p in b ==> p in a + b;
    if b == [] {
      assert a + b == a;
    } else {
      var b0 := b[..|b| - 1];
      assert (a + b)[..|a + b| - 1] == a + b0;
      assert forall p :: p in a + b0 ==> p in a + b;
      assert forall p :: p in b0 ==> p in b;
      SubObjectsAppend(es, directory, a, b0);
      assert b[..|b| - 1] == b0;
      AppendAssoc(SubObjects(es, directory, a), SubObjects(es, directory, b0), ObsList(es, b[|b| - 1], true).objects);
    }
  }

  /** `getMetadata`'s record for the object `o` under `key`, as written: `Size` is filled from
      `LastModified`. */
  function MetadataOf(key: string, o: StoredObject): Metadata {
    Metadata(key, o.stamp.lastModified, o.stamp.etag, o.stamp.lastModified, o.contentType, o.stamp.storageClass)
  }

  /** `getMetadata`'s record corrected: `Size` is the object's length in decimal. */
  function MetadataFixed(key: string, o: StoredObject): Metadata {
    Metadata(key, o.stamp.lastModified, o.stamp.etag, Decimal(|o.body|), o.contentType, o.stamp.storageClass)
  }

  /** As written the size is the date text, not a number; the corrected size reads back as the
      object's length. */
  lemma MetadataSizes(key: string, o: StoredObject)
    ensures MetadataOf(key, o).size == o.stamp.lastModified
    ensures var size := MetadataFixed(key, o).size;
      (forall i :: 0 <= i < |size| ==> IsDigit(size[i])) && ParseDecimal(size) == |o.body|
  {
    ParseDecimalOf(|o.body|);
  }

  /** The directory entries of `listContents`, one per common prefix, in order. */
  function DirRecords(prefixes: seq<string>): (r: seq<FileInfo>)
    ensures |r| == |prefixes| && forall i :: 0 <= i < |r| ==> r[i] == DirRecord(prefixes[i])
  {
    seq(|prefixes|, i requires 0 <= i < |prefixes| => DirRecord(prefixes[i]))
  }

  /** The paths `deleteDir` deletes, in listing order. */
  function Paths(infos: seq<FileInfo>): (r: seq<string>)
    ensures |r| == |infos| && forall i :: 0 <= i < |r| ==> r[i] == infos[i].path
  {
    seq(|infos|, i requires 0 <= i < |infos| => infos[i].path)
  }

  lemma SubObjectsStep(es: seq<Entry>, directory: string, prefixes: seq<string>, i: nat)
    requires forall p :: p in prefixes ==> Deeper(es, directory, p)
    requires i < |prefixes|
    ensures forall p :: p in prefixes[..i + 1] ==> Deeper(es, directory, p)
    ensures SubObjects(es, directory, prefixes[..i + 1]) ==
            SubObjects(es, directory, prefixes[..i]) + ObsList(es, prefixes[i], true).objects
  {
    var ps := prefixes[..i + 1];
    assert ps[..i] == prefixes[..i] && ps[i] == prefixes[i];
  }

  class Adapter {
    const store: ObjectStore
    /** The bucket every call names. */
    const bucket: Option<string>
    /** The public domain of `getUrl`. */
    const domain: string
    /** Flysystem's `applyPathPrefix`. */
    const applyPathPrefix: string -> string
    /** PHP's `strtotime`, left uninterpreted. */
    const parseTime: string -> int

    /** The adapter as constructed: the bucket is never set, so every call names none. */
    constructor (store: ObjectStore, domain: string, applyPathPrefix: string -> string, parseTime: string -> int)
      ensures this.store == store && this.domain == domain
      ensures this.applyPathPrefix == applyPathPrefix && this.parseTime == parseTime
      ensures bucket.None?
    {
      this.store := store;
      this.domain := domain;
      this.applyPathPrefix := applyPathPrefix;
      this.parseTime := parseTime;
      bucket := None;
    }

    /** The adapter with its bucket taken from the configuration. */
    constructor WithBucket(store: ObjectStore, domain: string, applyPathPrefix: string -> string,
        parseTime: string -> int, bucket: string)
      ensures this.store == store && this.domain == domain
      ensures this.applyPathPrefix == applyPathPrefix && this.parseTime == parseTime
      ensures this.bucket == Some(bucket)
    {
      this.store := store;
      this.domain := domain;
      this.applyPathPrefix := applyPathPrefix;
      this.parseTime := parseTime;
      this.bucket := Some(bucket);
    }

    /** As constructed, with no bucket, no call gets through, whatever the provider would answer. */
    lemma UnconfiguredRejects(status: int)
      requires bucket.None?
      ensures !store.Accepts(bucket, status)
    {
    }

    /** `write`: the contents stored under `path` as given (no path prefix), private. */
    method Write(path: string, contents: string, stamp: Stamp, status: int) returns (ok: bool)
      requires store.Valid()
      modifies store
      ensures store.Valid()
      ensures ok <==> store.Accepts(bucket, status) && path != ""
      ensures ok ==> store.entries == Put(old(store.entries), Entry(path, StoredObject(contents, "", OwnerOnly, stamp)))
      ensures !ok ==> store.entries == old(store.entries)
      ensures forall k :: (store.Lookup(k) ==
        if ok && k == path then Some(StoredObject(contents, "", OwnerOnly, stamp)) else old(store.Lookup(k)))
    {
      ghost var es := store.entries;
      ok := store.PutObject(bucket, path, contents, "", None, stamp, status);
      forall k ensures store.Lookup(k) == if ok && k == path then Some(StoredObject(contents, "", OwnerOnly, stamp)) else Find(es, k) {
        if ok {
          PutFind(es, Entry(path, StoredObject(contents, "", OwnerOnly, stamp)), k);
        }
      }
    }

    /** `update`: the same upload as `write`, replacing whatever was under `path`. */
    method Update(path: string, contents: string, stamp: Stamp, status: int) returns (ok: bool)
      requires store.Valid()
      modifies store
      ensures store.Valid()
      ensures ok <==> store.Accepts(bucket, status) && path != ""
      ensures forall k :: (store.Lookup(k) ==
        if ok && k == path then Some(StoredObject(contents, "", OwnerOnly, stamp)) else old(store.Lookup(k)))
    {
      ok := Write(path, contents, stamp, status);
    }

    /** `copy(path, newpath)` as written: the provider is asked to copy `newpath` onto `path`; true
        only on status 200. */
    method Copy(path: string, newpath: string, stamp: Stamp, status: int) returns (ok: bool)
      requires store.Valid()
      modifies store
      ensures store.Valid()
      ensures ok <==> store.Accepts(bucket, status) && status == 200 && path != "" && old(store.Lookup(newpath)).Some?
      ensures forall k :: (store.Lookup(k) ==
        if store.Accepts(bucket, status) && path != "" && old(store.Lookup(newpath)).Some? && k == path
        then Some(CopyOf(old(store.Lookup(newpath)).value, stamp))
        else old(store.Lookup(k)))
    {
      ghost var es := store.entries;
      var copied := store.CopyObject(bucket, path, newpath, stamp, status);
      ok := copied && status == 200;
      forall k ensures store.Lookup(k) == if copied && k == path then Some(CopyOf(Find(es, newpath).value, stamp)) else Find(es, k) {
        if copied {
          PutFind(es, Entry(path, CopyOf(Find(es, newpath).value, stamp)), k);
        }
      }
    }

    /** `copy(path, newpath)` corrected: `path` copied onto `newpath`. */
    method CopyFixed(path: string, newpath: string, stamp: Stamp, status: int) returns (ok: bool)
      requires store.Valid()
      modifies store
      ensures store.Valid()
      ensures ok <==> store.Accepts(bucket, status) && status == 200 && newpath != "" && old(store.Lookup(path)).Some?
      ensures forall k :: (store.Lookup(k) ==
        if store.Accepts(bucket, status) && newpath != "" && old(store.Lookup(path)).Some? && k == newpath
        then Some(CopyOf(old(store.Lookup(path)).value, stamp))
        else old(store.Lookup(k)))
    {
      ghost var es := store.entries;
      var copied := store.CopyObject(bucket, newpath, path, stamp, status);
      ok := copied && status == 200;
      forall k ensures store.Lookup(k) == if copied && k == newpath then Some(CopyOf(Find(es, path).value, stamp)) else Find(es, k) {
        if copied {
          PutFind(es, Entry(newpath, CopyOf(Find(es, path).value, stamp)), k);
        }
      }
    }

    /** `delete`: the object under `path` removed when the call gets through; true only on status 200. */
    method Delete(path: string, status: int) returns (ok: bool)
      requires store.Valid()
      modifies store
      ensures store.Valid()
      ensures ok <==> store.Accepts(bucket, status) && status == 200
      ensures store.entries == if store.Accepts(bucket, status) then Remove(old(store.entries), path) else old(store.entries)
      ensures forall k :: store.Lookup(k) == if store.Accepts(bucket, status) && k == path then None else old(store.Lookup(k))
    {
      ghost var es := store.entries;
      var deleted := store.DeleteObject(bucket, path, status);
      ok := deleted && status == 200;
      forall k ensures store.Lookup(k) == if deleted && k == path then None else Find(es, k) {
        if deleted {
          RemoveFind(es, path, k);
        }
      }
    }

    /** `rename(path, newpath)` as written: the swapped copy, then the delete of `path` only when the
        copy answered 200; the answer is the delete's. A copy the provider takes overwrites `path`
        with a private copy of `newpath`; the delete that follows a 200 removes `path` again, so a
        successful rename leaves `newpath` as it was and `path` gone. A copy taken with another status
        leaves the overwritten `path` behind and answers false. */
    method Rename(path: string, newpath: string, stamp: Stamp, copyStatus: int, deleteStatus: int)
      returns (ok: bool)
      requires store.Valid()
      modifies store
      ensures store.Valid()
      ensures ok <==> store.Accepts(bucket, copyStatus) && copyStatus == 200 && path != "" &&
                      old(store.Lookup(newpath)).Some? && deleteStatus == 200
      ensures var copied := store.Accepts(bucket, copyStatus) && path != "" && old(store.Lookup(newpath)).Some?;
        var deleted := copied && copyStatus == 200 && store.Accepts(bucket, deleteStatus);
        forall k :: (store.Lookup(k) ==
          if k == path && deleted then None
          else if k == path && copied then Some(CopyOf(old(store.Lookup(newpath)).value, stamp))
          else old(store.Lookup(k)))
      ensures store.Accepts(bucket, copyStatus) && copyStatus != 200 && path != "" && old(store.Lookup(newpath)).Some? ==>
        !ok && store.Lookup(path) == Some(CopyOf(old(store.Lookup(newpath)).value, stamp))
    {
      var copied := Copy(path, newpath, stamp, copyStatus);
      if copied {
        ok := Delete(path, deleteStatus);
      } else {
        ok := false;
      }
    }

    /** `rename(path, newpath)` with the corrected copy: the object moves from `path` to `newpath`.
        A delete that fails after a good copy leaves the object under both names and answers false. */
    method RenameFixed(path: string, newpath: string, stamp: Stamp, copyStatus: int, deleteStatus: int)
      returns (ok: bool)
      requires store.Valid()
      modifies store
      ensures store.Valid()
      ensures ok <==> store.Accepts(bucket, copyStatus) && copyStatus == 200 && newpath != "" &&
                      old(store.Lookup(path)).Some? && deleteStatus == 200
      ensures var copied := store.Accepts(bucket, copyStatus) && newpath != "" && old(store.Lookup(path)).Some?;
        var deleted := copied && copyStatus == 200 && store.Accepts(bucket, deleteStatus);
        forall k :: (store.Lookup(k) ==
          if k == path && deleted then None
          else if k == newpath && copied then Some(CopyOf(old(store.Lookup(path)).value, stamp))
          else old(store.Lookup(k)))
      ensures ok && path != newpath ==>
        store.Lookup(path).None? && store.Lookup(newpath) == Some(CopyOf(old(store.Lookup(path)).value, stamp))
      ensures store.Accepts(bucket, copyStatus) && copyStatus == 200 && newpath != "" && old(store.Lookup(path)).Some? &&
              !store.Accepts(bucket, deleteStatus) ==>
        !ok && store.Lookup(path).Some? && store.Lookup(newpath).Some?
    {
      var copied := CopyFixed(path, newpath, stamp, copyStatus);
      if copied {
        ok := Delete(path, deleteStatus);
      } else {
        ok := false;
      }
    }

    /** `createDir`: an empty object under the name with its slashes trimmed and one `/` appended;
        true whatever the write did. */
    method CreateDir(dirname: string, stamp: Stamp, status: int) returns (ok: bool)
      requires store.Valid()
      modifies store
      ensures store.Valid()
      ensures ok
      ensures forall k :: (store.Lookup(k) ==
        if store.Accepts(bucket, status) && k == Trim(dirname, '/') + "/" then Some(StoredObject("", "", OwnerOnly, stamp))
        else old(store.Lookup(k)))
    {
      var _ := Write(Trim(dirname, '/') + "/", "", stamp, status);
      ok := true;
    }

    /** What `getMetadata(path)` answers in the current state. */
    function MetadataAt(path: string, status: int): Option<Metadata>
      reads store
    {
      var key := applyPathPrefix(path);
      if store.Accepts(bucket, status) && status == 200 && store.Lookup(key).Some?
      then Some(MetadataOf(key, store.Lookup(key).value))
      else None
    }

    /** `getMetadata`: a head request for the prefixed path; a record only on status 200, and its
        `Size` is the date text. */
    method GetMetadata(path: string, status: int) returns (r: Option<Metadata>)
      ensures r == MetadataAt(path, status)
      ensures var key := applyPathPrefix(path);
        (r.Some? <==> store.Accepts(bucket, status) && status == 200 && store.Lookup(key).Some?) &&
        (r.Some? ==> r.value.key == key && r.value.size == r.value.lastModified == store.Lookup(key).value.stamp.lastModified &&
                     r.value.contentType == store.Lookup(key).value.contentType)
    {
      var key := applyPathPrefix(path);
      var o := store.HeadObject(bucket, key, status);
      if o.Some? && status == 200 {
        r := Some(MetadataOf(key, o.value));
      } else {
        r := None;
      }
    }

    /** `getMetadata` with the size corrected. */
    method GetMetadataFixed(path: string, status: int) returns (r: Option<Metadata>)
      ensures var key := applyPathPrefix(path);
        (r.Some? <==> store.Accepts(bucket, status) && status == 200 && store.Lookup(key).Some?) &&
        (r.Some? ==> r.value.key == key && (forall i :: 0 <= i < |r.value.size| ==> IsDigit(r.value.size[i])) &&
                     ParseDecimal(r.value.size) == |store.Lookup(key).value.body|)
    {
      var key := applyPathPrefix(path);
      var o := store.HeadObject(bucket, key, status);
      if o.Some? && status == 200 {
        MetadataSizes(key, o.value);
        r := Some(MetadataFixed(key, o.value));
      } else {
        r := None;
      }
    }

    /** `has`: whether `getMetadata` finds the path. */
    method Has(path: string, status: int) returns (b: bool)
      ensures b <==> store.Accepts(bucket, status) && status == 200 && store.Lookup(applyPathPrefix(path)).Some?
    {
      var m := GetMetadata(path, status);
      b := m.Some?;
    }

    /** `getSize`: the metadata's `Size`, which as written is the object's date text. */
    method GetSize(path: string, status: int) returns (r: Option<string>)
      ensures r.Some? <==> MetadataAt(path, status).Some?
      ensures r.Some? ==> r.value == store.Lookup(applyPathPrefix(path)).value.stamp.lastModified
    {
      var m := GetMetadata(path, status);
      r := if m.Some? then Some(m.value.size) else None;
    }

    /** `getMimetype`: the stored content type. */
    method GetMimetype(path: string, status: int) returns (r: Option<string>)
      ensures r.Some? <==> MetadataAt(path, status).Some?
      ensures r.Some? ==> r.value == store.Lookup(applyPathPrefix(path)).value.contentType
    {
      var m := GetMetadata(path, status);
      r := if m.Some? then Some(m.value.contentType) else None;
    }

    /** `getTimestamp`: the stored date text, read by `strtotime`. */
    method GetTimestamp(path: string, status: int) returns (r: Option<int>)
      ensures r.Some? <==> MetadataAt(path, status).Some?
      ensures r.Some? ==> r.value == parseTime(store.Lookup(applyPathPrefix(path)).value.stamp.lastModified)
    {
      var m := GetMetadata(path, status);
      r := if m.Some? then Some(parseTime(m.value.lastModified)) else None;
    }

    /** `getVisibility`: public exactly when a grant gives READ to a grantee URI naming everyone,
        private otherwise; nothing when the ACL call fails. */
    method GetVisibility(path: string, status: int) returns (r: Option<string>)
      ensures var key := applyPathPrefix(path);
        (r.Some? <==> store.Accepts(bucket, status) && store.Lookup(key).Some?) &&
        (r.Some? ==> r.value == Public || r.value == Private) &&
        (r.Some? ==> (r.value == Public <==> AnyPublicRead(store.Lookup(key).value.grants, PermissionRead, AllUsers)))
    {
      var grants := store.GetObjectAcl(bucket, applyPathPrefix(path), status);
      if grants.None? {
        return None;
      }
      var v := ScanGrants(grants.value, PermissionRead, AllUsers);
      r := Some(v);
    }

    /** `setVisibility`: "public" sets the public-read ACL, anything else the private one; true only on
        status 200. Once set, `getVisibility` reads back "public" exactly for "public", when the
        provider's everyone-group URI names everyone. */
    method SetVisibility(path: string, visibility: string, status: int) returns (ok: bool)
      requires store.Valid()
      modifies store
      ensures store.Valid()
      ensures var key := applyPathPrefix(path);
        ok <==> store.Accepts(bucket, status) && status == 200 && old(store.Lookup(key)).Some?
      ensures var key := applyPathPrefix(path);
        ok && Contains(store.allUsersUri, AllUsers) ==>
          store.Lookup(key).Some? &&
          (AnyPublicRead(store.Lookup(key).value.grants, PermissionRead, AllUsers) <==> visibility == Public)
      ensures var key, acl := applyPathPrefix(path), if visibility == Public then AclPublicRead else AclPrivate;
        forall k :: (store.Lookup(k) ==
          if store.Accepts(bucket, status) && old(store.Lookup(key)).Some? && k == key
          then Some(old(store.Lookup(key)).value.(grants := CannedGrants(acl, store.allUsersUri).value))
          else old(store.Lookup(k)))
    {
      var key := applyPathPrefix(path);
      var acl := if visibility == Public then AclPublicRead else AclPrivate;
      ghost var es := store.entries;
      ghost var o := Find(es, key);
      var applied := store.SetObjectAcl(bucket, key, acl, status);
      ok := applied && status == 200;
      forall k ensures store.Lookup(k) == if applied && k == key then Some(o.value.(grants := CannedGrants(acl, store.allUsersUri).value)) else Find(es, k) {
        if applied {
          PutFind(es, Entry(key, o.value.(grants := CannedGrants(acl, store.allUsersUri).value)), k);
        }
      }
      if ok && Contains(store.allUsersUri, AllUsers) {
        CannedVisibility(acl, store.allUsersUri, AllUsers);
      }
    }

    /** `getUrl`: the normalised domain, the prefixed path's segments form-encoded and joined with
        `/`, leading `/` removed, and `?query` when the query is not empty. Read back, the URL gives
        the path (without leading slashes) and the query. */
    function GetUrl(path: string): (url: string)
      requires IsByteString(applyPathPrefix(path))
      ensures var host := NormalizeHost(domain);
        var parts := ParseUrl(applyPathPrefix(path), false);
        StartsWith(url, host) &&
        var back := ParseUrl(url[|host|..], false);
        Decode(back.path, Form) == LTrim(parts.path, '/') && back.query == KeptQuery(parts.query)
    {
      PublicUrlRoundTrip(domain, applyPathPrefix(path), Form, Form, false);
      PublicUrl(domain, applyPathPrefix(path), Form, false)
    }

    /** The file entry `listContents` makes of one object: none for a console placeholder or an object
        whose metadata is not found, otherwise one described by the metadata. */
    function FileEntry(o: ObjectRecord, status: int): seq<FileInfo>
      reads store
    {
      var path := LTrim(o.key, '/');
      var m := MetadataAt(path, status);
      if EndsWith(o.key, ConsoleMarker) || m.None? then []
      else [FileRecord(path, m.value.lastModified, m.value.size, m.value.contentType, m.value.etag)]
    }

    /** The file entries `listContents` makes of `objects`, in order. */
    function FileInfos(objects: seq<ObjectRecord>, status: int): seq<FileInfo>
      reads store
    {
      if objects == [] then []
      else FileInfos(objects[..|objects| - 1], status) + FileEntry(objects[|objects| - 1], status)
    }

    /** What `listContents` returns for a `listDirObjects` result. */
    function Contents(l: DirListing, status: int): seq<FileInfo>
      reads store
    {
      FileInfos(l.objects, status) + DirRecords(l.prefixes)
    }

    /** Every file entry of `listContents` is a file the metadata call finds, named by an object's
        key without leading slashes, and never a console placeholder. */
    lemma {:induction false} FileInfosSound(objects: seq<ObjectRecord>, status: int)
      ensures forall f :: f in FileInfos(objects, status) ==>
        f.FileRecord? && !EndsWith(f.path, ConsoleMarker) && MetadataAt(f.path, status).Some? &&
        exists o :: o in objects && f.path == LTrim(o.key, '/')
    {
      if objects != [] {
        var init := objects[..|objects| - 1];
        var o := objects[|objects| - 1];
        FileInfosSound(init, status);
        assert forall x :: x in init ==> x in objects;
        LTrimEndsWith(o.key, '/', ConsoleMarker);
      }
    }

    /** Every object that is no console placeholder and whose metadata is found gets a file entry. */
    lemma FileInfosComplete(objects: seq<ObjectRecord>, status: int)
      ensures forall o :: o in objects && !EndsWith(o.key, ConsoleMarker) && MetadataAt(LTrim(o.key, '/'), status).Some? ==>
        exists f :: f in FileInfos(objects, status) && f.path == LTrim(o.key, '/')
    {
      forall o | o in objects && !EndsWith(o.key, ConsoleMarker) && MetadataAt(LTrim(o.key, '/'), status).Some?
        ensures exists f :: f in FileInfos(objects, status) && f.path == LTrim(o.key, '/')
      {
        var i :| 0 <= i < |objects| && objects[i] == o;
        FileInfosHas(objects, status, i);
      }
    }

    lemma {:induction false} FileInfosHas(objects: seq<ObjectRecord>, status: int, i: nat)
      requires i < |objects|
      requires !EndsWith(objects[i].key, ConsoleMarker) && MetadataAt(LTrim(objects[i].key, '/'), status).Some?
      ensures exists f :: f in FileInfos(objects, status) && f.path == LTrim(objects[i].key, '/')
      decreases |objects|
    {
      var init := objects[..|objects| - 1];
      var before := FileInfos(init, status);
      var infos := FileInfos(objects, status);
      var added := FileEntry(objects[|objects| - 1], status);
      assert infos == before + added;
      if i == |objects| - 1 {
        assert added[0] in infos;
      } else {
        assert init[i] == objects[i];
        FileInfosHas(init, status, i);
        var f :| f in before && f.path == LTrim(objects[i].key, '/');
        assert f in infos;
      }
    }

    /** `listContents` lists every file entry before every directory entry, and the directory entries
        are exactly the common prefixes, in order. */
    lemma ContentsOrder(l: DirListing, status: int)
      ensures var c := Contents(l, status);
        var n := |FileInfos(l.objects, status)|;
        (forall i :: 0 <= i < n ==> c[i].FileRecord?) &&
        c[n..] == DirRecords(l.prefixes)
    {
      var files := FileInfos(l.objects, status);
      FileInfosSound(l.objects, status);
      forall i | 0 <= i < |files| ensures Contents(l, status)[i].FileRecord? {
        assert files[i] in files;
      }
    }

    /** `listContents`: `listDirObjects` of the directory with a trailing `/`, then its objects as file
        entries and its prefixes as directory entries. */
    method ListContents(directory: string, recursive: bool, status: int) returns (r: Option<seq<FileInfo>>)
      requires store.Valid()
      ensures r == if store.Accepts(bucket, status)
        then Some(Contents(ObsList(store.entries, Slashed(directory), recursive), status)) else None
    {
      var result := ListDirObjects(Slashed(directory), recursive, status);
      if result.None? {
        return None;
      }
      var files := FileEntries(result.value.objects, status);
      var list := DirEntries(files, result.value.prefixes);
      r := Some(list);
    }

    /** The first loop of `listContents`. */
    method FileEntries(objects: seq<ObjectRecord>, status: int) returns (list: seq<FileInfo>)
      ensures list == FileInfos(objects, status)
    {
      list := [];
      for i := 0 to |objects|
        invariant list == FileInfos(objects[..i], status)
      {
        var entry := FileEntryOf(objects[i], status);
        FileInfosStep(objects, i, status);
        list := list + entry;
      }
      assert objects[..|objects|] == objects;
    }

    /** The body of that loop: nothing for a console folder marker or an object without metadata,
        otherwise one file entry. */
    method FileEntryOf(o: ObjectRecord, status: int) returns (entry: seq<FileInfo>)
      ensures entry == FileEntry(o, status)
    {
      entry := [];
      if !EndsWith(o.key, ConsoleMarker) {
        var path := LTrim(o.key, '/');
        var m := GetMetadata(path, status);
        if m.Some? {
          entry := [FileRecord(path, m.value.lastModified, m.value.size, m.value.contentType, m.value.etag)];
        }
      }
    }

    /** `FileInfos` of one more object: the earlier entries, then that object's. */
    lemma FileInfosStep(objects: seq<ObjectRecord>, i: nat, status: int)
      requires i < |objects|
      ensures FileInfos(objects[..i + 1], status) == FileInfos(objects[..i], status) + FileEntry(objects[i], status)
    {
      assert objects[..i + 1][..i] == objects[..i];
    }

    /** The second loop of `listContents`: one directory entry per prefix, after the files. */
    method DirEntries(files: seq<FileInfo>, prefixes: seq<string>) returns (list: seq<FileInfo>)
      ensures list == files + DirRecords(prefixes)
    {
      list := files;
      for j := 0 to |prefixes|
        invariant list == files + DirRecords(prefixes[..j])
      {
        list := list + [DirRecord(prefixes[j])];
      }
      assert prefixes[..|prefixes|] == prefixes;
    }

    /** The paths whose delete the provider takes, in order, when the `i`-th delete is answered with
        `statuses(i)`. */
    function DeletedPaths(paths: seq<string>, statuses: nat -> int): (gone: seq<string>)
      ensures forall p :: p in gone <==>
        exists i :: 0 <= i < |paths| && paths[i] == p && store.Accepts(bucket, statuses(i))
    {
      if paths == [] then []
      else
        var n := |paths| - 1;
        var earlier := DeletedPaths(paths[..n], statuses);
        assert forall i :: 0 <= i < n ==> paths[..n][i] == paths[i];
        if store.Accepts(bucket, statuses(n)) then earlier + [paths[n]] else earlier
    }

    /** The loop of `deleteDir`: one delete per path, the `i`-th answered with `statuses(i)`; each
        delete the provider takes removes its object, and the answers are not looked at. */
    method DeleteAll(paths: seq<string>, statuses: nat -> int)
      requires store.Valid()
      modifies store
      ensures store.Valid()
      ensures store.entries == RemoveAll(old(store.entries), DeletedPaths(paths, statuses))
    {
      ghost var es := store.entries;
      for i := 0 to |paths|
        invariant store.Valid()
        invariant store.entries == RemoveAll(es, DeletedPaths(paths[..i], statuses))
      {
        var _ := Delete(paths[i], statuses(i));
        assert paths[..i + 1][..i] == paths[..i];
        if store.Accepts(bucket, statuses(i)) {
          RemoveAllSnoc(es, DeletedPaths(paths[..i], statuses), paths[i]);
        }
      }
      assert paths[..|paths|] == paths;
    }

    /** `deleteDir`: a delete for everything the recursive `listContents` of the directory names, file
        and directory entries alike, the `i`-th answered with `deleteStatus(i)`. The deletes' answers
        are ignored: the answer is whether `has(dirname)` is then false. */
    method DeleteDir(dirname: string, listStatus: int, deleteStatus: nat -> int, hasStatus: int)
      returns (r: Option<bool>)
      requires store.Valid()
      modifies store
      ensures store.Valid()
      ensures r.Some? <==> store.Accepts(bucket, listStatus)
      ensures r.None? ==> store.entries == old(store.entries)
      ensures r.Some? ==>
        var gone := DeletedPaths(Paths(old(Contents(ObsList(store.entries, Slashed(dirname), true), listStatus))), deleteStatus);
        store.entries == RemoveAll(old(store.entries), gone) &&
        forall k :: store.Lookup(k) == if k in gone then None else old(store.Lookup(k))
      ensures r.Some? ==> (r.value <==> !(store.Accepts(bucket, hasStatus) && hasStatus == 200 &&
                                          store.Lookup(applyPathPrefix(dirname)).Some?))
    {
      var files := ListContents(dirname, true, listStatus);
      if files.None? {
        return None;
      }
      ghost var es := store.entries;
      var paths := Paths(files.value);
      DeleteAll(paths, deleteStatus);
      ghost var gone := DeletedPaths(paths, deleteStatus);
      forall k ensures store.Lookup(k) == if k in gone then None else Find(es, k) {
        RemoveAllFind(es, gone, k);
      }
      var present := Has(dirname, hasStatus);
      r := Some(!present);
    }

    /** `listDirObjects`: list calls following `NextMarker` until it is empty, gathering as written. */
    method ListDirObjects(directory: string, recursive: bool, status: int) returns (r: Option<DirListing>)
      requires store.Valid()
      ensures r == if store.Accepts(bucket, status) then Some(ObsList(store.entries, directory, recursive)) else None
      decreases Depth(store.entries, directory), 1
    {
      var es := store.entries;
      var nextMarker := "";
      var objects: seq<ObjectRecord> := [];
      var prefixes: seq<string> := [];
      while true
        invariant es == store.entries
        invariant forall p :: p in prefixes ==> Deeper(es, directory, p)
        invariant ObsPages(es, directory, recursive, nextMarker, DirListing(objects, prefixes)) == ObsList(es, directory, recursive)
        decreases |Remaining(es, ObsRequest(directory, nextMarker))|
      {
        var req := ObsRequest(directory, nextMarker);
        var page := store.ListObjectsPage(bucket, req, status);
        if page.None? {
          return None;
        }
        PageGroupsDeeper(es, req);
        var gathered := GatherPage(directory, DirListing(objects, prefixes), page.value);
        objects, prefixes := gathered.objects, gathered.prefixes;
        if recursive {
          objects := DescendAll(objects, directory, prefixes, status);
        }
        if page.value.nextMarker == "" {
          break;
        }
        Progress(es, req);
        nextMarker := page.value.nextMarker;
      }
      r := Some(DirListing(objects, prefixes));
    }

    /** `listDirObjects` corrected: pages followed to the end, everything kept, then each common
        prefix descended into once. */
    method ListDirObjectsFixed(directory: string, recursive: bool, status: int) returns (r: Option<DirListing>)
      requires store.Valid()
      ensures r == if store.Accepts(bucket, status) then Some(ObsListFixed(store.entries, directory, recursive)) else None
      ensures r.Some? ==> var ks := Keys(r.value.objects);
        (forall k :: k in ks <==>
          (store.Lookup(k).Some? && StartsWith(k, directory) && (recursive || '/' !in k[|directory|..]))) &&
        Distinct(ks)
      decreases Depth(store.entries, directory), 1
    {
      var es := store.entries;
      var pages := ListPagesFixed(directory, status);
      if pages.None? {
        return None;
      }
      var objects := pages.value.objects;
      if recursive {
        ListedGroupsDeeper(es, ObsRequest(directory, ""));
        objects := DescendAllFixed(objects, directory, pages.value.prefixes, status);
      }
      r := Some(DirListing(objects, pages.value.prefixes));
      ObsListFixedKeys(es, directory, recursive);
    }

    /** The paging loop of the corrected `listDirObjects`: every page's objects and common prefixes
        kept, up to the page without a next marker. */
    method ListPagesFixed(directory: string, status: int) returns (r: Option<DirListing>)
      requires store.Valid()
      ensures r == if store.Accepts(bucket, status) then Some(ObsListFixed(store.entries, directory, false)) else None
    {
      var es := store.entries;
      var first := ObsRequest(directory, "");
      var nextMarker := "";
      var objects: seq<ObjectRecord> := [];
      var prefixes: seq<string> := [];
      ghost var seen: seq<Entry> := [];
      while true
        invariant es == store.entries
        invariant objects == Records(directory, seen)
        invariant seen + ListedLeaves(es, ObsRequest(directory, nextMarker)) == ListedLeaves(es, first)
        invariant prefixes + ListedGroups(es, ObsRequest(directory, nextMarker)) == ListedGroups(es, first)
        decreases |Remaining(es, ObsRequest(directory, nextMarker))|
      {
        var req := ObsRequest(directory, nextMarker);
        var page := store.ListObjectsPage(bucket, req, status);
        if page.None? {
          return None;
        }
        var contents := page.value.contents;
        Accumulate(es, first, req, seen, prefixes);
        RecordsAppend(directory, seen, contents);
        objects := objects + Records(directory, contents);
        prefixes := prefixes + page.value.commonPrefixes;
        seen := seen + contents;
        if page.value.nextMarker == "" {
          break;
        }
        assert req.(marker := page.value.nextMarker) == ObsRequest(directory, page.value.nextMarker);
        nextMarker := page.value.nextMarker;
      }
      r := Some(DirListing(objects, prefixes));
    }

    method DescendAllFixed(objects: seq<ObjectRecord>, directory: string, prefixes: seq<string>, status: int)
      returns (merged: seq<ObjectRecord>)
      requires store.Valid() && store.Accepts(bucket, status)
      requires forall p :: p in prefixes ==> Deeper(store.entries, directory, p)
      ensures merged == objects + SubObjectsFixed(store.entries, directory, prefixes)
      decreases Depth(store.entries, directory), 0
    {
      var es := store.entries;
      merged := objects;
      for i := 0 to |prefixes|
        invariant forall p :: p in prefixes[..i] ==> Deeper(es, directory, p)
        invariant merged == objects + SubObjectsFixed(es, directory, prefixes[..i])
      {
        assert prefixes[i] in prefixes;
        DeeperDepth(es, directory, prefixes[i]);
        var next := ListDirObjectsFixed(prefixes[i], true, status);
        SubObjectsFixedStep(es, directory, prefixes, i);
        AppendAssoc(objects, SubObjectsFixed(es, directory, prefixes[..i]), next.value.objects);
        merged := merged + next.value.objects;
      }
      assert prefixes[..|prefixes|] == prefixes;
    }

    /** The recursive step of `listDirObjects`: the objects of every prefix's own recursive listing
        appended, prefix by prefix. */
    method DescendAll(objects: seq<ObjectRecord>, directory: string, prefixes: seq<string>, status: int)
      returns (merged: seq<ObjectRecord>)
      requires store.Valid() && store.Accepts(bucket, status)
      requires forall p :: p in prefixes ==> Deeper(store.entries, directory, p)
      ensures merged == objects + SubObjects(store.entries, directory, prefixes)
      decreases Depth(store.entries, directory), 0
    {
      merged := objects;
      for i := 0 to |prefixes|
        invariant merged == objects + SubObjects(store.entries, directory, prefixes[..i])
      {
        assert prefixes[i] in prefixes;
        DeeperDepth(store.entries, directory, prefixes[i]);
        var next := ListDirObjects(prefixes[i], true, status);
        SubObjectsStep(store.entries, directory, prefixes, i);
        AppendAssoc(objects, SubObjects(store.entries, directory, prefixes[..i]), next.value.objects);
        merged := merged + next.value.objects;
      }
      assert prefixes[..|prefixes|] == prefixes;
    }
  }

  /** The two `foreach` loops of one iteration of `listDirObjects`: the page's objects appended as
      records, its prefixes appended; either list reset when the page has none. */
  method GatherPage(directory: string, acc: DirListing, page: Page) returns (r: DirListing)
    ensures r == Gather(directory, acc, page)
  {
    var objects := acc.objects;
    var prefixes := acc.prefixes;
    if page.contents != [] {
      for i := 0 to |page.contents|
        invariant objects == acc.objects + Records(directory, page.contents[..i])
      {
        assert page.contents[..i + 1][..i] == page.contents[..i];
        objects := objects + [Record(directory, page.contents[i])];
      }
      assert page.contents[..|page.contents|] == page.contents;
    } else {
      objects := [];
    }
    if page.commonPrefixes != [] {
      for i := 0 to |page.commonPrefixes|
        invariant prefixes == acc.prefixes + page.commonPrefixes[..i]
      {
        assert page.commonPrefixes[..i + 1] == page.commonPrefixes[..i] + [page.commonPrefixes[i]];
        prefixes := prefixes + [page.commonPrefixes[i]];
      }
      assert page.commonPrefixes[..|page.commonPrefixes|] == page.commonPrefixes;
    } else {
      prefixes := [];
    }
    r := DirListing(objects, prefixes);
  }
}
