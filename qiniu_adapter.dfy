/** The Qiniu Kodo adapter: the filesystem operations over one Qiniu bucket, through the upload
    manager (insert-only uploads) and the bucket manager (stat, copy, move, delete, list). */
module QiniuAdapter {
  import opened Wrappers
  import opened Text
  import opened Bucket
  import opened Listing
  import opened UrlCodec
  import opened Store

  /** The MIME type of an upload whose configuration names none. */
  const DefaultMime := "application/octet-stream"

  /** How many bytes `writeStream` reads from its stream at a time. */
  const ChunkSize: nat := 1024

  /** Qiniu's `putTime` counts units of 100 nanoseconds: this many make a second. */
  const PutTimeUnits: nat := 10000000

  /** What a stat call or a listed item gives for an object, as the PHP array the adapter reads; an
      index the array lacks reads as `null`. */
  datatype Stats = Stats(
    key: string, putTime: Option<nat>, fsize: Option<nat>, mimeType: Option<string>,
    md5: Option<string>, hash: Option<string>)

  /** The file and directory records the adapter returns. */
  datatype Info =
    | FileInfo(path: string, timestamp: nat, size: Option<nat>, mimetype: Option<string>,
               md5: Option<string>, hash: Option<string>)
    | DirInfo(path: string)

  /** The upload's answer: the hash and key of the object now stored. */
  datatype UploadResponse = UploadResponse(hash: string, key: string)

  /** The stats the provider reports for the object `o` under `key`. */
  function StatsOf(key: string, o: StoredObject): Stats {
    Stats(key, Some(o.stamp.putTime), Some(|o.body|), Some(o.contentType), Some(o.stamp.md5), Some(o.stamp.etag))
  }

  /** What `getMetadata` holds after a failed stat: `$result[0]['key'] = $path` turns the missing
      answer into an array with the key alone. */
  function KeyOnly(key: string): Stats {
    Stats(key, None, None, None, None, None)
  }

  /** `normalizeFileInfo`: always a file; the timestamp is the upload time in whole seconds, rounded
      down (a missing time counts as 0); size, type, MD5 and hash are copied as they are. */
  function NormalizeFileInfo(s: Stats): (r: Info)
    ensures r.FileInfo? && r.path == s.key
    ensures r.timestamp * PutTimeUnits <= s.putTime.GetOr(0) < (r.timestamp + 1) * PutTimeUnits
    ensures r.size == s.fsize && r.mimetype == s.mimeType && r.md5 == s.md5 && r.hash == s.hash
  {
    FileInfo(s.key, s.putTime.GetOr(0) / PutTimeUnits, s.fsize, s.mimeType, s.md5, s.hash)
  }

  /** The record of one listed object. */
  function ItemInfo(e: Entry): (r: Info)
    ensures r.FileInfo? && r.path == e.key
  {
    NormalizeFileInfo(StatsOf(e.key, e.obj))
  }

  /** `listFiles($bucket, $directory)`: the prefix as given, no delimiter, at most 1000 keys. */
  function QiniuRequest(directory: string, marker: string): (req: ListRequest)
    ensures req.prefix == directory && req.delimiter == "" && req.marker == marker && req.maxKeys == 1000
  {
    ListRequest(directory, "", marker, MaxKeys)
  }

  /** An insert-only upload of `body` is accepted over what is stored: nothing, or the same body. */
  predicate Uploadable(existing: Option<StoredObject>, body: string) {
    existing.None? || existing.value.body == body
  }

  function PathsOf(infos: seq<Info>): (ps: seq<string>)
    ensures |ps| == |infos| && forall i :: 0 <= i < |infos| ==> ps[i] == infos[i].path
  {
    seq(|infos|, i requires 0 <= i < |infos| => infos[i].path)
  }

  /** The records of the objects under `directory` carry exactly the keys that begin with it. */
  lemma UnderPaths(es: seq<Entry>, directory: string)
    ensures forall k :: k in PathsOf(MapSeq(ItemInfo, Under(es, directory))) <==>
      Find(es, k).Some? && StartsWith(k, directory)
  {
    forall k ensures k in PathsOf(MapSeq(ItemInfo, Under(es, directory))) <==>
      Find(es, k).Some? && StartsWith(k, directory)
    {
      if k in PathsOf(MapSeq(ItemInfo, Under(es, directory))) {
        UnderPathListed(es, directory, k);
      }
      if Find(es, k).Some? && StartsWith(k, directory) {
        ListedUnderPath(es, directory, k);
      }
    }
  }

  lemma UnderPathListed(es: seq<Entry>, directory: string, k: string)
    requires k in PathsOf(MapSeq(ItemInfo, Under(es, directory)))
    ensures Find(es, k).Some? && StartsWith(k, directory)
  {
    var under := Under(es, directory);
    var ps := PathsOf(MapSeq(ItemInfo, under));
    var i :| 0 <= i < |ps| && ps[i] == k;
    assert under[i] in under;
  }

  lemma ListedUnderPath(es: seq<Entry>, directory: string, k: string)
    requires Find(es, k).Some? && StartsWith(k, directory)
    ensures k in PathsOf(MapSeq(ItemInfo, Under(es, directory)))
  {
    var i :| 0 <= i < |es| && es[i].key == k;
    var under := Under(es, directory);
    InUnder(es, directory, es[i]);
    var j :| 0 <= j < |under| && under[j] == es[i];
    PathAt(under, j);
  }

  /** The record made of the `j`-th entry carries its key. */
  lemma PathAt(es: seq<Entry>, j: nat)
    requires j < |es|
    ensures es[j].key in PathsOf(MapSeq(ItemInfo, es))
  {
    var ps := PathsOf(MapSeq(ItemInfo, es));
    assert ps[j] == es[j].key;
  }

  lemma InUnder(es: seq<Entry>, prefix: string, x: Entry)
    requires x in es && StartsWith(x.key, prefix)
    ensures x in Under(es, prefix)
  {
  }

  /** As written, a directory with more than 1000 objects is listed only in part: the first page
      holds 1000 of them and the object after those is missing. */
  lemma FirstPageOnly(es: seq<Entry>, directory: string)
    requires Wellformed(es) && |Under(es, directory)| > MaxKeys
    ensures var under := Under(es, directory);
      |Take(under, MaxKeys)| == MaxKeys < |under| &&
      under[MaxKeys].key !in PathsOf(MapSeq(ItemInfo, Take(under, MaxKeys)))
  {
    var under := Under(es, directory);
    UnderSorted(es, directory);
    var ps := PathsOf(MapSeq(ItemInfo, Take(under, MaxKeys)));
    if under[MaxKeys].key in ps {
      var i :| 0 <= i < |ps| && ps[i] == under[MaxKeys].key;
      assert under[i].key == under[MaxKeys].key;
      BelowIrreflexive(under[i].key);
    }
  }

  /** An open stream: its bytes and the position `fread` has reached. */
  class Stream {
    const data: string
    var position: nat

    predicate Valid()
      reads this
    {
      position <= |data|
    }

    constructor (data: string)
      ensures this.data == data && position == 0 && Valid()
    {
      this.data := data;
      position := 0;
    }

    /** `feof`: every byte has been read. */
    predicate Eof()
      reads this
    {
      position >= |data|
    }

    /** `fread($stream, n)`: the next `n` bytes, fewer at the end of the data. */
    method Read(n: nat) returns (chunk: string)
      requires Valid()
      modifies this
      ensures Valid()
      ensures position == if old(position) + n <= |data| then old(position) + n else |data|
      ensures chunk == data[old(position)..position]
    {
      var end := if position + n <= |data| then position + n else |data|;
      chunk := data[position..end];
      position := end;
    }
  }

  class Adapter {
    const store: ObjectStore
    /** The bucket every call names. */
    const bucket: string
    /** The public domain of `getUrl`. */
    const domain: string

    /** The adapter with its bucket and domain from the configuration; the access and secret keys
        only sign requests. */
    constructor (store: ObjectStore, bucket: string, domain: string)
      ensures this.store == store && this.bucket == bucket && this.domain == domain
    {
      this.store := store;
      this.bucket := bucket;
      this.domain := domain;
    }

    /** The bucket a call names. */
    function Named(): Option<string>
      reads this
    {
      Some(bucket)
    }

    /** `write`: an insert-only upload of `contents` under `path`, typed `mime` or
        "application/octet-stream"; `false` when the provider reports an error, which includes a
        different body already stored under `path`. */
    method Write(path: string, contents: string, mime: Option<string>, stamp: Stamp, status: int)
      returns (r: Option<UploadResponse>)
      requires store.Valid()
      modifies store
      ensures store.Valid()
      ensures r.Some? <==> store.Accepts(Named(), status) && path != "" && Uploadable(old(store.Lookup(path)), contents)
      ensures forall k :: (store.Lookup(k) ==
        if r.Some? && k == path && old(store.Lookup(path)).None?
        then Some(StoredObject(contents, mime.GetOr(DefaultMime), OwnerOnly, stamp))
        else old(store.Lookup(k)))
      ensures r.Some? ==> (store.Lookup(path).Some? && store.Lookup(path).value.body == contents &&
        r.value == UploadResponse(store.Lookup(path).value.stamp.etag, path))
    {
      ghost var es := store.entries;
      var o := StoredObject(contents, mime.GetOr(DefaultMime), OwnerOnly, stamp);
      var ok := store.InsertObject(Named(), path, contents, mime.GetOr(DefaultMime), stamp, status);
      forall k ensures store.Lookup(k) == if ok && k == path && Find(es, path).None? then Some(o) else Find(es, k) {
        if ok && Find(es, path).None? {
          PutFind(es, Entry(path, o), k);
        }
      }
      if ok {
        var stored := store.Lookup(path);
        r := Some(UploadResponse(stored.value.stamp.etag, path));
      } else {
        r := None;
      }
    }

    /** `writeStream`: the stream read to its end in chunks of 1024 bytes, the chunks joined and
        written; `{path}` on success. */
    method WriteStream(path: string, stream: Stream, mime: Option<string>, stamp: Stamp, status: int)
      returns (r: Option<string>)
      requires store.Valid() && stream.Valid()
      modifies store, stream
      ensures store.Valid() && stream.Valid() && stream.Eof()
      ensures r.Some? <==> (store.Accepts(Named(), status) && path != "" &&
        Uploadable(old(store.Lookup(path)), stream.data[old(stream.position)..]))
      ensures r.Some? ==> r.value == path
      ensures forall k :: (store.Lookup(k) ==
        if r.Some? && k == path && old(store.Lookup(path)).None?
        then Some(StoredObject(stream.data[old(stream.position)..], mime.GetOr(DefaultMime), OwnerOnly, stamp))
        else old(store.Lookup(k)))
    {
      ghost var start := stream.position;
      var contents := "";
      while !stream.Eof()
        invariant stream.Valid() && start <= stream.position
        invariant unchanged(store)
        invariant contents == stream.data[start..stream.position]
        decreases |stream.data| - stream.position
      {
        ghost var before := stream.position;
        var chunk := stream.Read(ChunkSize);
        assert stream.data[start..stream.position] == stream.data[start..before] + chunk;
        contents := contents + chunk;
      }
      assert contents == stream.data[start..];
      var response := Write(path, contents, mime, stamp, status);
      r := if response.Some? then Some(path) else None;
    }

    /** `update`: the object under `path` deleted, the delete's answer ignored, then `contents` written.
        When the delete gets through, `update` replaces whatever was stored; when it does not, the
        insert-only write meets the old object and is refused unless the body is the same, and the
        old object stays. */
    method Update(path: string, contents: string, mime: Option<string>, stamp: Stamp,
        deleteStatus: int, writeStatus: int)
      returns (r: Option<UploadResponse>)
      requires store.Valid()
      modifies store
      ensures store.Valid()
      ensures var cleared := if store.Accepts(Named(), deleteStatus) then None else old(store.Lookup(path));
        (r.Some? <==> store.Accepts(Named(), writeStatus) && path != "" && Uploadable(cleared, contents)) &&
        forall k :: (store.Lookup(k) ==
          if k != path then old(store.Lookup(k))
          else if r.Some? && cleared.None? then Some(StoredObject(contents, mime.GetOr(DefaultMime), OwnerOnly, stamp))
          else cleared)
      ensures store.Accepts(Named(), deleteStatus) ==>
        (r.Some? <==> store.Accepts(Named(), writeStatus) && path != "") &&
        (r.Some? ==> store.Lookup(path) == Some(StoredObject(contents, mime.GetOr(DefaultMime), OwnerOnly, stamp)))
      ensures !store.Accepts(Named(), deleteStatus) && old(store.Lookup(path)).Some? &&
              old(store.Lookup(path)).value.body != contents ==>
        r.None? && store.Lookup(path) == old(store.Lookup(path))
    {
      ghost var es := store.entries;
      var _ := Delete(path, deleteStatus);
      r := Write(path, contents, mime, stamp, writeStatus);
      if store.Accepts(Named(), deleteStatus) && path == "" {
        assert Find(es, "").None?;
      }
    }

    /** `updateStream`: the object under `path` deleted, the delete's answer ignored, then the stream
        written, with the same outcomes as `update`. */
    method UpdateStream(path: string, stream: Stream, mime: Option<string>, stamp: Stamp,
        deleteStatus: int, writeStatus: int)
      returns (r: Option<string>)
      requires store.Valid() && stream.Valid()
      modifies store, stream
      ensures store.Valid() && stream.Valid() && stream.Eof()
      ensures r.Some? ==> r.value == path
      ensures var cleared := if store.Accepts(Named(), deleteStatus) then None else old(store.Lookup(path));
        var data := stream.data[old(stream.position)..];
        (r.Some? <==> store.Accepts(Named(), writeStatus) && path != "" && Uploadable(cleared, data)) &&
        forall k :: (store.Lookup(k) ==
          if k != path then old(store.Lookup(k))
          else if r.Some? && cleared.None? then Some(StoredObject(data, mime.GetOr(DefaultMime), OwnerOnly, stamp))
          else cleared)
      ensures store.Accepts(Named(), deleteStatus) ==>
        (r.Some? <==> store.Accepts(Named(), writeStatus) && path != "") &&
        (r.Some? ==>
          store.Lookup(path) == Some(StoredObject(stream.data[old(stream.position)..], mime.GetOr(DefaultMime), OwnerOnly, stamp)))
      ensures !store.Accepts(Named(), deleteStatus) && old(store.Lookup(path)).Some? &&
              old(store.Lookup(path)).value.body != stream.data[old(stream.position)..] ==>
        r.None? && store.Lookup(path) == old(store.Lookup(path))
    {
      ghost var es := store.entries;
      var _ := Delete(path, deleteStatus);
      r := WriteStream(path, stream, mime, stamp, writeStatus);
      if store.Accepts(Named(), deleteStatus) && path == "" {
        assert Find(es, "").None?;
      }
    }

    /** `rename`: a move that does not overwrite; true exactly when the provider carries it out. */
    method Rename(path: string, newPath: string, status: int) returns (ok: bool)
      requires store.Valid()
      modifies store
      ensures store.Valid()
      ensures ok <==> (store.Accepts(Named(), status) && newPath != "" &&
        old(store.Lookup(path)).Some? && old(store.Lookup(newPath)).None?)
      ensures forall k :: (store.Lookup(k) ==
        if ok && k == newPath then old(store.Lookup(path))
        else if ok && k == path then None
        else old(store.Lookup(k)))
    {
      ghost var es := store.entries;
      ok := store.MoveFile(Named(), path, newPath, status);
      if ok {
        var e := Entry(newPath, Find(es, path).value);
        forall k ensures store.Lookup(k) == if k == newPath then Find(es, path) else if k == path then None else Find(es, k) {
          PutFind(es, e, k);
          RemoveFind(Put(es, e), path, k);
        }
      }
    }

    /** `copy`: a copy that does not overwrite; true exactly when the provider carries it out. */
    method Copy(path: string, newPath: string, status: int) returns (ok: bool)
      requires store.Valid()
      modifies store
      ensures store.Valid()
      ensures ok <==> (store.Accepts(Named(), status) && newPath != "" &&
        old(store.Lookup(path)).Some? && old(store.Lookup(newPath)).None?)
      ensures forall k :: (store.Lookup(k) ==
        if ok && k == newPath then old(store.Lookup(path)) else old(store.Lookup(k)))
    {
      ghost var es := store.entries;
      ok := store.CopyFile(Named(), path, newPath, status);
      if ok {
        forall k ensures store.Lookup(k) == if k == newPath then Find(es, path) else Find(es, k) {
          PutFind(es, Entry(newPath, Find(es, path).value), k);
        }
      }
    }

    /** `delete`: true exactly when there was an object under `path` and the provider removed it. */
    method Delete(path: string, status: int) returns (ok: bool)
      requires store.Valid()
      modifies store
      ensures store.Valid()
      ensures ok <==> store.Accepts(Named(), status) && old(store.Lookup(path)).Some?
      ensures forall k :: (store.Lookup(k) == if ok && k == path then None else old(store.Lookup(k)))
    {
      ghost var es := store.entries;
      ok := store.DeleteFile(Named(), path, status);
      forall k ensures store.Lookup(k) == if ok && k == path then None else Find(es, k) {
        if ok {
          RemoveFind(es, path, k);
        }
      }
    }

    /** `deleteDir`: reports success without asking the provider for anything. */
    function DeleteDir(directory: string): (ok: bool)
      ensures ok
    {
      true
    }

    /** `createDir`: a directory record for `directory`, without asking the provider for anything. */
    function CreateDir(directory: string): (r: Info)
      ensures r.DirInfo? && r.path == directory
    {
      DirInfo(directory)
    }

    /** `has`: whether a stat of `path` succeeds. */
    method Has(path: string, status: int) returns (b: bool)
      ensures b <==> store.Accepts(Named(), status) && store.Lookup(path).Some?
    {
      var stat := store.HeadObject(Named(), path, status);
      b := stat.Some?;
    }

    /** `getMetadata` as written: a successful stat normalised; after a failed one, a file record for
        `path` with timestamp 0 and nothing else, never `false`. */
    method GetMetadata(path: string, status: int) returns (r: Info)
      ensures r.FileInfo? && r.path == path
      ensures r.size.Some? <==> store.Accepts(Named(), status) && store.Lookup(path).Some?
      ensures r.size.Some? ==> var o := store.Lookup(path).value;
        r == FileInfo(path, o.stamp.putTime / PutTimeUnits, Some(|o.body|), Some(o.contentType), Some(o.stamp.md5), Some(o.stamp.etag))
      ensures r.size.None? ==> r == FileInfo(path, 0, None, None, None, None)
    {
      var stat := store.HeadObject(Named(), path, status);
      var stats := if stat.Some? then StatsOf(path, stat.value) else KeyOnly(path);
      r := NormalizeFileInfo(stats);
    }

    /** `getMetadata` corrected: `false` (here `None`) when the stat fails. */
    method GetMetadataFixed(path: string, status: int) returns (r: Option<Info>)
      ensures r.Some? <==> store.Accepts(Named(), status) && store.Lookup(path).Some?
      ensures r.Some? ==> var o := store.Lookup(path).value;
        r.value == FileInfo(path, o.stamp.putTime / PutTimeUnits, Some(|o.body|), Some(o.contentType), Some(o.stamp.md5), Some(o.stamp.etag))
    {
      var stat := store.HeadObject(Named(), path, status);
      r := if stat.Some? then Some(NormalizeFileInfo(StatsOf(path, stat.value))) else None;
    }

    /** `getSize`: the metadata record. */
    method GetSize(path: string, status: int) returns (r: Info)
      ensures r.FileInfo? && r.path == path
      ensures r.size == if store.Accepts(Named(), status) && store.Lookup(path).Some?
        then Some(|store.Lookup(path).value.body|) else None
    {
      r := GetMetadata(path, status);
    }

    /** `getTimestamp`: the metadata record; the timestamp is the upload time in whole seconds, 0 when
        the stat fails. */
    method GetTimestamp(path: string, status: int) returns (r: Info)
      ensures r.FileInfo? && r.path == path
      ensures r.timestamp == if store.Accepts(Named(), status) && store.Lookup(path).Some?
        then store.Lookup(path).value.stamp.putTime / PutTimeUnits else 0
    {
      r := GetMetadata(path, status);
    }

    /** `getMimeType`: the stat's type, `false` when the stat fails or the type is empty ("" or "0"). */
    method GetMimeType(path: string, status: int) returns (r: Option<string>)
      ensures r.Some? <==> (store.Accepts(Named(), status) && store.Lookup(path).Some? &&
        !Empty(store.Lookup(path).value.contentType))
      ensures r.Some? ==> r.value == store.Lookup(path).value.contentType
    {
      var stat := store.HeadObject(Named(), path, status);
      r := if stat.Some? && !Empty(stat.value.contentType) then Some(stat.value.contentType) else None;
    }

    /** `getUrl`: the normalised domain, then the path (every "\" made "/") split on "/", each segment
        raw-encoded, joined with "/" and stripped of leading "/", then "?query" when the query is not
        empty. Read back, the URL gives the path without leading slashes and the query. */
    function GetUrl(path: string): (url: string)
      requires IsByteString(path)
      ensures var host := NormalizeHost(domain);
        var parts := ParseUrl(path, true);
        '\\' !in parts.path && StartsWith(url, host) &&
        var back := ParseUrl(url[|host|..], false);
        Decode(back.path, Raw) == LTrim(parts.path, '/') && back.query == KeptQuery(parts.query)
    {
      ParseUrlUnparse(path, true);
      PublicUrlRoundTrip(domain, path, Raw, Raw, true);
      PublicUrl(domain, path, Raw, true)
    }

    /** `listContents` as written: one list call under `directory` as given, whatever `recursive` says;
        the records of the first 1000 objects whose key begins with it, none when the call fails. */
    method ListContents(directory: string, recursive: bool, status: int) returns (r: seq<Info>)
      requires store.Valid()
      ensures store.Accepts(Named(), status) ==> r == MapSeq(ItemInfo, Take(Under(store.entries, directory), MaxKeys))
      ensures !store.Accepts(Named(), status) ==> r == []
    {
      var page := store.ListObjectsPage(Named(), QiniuRequest(directory, ""), status);
      var items := if page.Some? then page.value.contents else [];
      r := AppendMapped(ItemInfo, [], items);
      FlatListing(store.entries, QiniuRequest(directory, ""));
    }

    /** `listContents` corrected: the list call repeated with each answer's marker until the listing is
        complete, so every object whose key begins with `directory` is listed, once and in key order. */
    method ListContentsFixed(directory: string, recursive: bool, status: int) returns (r: seq<Info>)
      requires store.Valid()
      ensures store.Accepts(Named(), status) ==> r == MapSeq(ItemInfo, Under(store.entries, directory))
      ensures !store.Accepts(Named(), status) ==> r == []
    {
      var es := store.entries;
      var first := QiniuRequest(directory, "");
      var marker := "";
      var list: seq<Info> := [];
      ghost var seen: seq<Entry> := [];
      ghost var groups: seq<string> := [];
      while true
        invariant list == MapSeq(ItemInfo, seen)
        invariant seen + ListedLeaves(es, QiniuRequest(directory, marker)) == ListedLeaves(es, first)
        invariant groups + ListedGroups(es, QiniuRequest(directory, marker)) == ListedGroups(es, first)
        decreases |Remaining(es, QiniuRequest(directory, marker))|
      {
        var req := QiniuRequest(directory, marker);
        var page := store.ListObjectsPage(Named(), req, status);
        if page.None? {
          return [];
        }
        Accumulate(es, first, req, seen, groups);
        TruncatedIffMarker(es, req);
        MapSeqAppend(ItemInfo, seen, page.value.contents);
        list := AppendMapped(ItemInfo, list, page.value.contents);
        seen := seen + page.value.contents;
        groups := groups + page.value.commonPrefixes;
        if page.value.nextMarker == "" {
          break;
        }
        assert req.(marker := page.value.nextMarker) == QiniuRequest(directory, page.value.nextMarker);
        marker := page.value.nextMarker;
      }
      FlatListing(es, first);
      r := list;
    }
  }
}
