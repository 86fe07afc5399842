/** The Tencent Cloud COS adapter: the filesystem operations over one COS bucket. */
module CosAdapter {
  import opened Wrappers
  import opened Text
  import opened Bucket
  import opened Listing
  import opened UrlCodec
  import opened Store
  import opened Visibility

  /** The marker the URI of the COS everyone-group grantee carries. */
  const AllUsers := "global/AllUsers"

  /** The server-side encryption an encrypting adapter asks for. */
  const Aes256 := "AES256"

  /** The upload parameter holding the canned ACL. */
  const AclParam := "ACL"

  /** The settings a write is given: extra upload parameters and a visibility, each optional. */
  datatype WriteConfig = WriteConfig(params: Option<map<string, string>>, visibility: Option<string>)

  /** The options `prepareUploadConfig` builds for an upload. */
  datatype UploadOptions = UploadOptions(serverSideEncryption: Option<string>, params: Option<map<string, string>>)

  datatype EntryType = File | Dir

  /** One entry of `listDirObjects`, as `normalizeFileInfo` makes it. */
  datatype FileInfo = FileInfo(
    kind: EntryType, path: string, timestamp: int, size: nat,
    dirname: string, basename: string, filename: string, extension: string)

  /** The result of `getMetadata` (the head request's answer). */
  datatype Metadata = Metadata(contentLength: nat, contentType: string, lastModified: string, etag: string)

  /** `pathinfo` of a key: the directory part (absent for the empty path), the base name, and the base
      name split at its last `.`. */
  datatype PathParts = PathParts(dirname: Option<string>, basename: string, filename: string, extension: Option<string>)

  /** The path and the query `parse_url` finds in the signed URL the SDK makes for an object. */
  datatype SignedUrl = SignedUrl(url: string, path: string, query: string)

  /** `normalizeVisibility`: "public" becomes the public-read ACL, anything else is passed on as it is. */
  function NormalizeVisibility(visibility: string): (acl: string)
    ensures visibility == Public ==> acl == AclPublicRead
    ensures visibility != Public ==> acl == visibility
  {
    if visibility == Public then AclPublicRead else visibility
  }

  /** Both visibilities of the filesystem become ACLs the provider knows, and read back through the
      grant scan as themselves. */
  lemma NormalizeVisibilityRoundTrip(visibility: string, allUsersUri: string)
    requires visibility == Public || visibility == Private
    requires Contains(allUsersUri, AllUsers)
    ensures CannedGrants(NormalizeVisibility(visibility), allUsersUri).Some?
    ensures AnyPublicRead(CannedGrants(NormalizeVisibility(visibility), allUsersUri).value, PermissionRead, AllUsers)
            <==> visibility == Public
  {
    CannedVisibility(NormalizeVisibility(visibility), allUsersUri, AllUsers);
  }

  /** The ACL an upload with `config` carries: the normalised visibility when one is given, otherwise
      the ACL among the parameters, if any. */
  function UploadAcl(config: WriteConfig): Option<string> {
    if config.visibility.Some? then Some(NormalizeVisibility(config.visibility.value))
    else if config.params.Some? && AclParam in config.params.value then Some(config.params.value[AclParam])
    else None
  }

  /** The ACL the upload options carry. */
  function AclOf(options: UploadOptions): Option<string> {
    if options.params.Some? && AclParam in options.params.value then Some(options.params.value[AclParam]) else None
  }

  /** The prefix `listDirObjects` lists: none for the empty directory, the directory and `/` otherwise. */
  function DirPrefix(directory: string): (prefix: string)
    ensures directory == "" ==> prefix == ""
    ensures directory != "" ==> StartsWith(prefix, directory) && |prefix| == |directory| + 1 && EndsWith(prefix, "/")
  {
    if directory == "" then "" else directory + "/"
  }

  /** Every list call of `listDirObjects`: no delimiter when recursive, `/` otherwise, 1000 keys. */
  function CosRequest(prefix: string, recursive: bool, marker: string): (req: ListRequest)
    ensures req.prefix == prefix && req.marker == marker && req.maxKeys == 1000
    ensures req.delimiter == if recursive then "" else "/"
  {
    ListRequest(prefix, if recursive then "" else "/", marker, MaxKeys)
  }

  /** `$response['NextMarker'] ?: ''`: the next marker, or "" when PHP takes it for false. */
  function ContinueMarker(nextMarker: string): (m: string)
    ensures m == "" <==> Empty(nextMarker)
    ensures m != "" ==> m == nextMarker
  {
    if Empty(nextMarker) then "" else nextMarker
  }

  /** The request the loop of `listDirObjects` makes after `req`, as written: the same request with
      the next marker as PHP reads it, when the page is truncated; none when the loop stops. */
  function NextCosRequest(es: seq<Entry>, req: ListRequest): (next: Option<ListRequest>)
    requires req.maxKeys > 0
    ensures next.Some? <==> ListObjects(es, req).isTruncated
    ensures next.Some? ==> next.value == req.(marker := ContinueMarker(ListObjects(es, req).nextMarker))
  {
    var page := ListObjects(es, req);
    if page.isTruncated then Some(req.(marker := ContinueMarker(page.nextMarker))) else None
  }

  /** The request of the loop's `n`-th iteration after `first`, as written; none once it has stopped. */
  function CosRequestAt(es: seq<Entry>, first: ListRequest, n: nat): Option<ListRequest>
    requires first.maxKeys > 0
    decreases n
  {
    if n == 0 then Some(first)
    else
      match NextCosRequest(es, first)
      case None => None
      case Some(req) => CosRequestAt(es, req, n - 1)
  }

  /** As written, a truncated first page whose last key is "0" sends the loop back to its first
      request: PHP reads the marker "0" as false, so every iteration repeats the first list call and
      the loop never stops. */
  lemma ZeroMarkerRestarts(es: seq<Entry>, prefix: string, recursive: bool, n: nat)
    requires ListObjects(es, CosRequest(prefix, recursive, "")).isTruncated
    requires ListObjects(es, CosRequest(prefix, recursive, "")).nextMarker == "0"
    ensures CosRequestAt(es, CosRequest(prefix, recursive, ""), n) == Some(CosRequest(prefix, recursive, ""))
  {
    RequestRepeats(es, CosRequest(prefix, recursive, ""), n);
  }

  /** A request without a marker whose page is truncated at the key "0" is its own successor. */
  lemma {:induction false} RequestRepeats(es: seq<Entry>, first: ListRequest, n: nat)
    requires first.maxKeys > 0 && first.marker == ""
    requires ListObjects(es, first).isTruncated && ListObjects(es, first).nextMarker == "0"
    ensures CosRequestAt(es, first, n) == Some(first)
  {
    if n > 0 {
      assert ContinueMarker("0") == "";
      assert first.(marker := "") == first;
      assert NextCosRequest(es, first) == Some(first);
      RequestRepeats(es, first, n - 1);
    }
  }


  /** `pathinfo`'s `basename`: the text after the last `/` once the trailing slashes are removed; ""
      for a path of slashes only. */
  function BaseName(path: string): (b: string)
    ensures '/' !in b
    ensures var t := RTrim(path, '/');
      EndsWith(t, b) && (|b| == |t| || t[|t| - |b| - 1] == '/')
  {
    var t := RTrim(path, '/');
    match LastIndexOf(t, '/')
    case None => t
    case Some(i) => t[i + 1..]
  }

  /** `pathinfo`'s `dirname`: the trailing slashes, the base name and the slashes before it removed;
      "." when no `/` precedes the base name, "/" when only slashes do; absent for the empty path. */
  function DirName(path: string): (d: Option<string>)
    ensures d.None? <==> path == ""
    ensures d.Some? ==> d.value != "" && (d.value == "/" || !EndsWith(d.value, "/"))
    ensures var t := RTrim(path, '/');
      path != "" && '/' !in t ==> d == Some(if t == "" then "/" else ".")
  {
    if path == "" then None
    else
      var t := RTrim(path, '/');
      match LastIndexOf(t, '/')
      case None => if t == "" then Some("/") else Some(".")
      case Some(i) =>
        var h := RTrim(t[..i], '/');
        DirCut(t, i);
        if h == "" then Some("/") else Some(h)
  }

  /** When a `/` precedes the base name, the directory name is where the path was cut: it begins
      the path, and only slashes stand between it and the base name ("/" standing for none left). */
  lemma DirNameCut(path: string)
    requires '/' in RTrim(path, '/')
    ensures var t, d := RTrim(path, '/'), DirName(path);
      d.Some? && (d.value == "/" ==> LTrim(t, '/') == BaseName(path)) &&
      (d.value != "/" ==>
        StartsWith(t, d.value) && |d.value| < |t| && t[|d.value|] == '/' &&
        LTrim(t[|d.value|..], '/') == BaseName(path))
  {
    var t := RTrim(path, '/');
    match LastIndexOf(t, '/')
    case None =>
    case Some(i) =>
      var h := RTrim(t[..i], '/');
      DirCut(t, i);
      assert BaseName(path) == t[i + 1..];
      if h == "" {
        assert t[|h|..] == t;
      }
  }

  /** Cutting a path without trailing slashes at its last `/`: what `rtrim` leaves of the text before
      it begins the path, and the rest is slashes followed by the base name. */
  lemma DirCut(t: string, i: nat)
    requires i < |t| && t[i] == '/' && '/' !in t[i + 1..] && t[|t| - 1] != '/'
    ensures var h := RTrim(t[..i], '/');
      |h| <= i && StartsWith(t, h) && t[|h|] == '/' && LTrim(t[|h|..], '/') == t[i + 1..] &&
      (h == "" || !EndsWith(h, "/"))
  {
    var h := RTrim(t[..i], '/');
    RTrimSlashes(t, i);
    AfterLastSlash(t, i);
    LTrimFrom(t, '/', |h|, i + 1);
    EndsWithChar(h, '/');
  }

  /** What `rtrim` leaves of the text before a `/` is followed, in the path, by slashes only up to
      and including that `/`. */
  lemma RTrimSlashes(t: string, i: nat)
    requires i < |t| && t[i] == '/'
    ensures var h := RTrim(t[..i], '/');
      |h| <= i && h == t[..|h|] && forall j :: |h| <= j <= i ==> t[j] == '/'
  {
    var n := |RTrim(t[..i], '/')|;
    RTrimDrops(t[..i], '/');
    forall j | n <= j <= i ensures t[j] == '/' {
      if j < i { assert t[..i][j] == t[j]; }
    }
  }

  /** After the last `/` of a path that does not end in `/` comes some other character. */
  lemma AfterLastSlash(t: string, i: nat)
    requires i < |t| && '/' !in t[i + 1..] && t[|t| - 1] != '/' && t[i] == '/'
    ensures i + 1 < |t| && t[i + 1] != '/'
  {
    assert i + 1 != |t|;
    assert t[i + 1] == t[i + 1..][0];
  }

  /** `ltrim` of a suffix that starts with a run of `c` ending at `m`. */
  lemma LTrimFrom(t: string, c: char, n: nat, m: nat)
    requires n <= m <= |t| && (forall j :: n <= j < m ==> t[j] == c) && (m == |t| || t[m] != c)
    ensures LTrim(t[n..], c) == t[m..]
  {
    var s := t[n..];
    forall j | 0 <= j < m - n ensures s[j] == c {
      assert s[j] == t[n + j];
    }
    LTrimRun(s, c, m - n);
    assert s[m - n..] == t[m..];
  }

  /** `ltrim` removes exactly a leading run of `c`. */
  lemma {:induction false} LTrimRun(s: string, c: char, n: nat)
    requires n <= |s| && (forall j :: 0 <= j < n ==> s[j] == c) && (n == |s| || s[n] != c)
    ensures LTrim(s, c) == s[n..]
  {
    if n > 0 {
      assert s[1..][n - 1..] == s[n..];
      LTrimRun(s[1..], c, n - 1);
    }
  }

  /** `pathinfo`'s split of a base name at its last `.` into the file name and the extension. */
  function SplitExtension(basename: string): (r: (string, Option<string>))
    ensures r.1.Some? <==> '.' in basename
    ensures r.1.Some? ==> basename == r.0 + "." + r.1.value && '.' !in r.1.value
    ensures r.1.None? ==> r.0 == basename
  {
    match LastIndexOf(basename, '.')
    case None => (basename, None)
    case Some(j) =>
      assert basename == basename[..j] + "." + basename[j + 1..];
      (basename[..j], Some(basename[j + 1..]))
  }

  /** `pathinfo` of a key: `dirname`, `basename`, and the base name split at its last `.`. */
  function PathInfo(path: string): PathParts {
    var basename := BaseName(path);
    var (filename, extension) := SplitExtension(basename);
    PathParts(DirName(path), basename, filename, extension)
  }

  /** `pathinfo` on a key with a run of slashes before its base name. */
  lemma PathInfoSlashRun()
    ensures DirName("d//x.txt") == Some("d") && BaseName("d//x.txt") == "x.txt"
  {
    var t := "d//x.txt";
    assert RTrim(t, '/') == t;
    assert '/' !in t[3..];
    assert LastIndexOf(t, '/') == Some(2);
    assert t[..2] == "d/" && RTrim("d/", '/') == "d";
  }

  /** `pathinfo` on a path of slashes only. */
  lemma PathInfoRoot()
    ensures DirName("/") == Some("/") && BaseName("/") == ""
  {
    assert RTrim("/", '/') == "";
  }

  /** No stored object lies directly in the directory `prefix` names. */
  ghost predicate NoDirectObjects(es: seq<Entry>, prefix: string) {
    forall k :: StartsWith(k, prefix) && '/' !in k[|prefix|..] ==> Find(es, k).None?
  }

  /** Deleting the keys of a non-recursive listing removes exactly the objects directly in the
      directory; the listing is empty exactly when there are none. */
  lemma RemoveDirect(es: seq<Entry>, prefix: string, paths: seq<string>)
    requires Sorted(es)
    requires forall k :: k in paths <==> Find(es, k).Some? && StartsWith(k, prefix) && '/' !in k[|prefix|..]
    ensures paths == [] <==> NoDirectObjects(es, prefix)
    ensures forall k :: Find(RemoveAll(es, paths), k) ==
                        (if StartsWith(k, prefix) && '/' !in k[|prefix|..] then None else Find(es, k))
  {
    if paths != [] {
      assert paths[0] in paths;
    }
    forall k ensures Find(RemoveAll(es, paths), k) ==
                     (if StartsWith(k, prefix) && '/' !in k[|prefix|..] then None else Find(es, k))
    {
      RemoveAllFind(es, paths, k);
    }
  }

  /** The paths of listed entries, in order. */
  function PathsOf(infos: seq<FileInfo>): (r: seq<string>)
    ensures |r| == |infos| && forall i :: 0 <= i < |r| ==> r[i] == infos[i].path
  {
    seq(|infos|, i requires 0 <= i < |infos| => infos[i].path)
  }

  /** The objects a listing from the start gives: every key under the prefix (only those without a
      further `/` when not recursive), once each and in key order. */
  lemma ListedKeys(es: seq<Entry>, prefix: string, recursive: bool)
    requires Wellformed(es)
    ensures var leaves := ListedLeaves(es, CosRequest(prefix, recursive, ""));
      (forall k :: k in EntryKeys(leaves) <==>
        Find(es, k).Some? && StartsWith(k, prefix) && (recursive || '/' !in k[|prefix|..])) &&
      Sorted(leaves)
  {
    var req := CosRequest(prefix, recursive, "");
    var leaves := ListedLeaves(es, req);
    LeavesComplete(es, req);
    forall k ensures k in EntryKeys(leaves) <==>
      Find(es, k).Some? && StartsWith(k, prefix) && (recursive || '/' !in k[|prefix|..])
    {
      ListedKey(es, prefix, recursive, leaves, k);
    }
  }

  /** One key of a listing whose objects are those without a common prefix. */
  lemma ListedKey(es: seq<Entry>, prefix: string, recursive: bool, leaves: seq<Entry>, k: string)
    requires Sorted(es)
    requires forall e :: e in leaves <==>
      e in es && StartsWith(e.key, prefix) && GroupOf(e.key, prefix, if recursive then "" else "/").None?
    ensures k in EntryKeys(leaves) <==>
      Find(es, k).Some? && StartsWith(k, prefix) && (recursive || '/' !in k[|prefix|..])
  {
    var ks := EntryKeys(leaves);
    if k in ks {
      var i :| 0 <= i < |ks| && ks[i] == k;
      assert leaves[i] in leaves;
      var m :| 0 <= m < |es| && es[m] == leaves[i];
      FindAt(es, m);
      if !recursive {
        NoGroupIffNoSlash(k, prefix);
      }
    }
    if Find(es, k).Some? && StartsWith(k, prefix) && (recursive || '/' !in k[|prefix|..]) {
      var m :| 0 <= m < |es| && es[m].key == k;
      if !recursive {
        NoGroupIffNoSlash(k, prefix);
      }
      assert es[m] in leaves;
      var i :| 0 <= i < |leaves| && leaves[i] == es[m];
      assert ks[i] == k;
    }
  }

  /** `listContents` as written adds a `/` and `listDirObjects` another: every key it lists has a
      double slash right after the directory, so an ordinary folder lists nothing. */
  lemma DoubleSlashOnly(es: seq<Entry>, directory: string, recursive: bool)
    requires Wellformed(es)
    ensures var prefix := DirPrefix(Slashed(directory));
      EndsWith(prefix, "//") &&
      forall e :: e in ListedLeaves(es, CosRequest(prefix, recursive, "")) ==> OccursAt(e.key, "//", |prefix| - 2)
  {
    var prefix := DirPrefix(Slashed(directory));
    SlashedPrefix(directory);
    var req := CosRequest(prefix, recursive, "");
    var leaves := ListedLeaves(es, req);
    LeavesComplete(es, req);
    forall e | e in leaves ensures OccursAt(e.key, "//", |prefix| - 2) {
      assert StartsWith(e.key, prefix);
      PrefixOccurrence(e.key, prefix, "//");
    }
  }

  /** The prefix `listContents` asks for ends in `//`. */
  lemma SlashedPrefix(directory: string)
    ensures EndsWith(DirPrefix(Slashed(directory)), "//")
  {
    var prefix := DirPrefix(Slashed(directory));
    assert prefix[|prefix| - 2..] == "//";
  }

  /** A text that starts with `prefix` contains the end of `prefix` where `prefix` has it. */
  lemma PrefixOccurrence(k: string, prefix: string, d: string)
    requires StartsWith(k, prefix) && EndsWith(prefix, d)
    ensures OccursAt(k, d, |prefix| - |d|)
  {
    assert k[|prefix| - |d|..|prefix|] == prefix[|prefix| - |d|..];
  }

  /** The corrected `listContents` asks for the same prefix with or without trailing slashes, and the
      prefix ends in at most one `/`. */
  lemma FixedPrefix(directory: string)
    ensures var prefix := DirPrefix(RTrim(directory, '/'));
      prefix == DirPrefix(RTrim(directory + "/", '/')) &&
      (prefix == "" || (EndsWith(prefix, "/") && !EndsWith(prefix, "//")))
  {
    var t := RTrim(directory, '/');
    assert RTrim(directory + "/", '/') == RTrim((directory + "/")[..|directory|], '/');
    assert (directory + "/")[..|directory|] == directory;
    if t != "" {
      assert (t + "/")[|t + "/"| - 2] == t[|t| - 1];
    }
  }

  /** `getTemporaryUrl` as written, with a CDN: the CDN's root, a `/`, then the parsed path, which
      begins with its own `/`, so the CDN URL carries a double slash. */
  lemma TemporaryUrlDoubleSlash(cdn: string, signed: SignedUrl)
    ensures var host := RTrim(cdn, '/');
      StartsWith(signed.path, "/") ==>
      OccursAt(host + "/" + Decode(signed.path, Form) + "?" + signed.query, "//", |host|)
  {
    if StartsWith(signed.path, "/") {
      assert signed.path == "/" + signed.path[1..];
      DecodeSlash(signed.path[1..], Form);
    }
  }

  /** `url` is the CDN's root, one `/`, then `key`, `?` and `query`, all three reading back. */
  predicate OneSlashUrl(url: string, host: string, key: string, query: string) {
    StartsWith(url, host + "/") && !OccursAt(url, "//", |host|) && url[|host| + 1..] == key + "?" + query
  }

  /** The CDN URL of a key whose leading slashes are gone. */
  function CdnUrl(host: string, key: string, query: string): (url: string)
    requires key == [] || key[0] != '/'
    ensures OneSlashUrl(url, host, key, query)
  {
    var url := host + "/" + key + "?" + query;
    assert url == (host + "/") + (key + "?" + query);
    assert url[|host| + 1] == (key + "?" + query)[0];
    url
  }

  class Adapter {
    const store: ObjectStore
    const bucket: string
    /** The app id of the credentials; absent, it reads as "". */
    const appId: Option<string>
    const region: string
    /** The CDN domain, taken from the configured domain. */
    const cdn: string
    const encrypt: bool
    /** Flysystem's `applyPathPrefix`, set up from the CDN domain. */
    const applyPathPrefix: string -> string
    /** PHP's `strtotime`, left uninterpreted. */
    const parseTime: string -> int

    constructor (store: ObjectStore, bucket: string, appId: Option<string>, region: string, domain: string,
                 encrypt: bool, applyPathPrefix: string -> string, parseTime: string -> int)
      ensures this.store == store && this.bucket == bucket && this.appId == appId && this.region == region
      ensures cdn == domain && this.encrypt == encrypt
      ensures this.applyPathPrefix == applyPathPrefix && this.parseTime == parseTime
    {
      this.store := store;
      this.bucket := bucket;
      this.appId := appId;
      this.region := region;
      cdn := domain;
      this.encrypt := encrypt;
      this.applyPathPrefix := applyPathPrefix;
      this.parseTime := parseTime;
    }

    /** `getBucketWithAppId`: the bucket, `-`, the app id; both read back from it. */
    function BucketWithAppId(): (name: string)
      ensures |name| == |bucket| + 1 + |appId.GetOr("")|
      ensures StartsWith(name, bucket) && name[|bucket|] == '-' && name[|bucket| + 1..] == appId.GetOr("")
    {
      bucket + "-" + appId.GetOr("")
    }

    /** The bucket every call names. */
    function Named(): Option<string> {
      Some(BucketWithAppId())
    }

    /** The host part of `getSourcePath`: the bucket (without the app id), the region, the COS domain. */
    function SourceHost(): string {
      bucket + ".cos." + region + ".myqcloud.com/"
    }

    /** `getSourcePath`: the object's address at the source host; the key reads back after the host. */
    function SourcePath(path: string): (source: string)
      ensures StartsWith(source, SourceHost()) && source[|SourceHost()|..] == path
      ensures StartsWith(source, bucket) && EndsWith(source, ".myqcloud.com/" + path)
    {
      SourceHost() + path
    }

    /** `getPicturePath`: the object's address at the picture host of the bucket with its app id. */
    function PicturePath(path: string): (address: string)
      ensures StartsWith(address, BucketWithAppId() + ".pic." + region) && EndsWith(address, ".myqcloud.com/" + path)
    {
      BucketWithAppId() + ".pic." + region + ".myqcloud.com/" + path
    }

    /** `prepareUploadConfig`: AES256 encryption when the adapter encrypts; the parameters passed on;
        a given visibility, normalised, sets the parameters' ACL, over any ACL already there. */
    method PrepareUploadConfig(config: WriteConfig) returns (options: UploadOptions)
      ensures options.serverSideEncryption == if encrypt then Some(Aes256) else None
      ensures options.params.Some? <==> config.params.Some? || config.visibility.Some?
      ensures options.params.Some? ==> forall k :: k != AclParam ==>
        (k in options.params.value <==> config.params.Some? && k in config.params.value) &&
        (k in options.params.value ==> options.params.value[k] == config.params.value[k])
      ensures AclOf(options) == UploadAcl(config)
    {
      var sse: Option<string> := None;
      var params: Option<map<string, string>> := None;
      if encrypt {
        sse := Some(Aes256);
      }
      if config.params.Some? {
        params := config.params;
      }
      if config.visibility.Some? {
        var given: map<string, string> := params.GetOr(map[]);
        params := Some(given[AclParam := NormalizeVisibility(config.visibility.value)]);
      }
      options := UploadOptions(sse, params);
    }

    /** `write`: an upload of the contents under `path` with the prepared options; the object gets the
        ACL they carry, private when none, and the upload fails on an ACL the provider does not know. */
    method Write(path: string, contents: string, config: WriteConfig, stamp: Stamp, status: int) returns (ok: bool)
      requires store.Valid()
      modifies store
      ensures store.Valid()
      ensures ok <==> store.Accepts(Named(), status) && path != "" && store.UploadGrants(UploadAcl(config)).Some?
      ensures forall k :: (store.Lookup(k) ==
        if ok && k == path then Some(StoredObject(contents, "", store.UploadGrants(UploadAcl(config)).value, stamp))
        else old(store.Lookup(k)))
      ensures ok && config.visibility.Some? && Contains(store.allUsersUri, AllUsers) ==>
        (AnyPublicRead(store.Lookup(path).value.grants, PermissionRead, AllUsers) <==>
         NormalizeVisibility(config.visibility.value) != AclPrivate)
    {
      var options := PrepareUploadConfig(config);
      var acl := AclOf(options);
      ghost var es := store.entries;
      ok := store.PutObject(Named(), path, contents, "", acl, stamp, status);
      forall k ensures store.Lookup(k) ==
        if ok && k == path then Some(StoredObject(contents, "", store.UploadGrants(acl).value, stamp)) else Find(es, k)
      {
        if ok {
          PutFind(es, Entry(path, StoredObject(contents, "", store.UploadGrants(acl).value, stamp)), k);
        }
      }
      if ok && config.visibility.Some? && Contains(store.allUsersUri, AllUsers) {
        CannedVisibility(acl.value, store.allUsersUri, AllUsers);
      }
    }

    /** `update`: the same upload as `write`. */
    method Update(path: string, contents: string, config: WriteConfig, stamp: Stamp, status: int) returns (ok: bool)
      requires store.Valid()
      modifies store
      ensures store.Valid()
      ensures ok <==> store.Accepts(Named(), status) && path != "" && store.UploadGrants(UploadAcl(config)).Some?
      ensures forall k :: (store.Lookup(k) ==
        if ok && k == path then Some(StoredObject(contents, "", store.UploadGrants(UploadAcl(config)).value, stamp))
        else old(store.Lookup(k)))
    {
      ok := Write(path, contents, config, stamp, status);
    }

    /** `copy`: the object at the source path of `path` copied to `newpath` in the bucket with the
        app id; the provider reads the key back after the source host. */
    method Copy(path: string, newpath: string, stamp: Stamp, status: int) returns (ok: bool)
      requires store.Valid()
      modifies store
      ensures store.Valid()
      ensures ok <==> store.Accepts(Named(), status) && newpath != "" && old(store.Lookup(path)).Some?
      ensures !ok ==> store.entries == old(store.entries)
      ensures forall k :: (store.Lookup(k) ==
        if ok && k == newpath then Some(CopyOf(old(store.Lookup(path)).value, stamp)) else old(store.Lookup(k)))
    {
      ghost var es := store.entries;
      var source := SourcePath(path);
      ok := store.CopyObject(Named(), newpath, source[|SourceHost()|..], stamp, status);
      forall k ensures store.Lookup(k) == if ok && k == newpath then Some(CopyOf(Find(es, path).value, stamp)) else Find(es, k) {
        if ok {
          PutFind(es, Entry(newpath, CopyOf(Find(es, path).value, stamp)), k);
        }
      }
    }

    /** `delete`: the object under `path` removed; true when the call gets through. */
    method Delete(path: string, status: int) returns (ok: bool)
      requires store.Valid()
      modifies store
      ensures store.Valid()
      ensures ok <==> store.Accepts(Named(), status)
      ensures forall k :: store.Lookup(k) == if ok && k == path then None else old(store.Lookup(k))
    {
      ghost var es := store.entries;
      ok := store.DeleteObject(Named(), path, status);
      forall k ensures store.Lookup(k) == if ok && k == path then None else Find(es, k) {
        if ok {
          RemoveFind(es, path, k);
        }
      }
    }

    /** `rename`: the copy, then the delete of `path` only when the copy succeeded; the answer is the
        copy's, whatever the delete's. Renaming a path onto itself loses the object, and a delete that
        fails after a good copy leaves the object under both names while the answer is true. */
    method Rename(path: string, newpath: string, stamp: Stamp, copyStatus: int, deleteStatus: int)
      returns (ok: bool)
      requires store.Valid()
      modifies store
      ensures store.Valid()
      ensures ok <==> store.Accepts(Named(), copyStatus) && newpath != "" && old(store.Lookup(path)).Some?
      ensures !ok ==> store.entries == old(store.entries)
      ensures ok ==> forall k :: (store.Lookup(k) ==
        if k == path && store.Accepts(Named(), deleteStatus) then None
        else if k == newpath then Some(CopyOf(old(store.Lookup(path)).value, stamp))
        else old(store.Lookup(k)))
      ensures ok && !store.Accepts(Named(), deleteStatus) && path != newpath ==>
        store.Lookup(path) == old(store.Lookup(path)) && store.Lookup(newpath).Some?
    {
      ok := Copy(path, newpath, stamp, copyStatus);
      if ok {
        var _ := Delete(path, deleteStatus);
      }
    }

    /** `createDir`: an empty object under the name with `/` appended. */
    method CreateDir(dirname: string, stamp: Stamp, status: int) returns (ok: bool)
      requires store.Valid()
      modifies store
      ensures store.Valid()
      ensures ok <==> store.Accepts(Named(), status)
      ensures forall k :: (store.Lookup(k) ==
        if ok && k == dirname + "/" then Some(StoredObject("", "", OwnerOnly, stamp)) else old(store.Lookup(k)))
    {
      ghost var es := store.entries;
      var key := dirname + "/";
      ok := store.PutObject(Named(), key, "", "", None, stamp, status);
      forall k ensures store.Lookup(k) == if ok && k == key then Some(StoredObject("", "", OwnerOnly, stamp)) else Find(es, k) {
        if ok {
          PutFind(es, Entry(key, StoredObject("", "", OwnerOnly, stamp)), k);
        }
      }
    }

    /** `getMetadata`: the head request's answer for `path`. */
    method GetMetadata(path: string, status: int) returns (r: Option<Metadata>)
      ensures r.Some? <==> store.Accepts(Named(), status) && store.Lookup(path).Some?
      ensures r.Some? ==> var o := store.Lookup(path).value;
        r.value.contentLength == |o.body| && r.value.contentType == o.contentType &&
        r.value.lastModified == o.stamp.lastModified && r.value.etag == o.stamp.etag
    {
      var o := store.HeadObject(Named(), path, status);
      if o.None? {
        return None;
      }
      r := Some(Metadata(|o.value.body|, o.value.contentType, o.value.stamp.lastModified, o.value.stamp.etag));
    }

    /** `has`: whether `getMetadata` answers. */
    method Has(path: string, status: int) returns (b: bool)
      ensures b <==> store.Accepts(Named(), status) && store.Lookup(path).Some?
    {
      var m := GetMetadata(path, status);
      b := m.Some?;
    }

    /** `getSize`: the content length, which is the body's length. */
    method GetSize(path: string, status: int) returns (r: Option<nat>)
      ensures r.Some? <==> store.Accepts(Named(), status) && store.Lookup(path).Some?
      ensures r.Some? ==> r.value == |store.Lookup(path).value.body|
    {
      var m := GetMetadata(path, status);
      r := if m.Some? then Some(m.value.contentLength) else None;
    }

    /** `getMimetype`: the stored content type. */
    method GetMimetype(path: string, status: int) returns (r: Option<string>)
      ensures r.Some? <==> store.Accepts(Named(), status) && store.Lookup(path).Some?
      ensures r.Some? ==> r.value == store.Lookup(path).value.contentType
    {
      var m := GetMetadata(path, status);
      r := if m.Some? then Some(m.value.contentType) else None;
    }

    /** `getTimestamp`: the stored date text, read by `strtotime`. */
    method GetTimestamp(path: string, status: int) returns (r: Option<int>)
      ensures r.Some? <==> store.Accepts(Named(), status) && store.Lookup(path).Some?
      ensures r.Some? ==> r.value == parseTime(store.Lookup(path).value.stamp.lastModified)
    {
      var m := GetMetadata(path, status);
      r := if m.Some? then Some(parseTime(m.value.lastModified)) else None;
    }

    /** `getVisibility`: public exactly when a grant gives READ to a grantee URI containing
        `global/AllUsers`, private otherwise; nothing when the ACL call fails. */
    method GetVisibility(path: string, status: int) returns (r: Option<string>)
      ensures r.Some? <==> store.Accepts(Named(), status) && store.Lookup(path).Some?
      ensures r.Some? ==> r.value == Public || r.value == Private
      ensures r.Some? ==> (r.value == Public <==> AnyPublicRead(store.Lookup(path).value.grants, PermissionRead, AllUsers))
    {
      var grants := store.GetObjectAcl(Named(), path, status);
      if grants.None? {
        return None;
      }
      var v := ScanGrants(grants.value, PermissionRead, AllUsers);
      r := Some(v);
    }

    /** `setVisibility`: the normalised visibility set as the object's ACL; true when the provider
        takes it. Once set, `getVisibility` reads back public exactly for an ACL other than private. */
    method SetVisibility(path: string, visibility: string, status: int) returns (ok: bool)
      requires store.Valid()
      modifies store
      ensures store.Valid()
      ensures ok <==> (store.Accepts(Named(), status) && old(store.Lookup(path)).Some? &&
                       CannedGrants(NormalizeVisibility(visibility), store.allUsersUri).Some?)
      ensures ok && Contains(store.allUsersUri, AllUsers) ==>
        store.Lookup(path).Some? &&
        (AnyPublicRead(store.Lookup(path).value.grants, PermissionRead, AllUsers) <==> NormalizeVisibility(visibility) != AclPrivate)
      ensures forall k :: (store.Lookup(k) ==
        if ok && k == path
        then Some(old(store.Lookup(path)).value.(grants := CannedGrants(NormalizeVisibility(visibility), store.allUsersUri).value))
        else old(store.Lookup(k)))
    {
      var acl := NormalizeVisibility(visibility);
      ghost var es := store.entries;
      ghost var o := Find(es, path);
      ok := store.SetObjectAcl(Named(), path, acl, status);
      if ok {
        var e := Entry(path, o.value.(grants := CannedGrants(acl, store.allUsersUri).value));
        forall k ensures store.Lookup(k) == if k == path then Some(e.obj) else Find(es, k) {
          PutFind(es, e, k);
        }
        if Contains(store.allUsersUri, AllUsers) {
          CannedVisibility(acl, store.allUsersUri, AllUsers);
        }
      }
    }

    /** `getUrl` with a CDN configured: the path with the path prefix applied. Without one the URL is
        the SDK's, which is not part of this model. */
    function GetUrl(path: string): (url: Option<string>)
      ensures url.Some? <==> !Empty(cdn)
      ensures url.Some? ==> url.value == applyPathPrefix(path)
    {
      if !Empty(cdn) then Some(applyPathPrefix(path)) else None
    }

    /** `getTemporaryUrl` as written: with a CDN, the CDN without trailing slashes, `/`, the decoded
        path of the signed URL, `?` and its query; without one the signed URL itself. */
    function GetTemporaryUrl(signed: SignedUrl): (url: string)
      ensures Empty(cdn) ==> url == signed.url
      ensures !Empty(cdn) && StartsWith(signed.path, "/") ==> OccursAt(url, "//", |RTrim(cdn, '/')|)
    {
      if !Empty(cdn) then
        TemporaryUrlDoubleSlash(cdn, signed);
        RTrim(cdn, '/') + "/" + Decode(signed.path, Form) + "?" + signed.query
      else signed.url
    }

    /** `getTemporaryUrl` corrected: the decoded path's leading slashes dropped, so one `/` separates
        the CDN from the key, which reads back, as does the query. */
    function GetTemporaryUrlFixed(signed: SignedUrl): (url: string)
      ensures Empty(cdn) ==> url == signed.url
      ensures !Empty(cdn) ==> OneSlashUrl(url, RTrim(cdn, '/'), LTrim(Decode(signed.path, Form), '/'), signed.query)
    {
      if !Empty(cdn) then
        CdnUrl(RTrim(cdn, '/'), LTrim(Decode(signed.path, Form), '/'), signed.query)
      else signed.url
    }

    /** `normalizeFileInfo` of one listed object. */
    function Normalize(e: Entry): FileInfo {
      var p := PathInfo(e.key);
      FileInfo(
        if EndsWith(e.key, "/") then Dir else File, e.key, parseTime(e.obj.stamp.lastModified), |e.obj.body|,
        if p.dirname == Some(".") then "" else p.dirname.GetOr(""), p.basename, p.filename, p.extension.GetOr(""))
    }

    /** `normalizeFileInfo`: a directory exactly when the key ends in `/`; the key as the path; the
        date read by `strtotime`; the body's length; `pathinfo`'s parts, with "" for a directory part
        of "." and for a missing extension. */
    lemma NormalizeFileInfo(e: Entry)
      ensures var info := Normalize(e);
        (info.kind == Dir <==> EndsWith(e.key, "/")) &&
        info.path == e.key && info.size == |e.obj.body| && info.timestamp == parseTime(e.obj.stamp.lastModified) &&
        (info.dirname == "" <==> e.key == "" || DirName(e.key) == Some(".")) &&
        (info.dirname == "/" || !EndsWith(info.dirname, "/")) &&
        info.basename == BaseName(e.key) &&
        (e.key != "" && '/' !in RTrim(e.key, '/') ==> info.basename == RTrim(e.key, '/')) &&
        ('.' !in info.basename ==> info.extension == "" && info.filename == info.basename) &&
        ('.' in info.basename ==> info.basename == info.filename + "." + info.extension)
    {
    }

    /** `listDirObjects`: list calls from the start, each page's objects normalised and appended,
        until a page is not truncated. The entries are exactly the objects under the prefix (only
        those without a further `/` when not recursive), once each and in key order. */
    method ListDirObjects(directory: string, recursive: bool, status: int) returns (r: Option<seq<FileInfo>>)
      requires store.Valid()
      ensures r.Some? <==> store.Accepts(Named(), status)
      ensures r.Some? ==> r.value == MapSeq(Normalize, ListedLeaves(store.entries, CosRequest(DirPrefix(directory), recursive, "")))
      ensures r.Some? ==> var prefix := DirPrefix(directory);
        (forall k :: k in PathsOf(r.value) <==>
          store.Lookup(k).Some? && StartsWith(k, prefix) && (recursive || '/' !in k[|prefix|..])) &&
        (forall i, j :: 0 <= i < j < |r.value| ==> Below(r.value[i].path, r.value[j].path))
    {
      var es := store.entries;
      var prefix := if directory == "" then "" else directory + "/";
      var first := CosRequest(prefix, recursive, "");
      var nextMarker := "";
      var list: seq<FileInfo> := [];
      ghost var seen: seq<Entry> := [];
      ghost var groups: seq<string> := [];
      while true
        invariant list == MapSeq(Normalize, seen)
        invariant seen + ListedLeaves(es, CosRequest(prefix, recursive, nextMarker)) == ListedLeaves(es, first)
        invariant groups + ListedGroups(es, CosRequest(prefix, recursive, nextMarker)) == ListedGroups(es, first)
        decreases |Remaining(es, CosRequest(prefix, recursive, nextMarker))|
      {
        var req := CosRequest(prefix, recursive, nextMarker);
        var page := store.ListObjectsPage(Named(), req, status);
        if page.None? {
          return None;
        }
        Accumulate(es, first, req, seen, groups);
        TruncatedIffMarker(es, req);
        MapSeqAppend(Normalize, seen, page.value.contents);
        list := AppendMapped(Normalize, list, page.value.contents);
        seen := seen + page.value.contents;
        groups := groups + page.value.commonPrefixes;
        if !page.value.isTruncated {
          break;
        }
        assert req.(marker := page.value.nextMarker) == CosRequest(prefix, recursive, page.value.nextMarker);
        nextMarker := page.value.nextMarker;
      }
      ListingMeaning(es, prefix, recursive, list);
      r := Some(list);
    }

    /** What a whole listing's entries are, in terms of the bucket. */
    lemma ListingMeaning(es: seq<Entry>, prefix: string, recursive: bool, list: seq<FileInfo>)
      requires Wellformed(es)
      requires list == MapSeq(Normalize, ListedLeaves(es, CosRequest(prefix, recursive, "")))
      ensures forall k :: k in PathsOf(list) <==>
        Find(es, k).Some? && StartsWith(k, prefix) && (recursive || '/' !in k[|prefix|..])
      ensures forall i, j :: 0 <= i < j < |list| ==> Below(list[i].path, list[j].path)
    {
      var leaves := ListedLeaves(es, CosRequest(prefix, recursive, ""));
      ListedKeys(es, prefix, recursive);
      assert PathsOf(list) == EntryKeys(leaves);
    }

    /** `listContents` as written: `listDirObjects` of the directory with a `/` appended when it does not
        end in one, so the prefix listed ends in `//` and every path listed has a double slash. */
    method ListContents(directory: string, recursive: bool, status: int) returns (r: Option<seq<FileInfo>>)
      requires store.Valid()
      ensures r.Some? <==> store.Accepts(Named(), status)
      ensures r.Some? ==> r.value == MapSeq(Normalize, ListedLeaves(store.entries, CosRequest(DirPrefix(Slashed(directory)), recursive, "")))
      ensures r.Some? ==> forall i :: 0 <= i < |r.value| ==>
        OccursAt(r.value[i].path, "//", |DirPrefix(Slashed(directory))| - 2)
    {
      r := ListDirObjects(Slashed(directory), recursive, status);
      if r.Some? {
        var leaves := ListedLeaves(store.entries, CosRequest(DirPrefix(Slashed(directory)), recursive, ""));
        DoubleSlashOnly(store.entries, directory, recursive);
        forall i | 0 <= i < |r.value| ensures OccursAt(r.value[i].path, "//", |DirPrefix(Slashed(directory))| - 2) {
          assert leaves[i] in leaves;
        }
      }
    }

    /** `listContents` corrected: the directory's trailing slashes dropped before `listDirObjects` adds
        one, so the entries are the objects under the directory. */
    method ListContentsFixed(directory: string, recursive: bool, status: int) returns (r: Option<seq<FileInfo>>)
      requires store.Valid()
      ensures r.Some? <==> store.Accepts(Named(), status)
      ensures r.Some? ==> var prefix := DirPrefix(RTrim(directory, '/'));
        (forall k :: k in PathsOf(r.value) <==>
          store.Lookup(k).Some? && StartsWith(k, prefix) && (recursive || '/' !in k[|prefix|..])) &&
        (forall i, j :: 0 <= i < j < |r.value| ==> Below(r.value[i].path, r.value[j].path))
    {
      r := ListDirObjects(RTrim(directory, '/'), recursive, status);
    }

    /** `deleteDir` as written: the listing's result has no `Contents` entry, so the directory counts as
        empty and nothing is deleted; true whenever the listing goes through. */
    method DeleteDir(dirname: string, status: int) returns (ok: bool)
      requires store.Valid()
      ensures ok <==> store.Accepts(Named(), status)
    {
      var listed := ListDirObjects(dirname, false, status);
      if listed.None? {
        return false;
      }
      ok := true;
    }

    /** `deleteDir` corrected: every object the listing of the directory names deleted in one call.
        Afterwards no object directly in the directory is left, and nothing else has changed. */
    method DeleteDirFixed(dirname: string, listStatus: int, deleteStatus: int) returns (ok: bool)
      requires store.Valid()
      modifies store
      ensures store.Valid()
      ensures var prefix := DirPrefix(dirname);
        ok <==> store.Accepts(Named(), listStatus) &&
                (store.Accepts(Named(), deleteStatus) || NoDirectObjects(old(store.entries), prefix))
      ensures var prefix := DirPrefix(dirname);
        forall k :: (store.Lookup(k) ==
          if ok && StartsWith(k, prefix) && '/' !in k[|prefix|..] then None else old(store.Lookup(k)))
    {
      ghost var es := store.entries;
      var prefix := DirPrefix(dirname);
      var listed := ListDirObjects(dirname, false, listStatus);
      if listed.None? {
        return false;
      }
      var paths := PathsOf(listed.value);
      RemoveDirect(es, prefix, paths);
      if paths == [] {
        ok := true;
      } else {
        ok := store.DeleteObjects(Named(), paths, deleteStatus);
      }
    }
  }
}
