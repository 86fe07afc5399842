# Cloud filesystem adapters for ThinkPHP 6

This project models the three storage adapters of `tp6-filesystem-cloud`: `ObsAdapter` (Huawei OBS),
`CosAdapter` (Tencent Cloud COS) and `QiniuAdapter` (Qiniu Kodo). Each one implements Flysystem's
filesystem interface: write, update, rename, copy, delete, deleteDir, createDir, has, getMetadata,
getSize, getMimetype, getTimestamp, getVisibility, setVisibility, listContents and getUrl. It does
so by calls to a provider's bucket.

The provider sits behind the SDK clients and is not part of the repository. It is modelled as one
abstract bucket, the class `Store.ObjectStore`. The bucket holds a key-sorted list of entries. Each
entry has a body, a content type, the grants of its access-control list and a `Stamp`. The stamp
carries the values the provider generates: date text, ETag, MD5, upload time and storage class.
Every adapter operation takes more parameters:

- one status per provider call: the provider's answer to that call. An operation that makes one
  call takes `status`. One that makes several writes or deletes takes one status for each, such as
  `copyStatus` and `deleteStatus` for a rename, or one per path for OBS `deleteDir`. A call goes
  through when the adapter names the bucket and its status is 2xx. An exception thrown by the SDK is
  a status outside 2xx.
- `stamp`: the provider-generated values of the object a call stores.

The bucket lists keys the way all three providers do (`Listing.ListObjects`):

- keys in lexicographic order, filtered by prefix;
- keys grouped into common prefixes at a delimiter;
- at most `MaxKeys` keys after a marker per page;
- `NextMarker` and `IsTruncated` on each page.

Other parts of the model:

- **PHP's own functions:** the string functions the adapters call are written out over `string` in
  module `Text`. `urlencode`, `rawurlencode` and `urldecode` are in `UrlCodec`. PHP's `empty("0")`
  and the `?:` falsiness of "0" are modelled as PHP has them.
- **Flysystem and `strtotime`:** Flysystem's `applyPathPrefix` and PHP's `strtotime` are
  uninterpreted function parameters of the adapters.
- **Strings in URLs:** the path strings that go into URLs are byte strings.
- **Behaviour changes:** where an adapter's code does something its callers evidently do not expect,
  the model keeps two versions. One follows the code as written; the other is the corrected
  version, with the intended property proved (see "## Findings").

Modules: `Wrappers`, `Text`, `Bucket` (sorted entries), `Listing` (paged listing), `UrlCodec`,
`Store` (the provider's bucket), `Visibility`, and one module per adapter (`ObsAdapter`,
`CosAdapter`, `QiniuAdapter`).

## Model

| member | source | states |
|---|---|---|
| ObsAdapter.Adapter.constructor | src/filesystem/Adapter/ObsAdapter.php:63-74 | the constructor never sets `$this->bucket`, so the adapter names no bucket |
| ObsAdapter.Adapter.WithBucket | src/filesystem/Adapter/ObsAdapter.php:40 | the corrected constructor: the adapter names the configured bucket |
| ObsAdapter.Adapter.UnconfiguredRejects | src/filesystem/Adapter/ObsAdapter.php:63-74 | with no bucket named, no provider answer lets a call go through |
| ObsAdapter.Adapter.Write | src/filesystem/Adapter/ObsAdapter.php:85-97 | the write succeeds iff the call goes through and the path is not empty; the object is then stored under the path as given, private, and no other key changes |
| ObsAdapter.Adapter.Update | src/filesystem/Adapter/ObsAdapter.php:139-142 | the update is the same upload as write and replaces whatever was stored under the path |
| ObsAdapter.Adapter.Copy | src/filesystem/Adapter/ObsAdapter.php:188-202 | as written, `newpath` is copied onto `path`, and the answer is true only on status 200 |
| ObsAdapter.Adapter.CopyFixed | src/filesystem/Adapter/ObsAdapter.php:191-195 | corrected: when the call goes through and `path` exists, a private, newly stamped copy of `path` is stored under `newpath`; every other key is unchanged |
| ObsAdapter.Adapter.Delete | src/filesystem/Adapter/ObsAdapter.php:211-224 | the object under the path is removed when the call goes through; the answer is true only on status 200 |
| ObsAdapter.Adapter.Rename | src/filesystem/Adapter/ObsAdapter.php:166-178 | as written, for each outcome of the copy and the delete: a copy that goes through overwrites `path` with a private copy of `newpath`; after a copy answered 200, a delete that goes through removes `path`; the answer is true iff both answer 200; every key other than `path` is unchanged. A copy that goes through with a status other than 200 leaves the overwritten `path` and answers false |
| ObsAdapter.Adapter.RenameFixed | src/filesystem/Adapter/ObsAdapter.php:166-178 | with the corrected copy, for each outcome of the two calls: a successful rename moves the object from `path` to `newpath`; a delete that fails after a good copy leaves the object under both names and answers false; no other key changes |
| ObsAdapter.Adapter.CreateDir | src/filesystem/Adapter/ObsAdapter.php:251-259 | an empty object is stored under the name trimmed of `/` plus one `/`; the answer is true whatever the write did |
| ObsAdapter.Adapter.GetMetadata | src/filesystem/Adapter/ObsAdapter.php:462-490 | a record exists iff the head request answers 200 for the prefixed path; its `Size` equals its `LastModified` |
| ObsAdapter.MetadataSizes | src/filesystem/Adapter/ObsAdapter.php:478 | as written, the size is the date text; the corrected size is all digits and reads back as the body's length |
| ObsAdapter.Adapter.GetMetadataFixed | src/filesystem/Adapter/ObsAdapter.php:474-481 | the corrected record has the same existence condition, and its size is the body's length in decimal |
| ObsAdapter.Adapter.Has | src/filesystem/Adapter/ObsAdapter.php:268-275 | true iff the metadata call finds the prefixed path |
| ObsAdapter.Adapter.GetSize | src/filesystem/Adapter/ObsAdapter.php:499-504 | answers exactly when the metadata does; the value is the object's date text |
| ObsAdapter.Adapter.GetMimetype | src/filesystem/Adapter/ObsAdapter.php:513-518 | answers exactly when the metadata does; the value is the stored content type |
| ObsAdapter.Adapter.GetTimestamp | src/filesystem/Adapter/ObsAdapter.php:527-531 | answers exactly when the metadata does; the value is `strtotime` of the stored date |
| ObsAdapter.Adapter.GetVisibility | src/filesystem/Adapter/ObsAdapter.php:540-566 | answers iff the ACL call goes through; the answer is public iff some grant gives READ to a URI naming `Everyone`, otherwise private |
| ObsAdapter.Adapter.SetVisibility | src/filesystem/Adapter/ObsAdapter.php:301-317 | when the call goes through for an existing object, that object's grants become the canned ACL: public-read for "public", private otherwise. This holds even when the status is not 200, and then the answer is false. The answer is true iff the status is 200. Afterwards the visibility reads back public exactly for "public". Every other key, and every other field of the object, is unchanged |
| Visibility.CannedVisibility | src/filesystem/Adapter/ObsAdapter.php:305-313 | the grant scan reads the canned ACLs back: public-read and public-read-write are public, private is private |
| ObsAdapter.Adapter.GetUrl | src/filesystem/Adapter/ObsAdapter.php:283-291 | the URL starts with the normalised host; the rest, parsed and form-decoded, gives back the path without leading slashes and the non-empty query |
| UrlCodec.NormalizeHost | src/filesystem/Adapter/ObsAdapter.php:618-625 | the host ends in exactly one `/` |
| UrlCodec.NormalizeHostIdempotent | src/filesystem/Adapter/ObsAdapter.php:618-625 | a normalised host has a scheme and normalises to itself |
| UrlCodec.SplitQueryUnparse | src/filesystem/Adapter/ObsAdapter.php:637-660 | the path and the query that the URL parse finds put back together give the input |
| UrlCodec.DecodeEncode | src/filesystem/Adapter/ObsAdapter.php:290 | decoding undoes `urlencode` and `rawurlencode` on byte strings |
| UrlCodec.EncodePathRoundTrip | src/filesystem/Adapter/ObsAdapter.php:290 | the encoded path, segment by segment and with leading `/` trimmed, decodes to the path without leading slashes |
| ObsAdapter.ObsRequest | src/filesystem/Adapter/ObsAdapter.php:363-369 | every list call uses the directory as prefix, the marker, delimiter `/` and 1000 keys |
| ObsAdapter.Records | src/filesystem/Adapter/ObsAdapter.php:382-390 | one record per listed object, in page order, each carrying the listed directory |
| ObsAdapter.RecordsAppend | src/filesystem/Adapter/ObsAdapter.php:382-390 | the records of two runs of objects are concatenated in order |
| ObsAdapter.GatherPage | src/filesystem/Adapter/ObsAdapter.php:381-401 | one page's two loops append objects and prefixes, or reset either list when the page has none |
| ObsAdapter.Adapter.ListDirObjects | src/filesystem/Adapter/ObsAdapter.php:356-417 | the loop gives, when the call goes through, the listing as written (`ObsList`): pages followed by `NextMarker`, with resets and recursion over the accumulated prefixes |
| ObsAdapter.Adapter.DescendAll | src/filesystem/Adapter/ObsAdapter.php:404-409 | the recursive step appends every prefix's own recursive listing, prefix by prefix |
| ObsAdapter.ObsSinglePage | src/filesystem/Adapter/ObsAdapter.php:356-417 | a listing that fits one page equals the corrected listing |
| ObsAdapter.ObsLastPageDropsObjects | src/filesystem/Adapter/ObsAdapter.php:391-393 | as written, when the last of two pages holds only prefixes, the objects of the first page are lost; the corrected listing keeps them |
| ObsAdapter.ObsRecursionRepeats | src/filesystem/Adapter/ObsAdapter.php:403-409 | as written, a recursive listing over two pages lists the first page's subdirectories twice |
| ObsAdapter.ObsRecursionDuplicates | src/filesystem/Adapter/ObsAdapter.php:403-409 | as written, when the first page's last subdirectory holds objects on one page, some key occurs twice in the recursive listing |
| ObsAdapter.OnePageListing | src/filesystem/Adapter/ObsAdapter.php:362-414 | a directory whose listing fits one page and holds objects has a non-empty recursive listing |
| ObsAdapter.ObsPagesFirst | src/filesystem/Adapter/ObsAdapter.php:362-414 | the first iteration of the recursive loop on a truncated page |
| ObsAdapter.ObsPagesLast | src/filesystem/Adapter/ObsAdapter.php:362-414 | the last iteration descends into all the prefixes gathered so far |
| ObsAdapter.SubObjectsAppend | src/filesystem/Adapter/ObsAdapter.php:405-408 | descending into two runs of prefixes concatenates their listings |
| ObsAdapter.Adapter.ListDirObjectsFixed | src/filesystem/Adapter/ObsAdapter.php:356-417 | corrected: every page is kept and each common prefix is descended into once (`ObsListFixed`); the objects are exactly those under the directory (only those directly in it when not recursive), each key once |
| ObsAdapter.Adapter.ListPagesFixed | src/filesystem/Adapter/ObsAdapter.php:362-413 | the corrected paging loop: when the call goes through, the objects and common prefixes of every page up to the one without a next marker, which is the non-recursive corrected listing |
| ObsAdapter.ObsListFixedKeys | src/filesystem/Adapter/ObsAdapter.php:356-417 | the corrected listing's keys are the objects under the directory (directly in it when not recursive), none twice |
| ObsAdapter.Adapter.DescendAllFixed | src/filesystem/Adapter/ObsAdapter.php:404-409 | the corrected recursive step appends each prefix's corrected listing |
| ObsAdapter.FixedKey | src/filesystem/Adapter/ObsAdapter.php:356-417 | a key is among the objects without a common prefix iff it is stored under the directory with no further `/` |
| ObsAdapter.ObsListFixedComplete | src/filesystem/Adapter/ObsAdapter.php:356-417 | the corrected non-recursive listing holds each object directly in the directory once, in key order, and exactly the subdirectories' prefixes |
| ObsAdapter.ObsListFixedRecursive | src/filesystem/Adapter/ObsAdapter.php:356-417 | the corrected recursive listing holds exactly the objects under the directory, each key once |
| ObsAdapter.SubFixedKeys | src/filesystem/Adapter/ObsAdapter.php:404-409 | descending, corrected, into distinct subdirectory prefixes lists exactly the objects under one of them, each key once |
| ObsAdapter.UnderGroup | src/filesystem/Adapter/ObsAdapter.php:356-417 | a key lies under a common prefix iff it lies under the directory and rolls up into that prefix |
| ObsAdapter.Adapter.ListContents | src/filesystem/Adapter/ObsAdapter.php:427-453 | lists the directory with a trailing `/`, turning objects into file entries and prefixes into directory entries |
| ObsAdapter.Adapter.FileEntries | src/filesystem/Adapter/ObsAdapter.php:433-440 | the first loop of listContents gives the file entries of the objects, in order |
| ObsAdapter.Adapter.FileEntryOf | src/filesystem/Adapter/ObsAdapter.php:434-439 | one object's entry: a file entry when its metadata is found and it is no placeholder, otherwise none |
| ObsAdapter.Adapter.DirEntries | src/filesystem/Adapter/ObsAdapter.php:443-450 | the second loop appends one directory entry per prefix |
| ObsAdapter.DirRecords | src/filesystem/Adapter/ObsAdapter.php:444-449 | one directory entry per common prefix, in order |
| ObsAdapter.Adapter.FileInfosSound | src/filesystem/Adapter/ObsAdapter.php:573-591 | every file entry is a file the metadata call finds, named by an object key without leading `/`, and never a console `obs.txt` placeholder |
| ObsAdapter.Adapter.FileInfosComplete | src/filesystem/Adapter/ObsAdapter.php:433-440 | every object that is no placeholder and whose metadata is found gets a file entry |
| ObsAdapter.Adapter.ContentsOrder | src/filesystem/Adapter/ObsAdapter.php:427-453 | all file entries come before the directory entries, which are exactly the prefixes in order |
| ObsAdapter.Paths | src/filesystem/Adapter/ObsAdapter.php:235-237 | the paths deleteDir deletes are the entries' paths, in order |
| ObsAdapter.Adapter.DeletedPaths | src/filesystem/Adapter/ObsAdapter.php:235-237 | a path is among those deleted iff some delete of it, at its own position, goes through |
| ObsAdapter.Adapter.DeleteAll | src/filesystem/Adapter/ObsAdapter.php:235-237 | the loop sends one delete per path, each with its own status, and ignores the answers; exactly the paths whose delete goes through are removed, and nothing else |
| ObsAdapter.Adapter.DeleteDir | src/filesystem/Adapter/ObsAdapter.php:233-241 | a delete is sent for every path the recursive listContents names, files and directories alike; exactly those whose delete goes through are removed. The deletes' answers are ignored: the answer is true iff `has(dirname)` is then false |
| CosAdapter.Adapter.constructor | src/filesystem/Adapter/CosAdapter.php:46-56 | the adapter keeps the bucket, app id, region, CDN domain and encryption flag |
| CosAdapter.Adapter.BucketWithAppId | src/filesystem/Adapter/CosAdapter.php:534-537 | the bucket name is the bucket, `-` and the app id ("" when absent), both reading back |
| CosAdapter.Adapter.SourcePath | src/filesystem/Adapter/CosAdapter.php:560-564 | the source address is the bucket's COS host followed by the path, which reads back after the host |
| CosAdapter.Adapter.PicturePath | src/filesystem/Adapter/CosAdapter.php:571-576 | the picture address is at the picture host of the bucket with the app id and ends in the path |
| CosAdapter.Adapter.PrepareUploadConfig | src/filesystem/Adapter/CosAdapter.php:583-599 | AES256 iff encrypting; the parameters are passed on; a given visibility, normalised, overrides the parameters' ACL |
| CosAdapter.NormalizeVisibility | src/filesystem/Adapter/CosAdapter.php:606-613 | "public" becomes public-read, anything else passes through unchanged |
| CosAdapter.NormalizeVisibilityRoundTrip | src/filesystem/Adapter/CosAdapter.php:606-613 | both visibilities become known ACLs that the grant scan reads back as themselves |
| CosAdapter.Adapter.Write | src/filesystem/Adapter/CosAdapter.php:67-79 | succeeds iff the call goes through, the path is not empty and the ACL is known; the object gets that ACL and no other key changes; a given visibility reads back |
| CosAdapter.Adapter.Update | src/filesystem/Adapter/CosAdapter.php:122-125 | the same upload as write |
| CosAdapter.Adapter.Copy | src/filesystem/Adapter/CosAdapter.php:170-181 | true iff the call goes through, `newpath` is not empty and `path` exists; the copy under `newpath` keeps the body and type, is private and newly stamped; nothing else changes |
| CosAdapter.Adapter.Delete | src/filesystem/Adapter/CosAdapter.php:190-200 | removes the object; true iff the call goes through |
| CosAdapter.Adapter.Rename | src/filesystem/Adapter/CosAdapter.php:149-160 | the answer is the copy's, whatever the delete's. After a good copy, a delete that goes through completes the move, and a rename onto itself loses the object. A delete that fails leaves the object under both names, yet the answer is true |
| CosAdapter.Adapter.CreateDir | src/filesystem/Adapter/CosAdapter.php:238-249 | an empty object under the name plus `/` |
| CosAdapter.Adapter.GetMetadata | src/filesystem/Adapter/CosAdapter.php:411-421 | answers iff the object exists; it reports the body's length, the type, the date and the ETag |
| CosAdapter.Adapter.Has | src/filesystem/Adapter/CosAdapter.php:258-265 | true iff the head request answers |
| CosAdapter.Adapter.GetSize | src/filesystem/Adapter/CosAdapter.php:430-434 | the body's length |
| CosAdapter.Adapter.GetMimetype | src/filesystem/Adapter/CosAdapter.php:443-447 | the stored content type |
| CosAdapter.Adapter.GetTimestamp | src/filesystem/Adapter/CosAdapter.php:456-460 | `strtotime` of the stored date |
| CosAdapter.Adapter.GetVisibility | src/filesystem/Adapter/CosAdapter.php:469-490 | public iff a grant gives READ to a URI containing `global/AllUsers`, otherwise private |
| Visibility.ScanGrants | src/filesystem/Adapter/CosAdapter.php:477-486 | the grant scan answers public iff some grant lets everyone read, and private iff none does |
| CosAdapter.Adapter.SetVisibility | src/filesystem/Adapter/CosAdapter.php:293-304 | true iff the ACL is set, and then that object's grants become the normalised canned ACL. Afterwards the visibility reads back public exactly for an ACL other than private. Every other key, and every other field of the object, is unchanged |
| CosAdapter.Adapter.GetUrl | src/filesystem/Adapter/CosAdapter.php:273-283 | with a CDN, the prefixed path |
| CosAdapter.Adapter.GetTemporaryUrl | src/filesystem/Adapter/CosAdapter.php:500-511 | without a CDN, the signed URL; with one, as written, a `//` right after the CDN root |
| CosAdapter.TemporaryUrlDoubleSlash | src/filesystem/Adapter/CosAdapter.php:508 | a parsed path starting with `/` gives a double slash after the CDN root |
| CosAdapter.Adapter.GetTemporaryUrlFixed | src/filesystem/Adapter/CosAdapter.php:508 | corrected: one `/` between the CDN root and the key, with the key and the query reading back |
| CosAdapter.CdnUrl | src/filesystem/Adapter/CosAdapter.php:508 | the CDN URL of a key without leading `/` has one `/` after the root, then the key and the query |
| CosAdapter.DirPrefix | src/filesystem/Adapter/CosAdapter.php:365 | no prefix for the empty directory, otherwise the directory plus `/` |
| CosAdapter.CosRequest | src/filesystem/Adapter/CosAdapter.php:368-374 | no delimiter when recursive and `/` otherwise; the marker; 1000 keys |
| CosAdapter.ContinueMarker | src/filesystem/Adapter/CosAdapter.php:383 | the next marker, or "" exactly when PHP reads it as false |
| CosAdapter.NextCosRequest | src/filesystem/Adapter/CosAdapter.php:367-384 | as written, the loop goes on iff the page is truncated, with the next marker as PHP reads it |
| CosAdapter.ZeroMarkerRestarts | src/filesystem/Adapter/CosAdapter.php:383 | as written, after a truncated first page ending at key "0", the request of every later iteration is the first request again, so the loop never ends |
| CosAdapter.RequestRepeats | src/filesystem/Adapter/CosAdapter.php:367-384 | a request with no marker whose page is truncated at "0" is the loop's request at every iteration |
| CosAdapter.Adapter.NormalizeFileInfo | src/filesystem/Adapter/CosAdapter.php:620-634 | a directory iff the key ends in `/`; the path, size and time; the `pathinfo` parts, with "" for "." and for no extension |
| CosAdapter.BaseName | src/filesystem/Adapter/CosAdapter.php:630 | `pathinfo`'s basename has no `/` and ends the path without its trailing slashes, right after a `/` or at its start |
| CosAdapter.DirName | src/filesystem/Adapter/CosAdapter.php:629 | `pathinfo`'s dirname: absent iff the path is empty; never ends in `/` unless it is "/"; "." when no `/` precedes the base name, "/" for a path of slashes |
| CosAdapter.DirNameCut | src/filesystem/Adapter/CosAdapter.php:629 | when a `/` precedes the base name, the dirname begins the path and only slashes stand between it and the base name, "/" meaning none is left |
| CosAdapter.DirCut | src/filesystem/Adapter/CosAdapter.php:629 | the path cut at its last `/`: what is left before the run of slashes begins the path and does not end in `/` |
| CosAdapter.PathInfoSlashRun | src/filesystem/Adapter/CosAdapter.php:629-630 | "d//x.txt" has dirname "d" and basename "x.txt" |
| CosAdapter.PathInfoRoot | src/filesystem/Adapter/CosAdapter.php:629-630 | "/" has dirname "/" and basename "" |
| CosAdapter.SplitExtension | src/filesystem/Adapter/CosAdapter.php:631-632 | the split at the last `.`: the extension exists iff there is a `.`, and the parts rejoin |
| CosAdapter.Adapter.ListDirObjects | src/filesystem/Adapter/CosAdapter.php:361-387 | the loop with the next marker taken as it is, rather than through `?: ''` (line 383, modelled as written by `NextCosRequest`): the entries are exactly the objects under the prefix (without a further `/` unless recursive), once each and in key order |
| CosAdapter.Adapter.ListingMeaning | src/filesystem/Adapter/CosAdapter.php:361-387 | the normalised full listing names exactly those keys, in order |
| CosAdapter.ListedKeys | src/filesystem/Adapter/CosAdapter.php:367-384 | a listing from the start yields those keys, sorted |
| CosAdapter.Adapter.ListContents | src/filesystem/Adapter/CosAdapter.php:397-402 | as written, every listed path has `//` after the directory |
| CosAdapter.DoubleSlashOnly | src/filesystem/Adapter/CosAdapter.php:399 | the prefix listContents asks for ends in `//`, so only keys with a double slash are listed |
| CosAdapter.Adapter.ListContentsFixed | src/filesystem/Adapter/CosAdapter.php:397-402 | corrected: the entries are exactly the objects under the directory |
| CosAdapter.FixedPrefix | src/filesystem/Adapter/CosAdapter.php:399 | the corrected prefix is the same with or without a trailing `/` and never ends in `//` |
| CosAdapter.Adapter.DeleteDir | src/filesystem/Adapter/CosAdapter.php:209-228 | as written, nothing is deleted, and the answer is true whenever the listing goes through |
| CosAdapter.Adapter.DeleteDirFixed | src/filesystem/Adapter/CosAdapter.php:209-228 | corrected: the answer is true exactly when the listing goes through and either the delete goes through or no object lies directly in the directory. On a true answer every object directly in the directory is deleted; nothing else changes |
| CosAdapter.RemoveDirect | src/filesystem/Adapter/CosAdapter.php:209-228 | deleting the keys of a non-recursive listing removes exactly the objects directly in the directory, and the listing is empty exactly when there are none |
| QiniuAdapter.Adapter.constructor | src/filesystem/Adapter/QiniuAdapter.php:75-81 | the adapter keeps the bucket and the domain |
| QiniuAdapter.Adapter.Write | src/filesystem/Adapter/QiniuAdapter.php:92-114 | an insert-only upload, typed by the configured MIME type or `application/octet-stream`; it answers iff the call goes through and nothing different is stored; the response names the stored hash and the path |
| QiniuAdapter.Stream.Read | src/filesystem/Adapter/QiniuAdapter.php:129-131 | `fread` gives the next bytes and advances the position by at most the count |
| QiniuAdapter.Adapter.WriteStream | src/filesystem/Adapter/QiniuAdapter.php:125-140 | the stream is read to its end in chunks and the joined chunks are written; the answer is the path |
| QiniuAdapter.Adapter.Update | src/filesystem/Adapter/QiniuAdapter.php:151-156 | delete, then write, the delete's answer ignored. When the delete goes through, the update succeeds iff the write does and the path is not empty, and it replaces what was stored. When the delete fails, the insert-only write meets the old object: if the body differs, the update fails and the old object stays |
| QiniuAdapter.Adapter.UpdateStream | src/filesystem/Adapter/QiniuAdapter.php:167-172 | the same outcomes, with the stream's remaining bytes |
| QiniuAdapter.Adapter.Rename | src/filesystem/Adapter/QiniuAdapter.php:182-187 | a move that does not overwrite: true iff the source exists and the target does not |
| QiniuAdapter.Adapter.Copy | src/filesystem/Adapter/QiniuAdapter.php:197-202 | a copy that does not overwrite, with the same condition |
| QiniuAdapter.Adapter.Delete | src/filesystem/Adapter/QiniuAdapter.php:211-216 | true iff an object existed and was removed |
| QiniuAdapter.Adapter.DeleteDir | src/filesystem/Adapter/QiniuAdapter.php:225-228 | reports success without calling the provider |
| QiniuAdapter.Adapter.CreateDir | src/filesystem/Adapter/QiniuAdapter.php:238-241 | a directory record for the name, without calling the provider |
| QiniuAdapter.Adapter.Has | src/filesystem/Adapter/QiniuAdapter.php:250-255 | true iff the stat succeeds |
| QiniuAdapter.NormalizeFileInfo | src/filesystem/Adapter/QiniuAdapter.php:425-436 | always a file record; the timestamp is the upload time in whole seconds, rounded down; the other fields are copied |
| QiniuAdapter.Adapter.GetMetadata | src/filesystem/Adapter/QiniuAdapter.php:332-338 | as written, a file record for the path always; after a failed stat it has timestamp 0 and nothing else |
| QiniuAdapter.Adapter.GetMetadataFixed | src/filesystem/Adapter/QiniuAdapter.php:332-338 | corrected: nothing after a failed stat, otherwise the normalised stat |
| QiniuAdapter.Adapter.GetSize | src/filesystem/Adapter/QiniuAdapter.php:347-350 | the metadata record: the body's length, or no size when the stat fails |
| QiniuAdapter.Adapter.GetTimestamp | src/filesystem/Adapter/QiniuAdapter.php:377-380 | the metadata record: the upload time in seconds, or 0 when the stat fails |
| QiniuAdapter.Adapter.GetMimeType | src/filesystem/Adapter/QiniuAdapter.php:359-368 | the stored type; none when the stat fails or the type is PHP-empty |
| QiniuAdapter.Adapter.GetUrl | src/filesystem/Adapter/QiniuAdapter.php:264-270 | no `\` is left in the parsed path; the URL starts with the host, and the rest, raw-decoded, gives back the path without leading slashes and the non-empty query |
| UrlCodec.RawKeepsExactlyUnreserved | src/filesystem/Adapter/QiniuAdapter.php:269 | `rawurlencode` leaves a byte as it is iff it is unreserved |
| UrlCodec.EncodePathSegments | src/filesystem/Adapter/QiniuAdapter.php:269 | each encoded segment decodes to the matching segment of the path |
| UrlCodec.NormalizeHostShape | src/filesystem/Adapter/QiniuAdapter.php:411-418 | the host keeps the domain's scheme or gains `http://`, and loses only trailing slashes |
| UrlCodec.ParseUrlUnparse | src/filesystem/Adapter/QiniuAdapter.php:448-471 | the parsed parts rejoin to the URL with `\` turned into `/`, and the parsed path holds no `\` |
| UrlCodec.PublicUrlRoundTrip | src/filesystem/Adapter/QiniuAdapter.php:264-270 | the public URL starts with the host; parsed and decoded, it gives back the path without leading slashes and the kept query |
| QiniuAdapter.QiniuRequest | src/filesystem/Adapter/QiniuAdapter.php:316 | the list call uses the directory as prefix, no delimiter, the marker and 1000 keys |
| QiniuAdapter.Adapter.ListContents | src/filesystem/Adapter/QiniuAdapter.php:312-323 | as written, the records of the first 1000 objects under the directory, or none when the call fails |
| QiniuAdapter.FirstPageOnly | src/filesystem/Adapter/QiniuAdapter.php:316 | with more than 1000 objects, the object after the first 1000 is missing from the listing |
| QiniuAdapter.Adapter.ListContentsFixed | src/filesystem/Adapter/QiniuAdapter.php:312-323 | corrected: markers are followed to the end, so the records are those of every object under the directory, in key order |
| QiniuAdapter.UnderPaths | src/filesystem/Adapter/QiniuAdapter.php:317-320 | the listed records carry exactly the stored keys that begin with the directory |

## Left out

- Stream reads: `read` and `readStream` of all three adapters. They return the body through the
  SDK, so there is nothing to model beyond the bucket lookup.
- Stream writes of OBS and COS: `writeStream` and `updateStream` of `ObsAdapter` and `CosAdapter`.
  Only Qiniu's chunked read loop is modelled.
- The empty `fread` PHP makes at end of file: `QiniuAdapter.Stream.Read` stops at the end of the
  data.
- COS `getUrl` without a CDN: the URL is the SDK's object URL, and the SDK is not part of this
  model.
- Request signing: the signed URL of `getTemporaryUrl` is taken as a parameter.
- COS copy source: the source names the bucket without the app id, and the provider is taken to
  resolve the key after the host. How the provider resolves other bucket names is not modelled.
- OBS copy source: `copy` passes the bare key as `CopySource`, and the model takes it as a key of
  the same bucket. How the provider resolves a `CopySource` without a bucket name is not
  modelled; this reading underlies `ObsAdapter.Adapter.Copy`, `CopyFixed`, `Rename` and
  `RenameFixed`.
- OBS listing call: `listDirObjects` calls `listObjects($this->bucket, $options)` with the
  options as a second argument (ObsAdapter.php:372). The model takes the SDK to read that
  argument as the request (prefix, marker, delimiter, MaxKeys); the SDK is not part of this model.
- Server-side encryption: `prepareUploadConfig` sets AES256, but the bucket model does not record
  encryption.
- Qiniu `recursive`: the flag is ignored by `listContents`, as in the code.
- Qiniu uploads: modelled as insert-only (an upload over a different body fails). This is how the
  upload manager behaves without an overwrite scope; the SDK itself is not part of this model.
- Clients and credentials: the lazy client getters and the access and secret keys only build and
  sign requests.
- `strtotime`, `applyPathPrefix`: uninterpreted parameters.
- `parse_url`: only the path/query split the adapters use is modelled, not general URL parsing.
- `pathinfo`: only its parts `dirname`, `basename`, `filename` and `extension` of a key are modelled,
  byte by byte; its locale-dependent handling of multibyte base names is not.
- One status for a read-only operation of several calls: each page of a listing loop
  (`listDirObjects` of OBS and COS, the corrected Qiniu `listContents`) takes the same `status`. So
  do OBS `listContents`'s list calls and its head request for each object. A listing in which one
  page or head request fails and another succeeds is not modelled.
- QiniuAdapter.NormalizeFileInfo: divides `putTime` exactly and rounds down. PHP divides it as a
  double, so for a `putTime` of 2^53 or more lying within a few units below a whole second, PHP's
  timestamp is one second higher. Current upload times are above 2^53.
- Configuration parameters: the COS config `params` is read as a value.
- Driver factories: the classes in `src/filesystem/driver/` only construct the adapters and are not
  part of this model.
- Exceptions: a thrown SDK exception is a status outside 2xx, and the adapters' catch blocks are
  modelled as the failure answers they return.

## Findings

| source | as written | input that shows it | evidently intended | confidence | as-written member | corrected member |
|---|---|---|---|---|---|---|
| src/filesystem/Adapter/ObsAdapter.php:188-202 | `copy($path, $newpath)` sends `path` as the key and `newpath` as the copy source, so the copy runs backwards; `rename` then deletes `path` | `rename("a", "b")` with only "a" stored | `path` copied onto `newpath`, then `path` deleted | high, not executed | ObsAdapter.Adapter.Copy | ObsAdapter.Adapter.CopyFixed |
| src/filesystem/Adapter/ObsAdapter.php:166-178 | a successful rename removes `path` and leaves `newpath` as it was | `rename("a", "b")` with "a" and "b" stored: "a" is gone and "b" still holds its old body | the object moves to `newpath` | high, not executed | ObsAdapter.Adapter.Rename | ObsAdapter.Adapter.RenameFixed |
| src/filesystem/Adapter/ObsAdapter.php:478 | `getMetadata`'s `Size` is filled from `LastModified` | any stored object: `getSize` returns its date text | the object's length | high, not executed | ObsAdapter.MetadataSizes | ObsAdapter.Adapter.GetMetadataFixed |
| src/filesystem/Adapter/ObsAdapter.php:63-74 | the constructor never sets `$this->bucket`, so every call names no bucket | any call after construction | the configured bucket is named | medium, not executed | ObsAdapter.Adapter.UnconfiguredRejects | ObsAdapter.Adapter.WithBucket |
| src/filesystem/Adapter/ObsAdapter.php:391-393 | an empty `Contents` on a later page resets the objects gathered so far | 1000 files and one subfolder under "d/", listed non-recursively: the second page has only the prefix, so no objects are returned | objects of every page kept | high, not executed | ObsAdapter.ObsLastPageDropsObjects | ObsAdapter.Adapter.ListDirObjectsFixed |
| src/filesystem/Adapter/ObsAdapter.php:403-409 | the recursion walks all prefixes gathered so far on every page | a recursive listing over two pages, each with objects and subfolders: the first page's subfolders are listed twice | each subfolder listed once | high, not executed | ObsAdapter.ObsRecursionDuplicates | ObsAdapter.ObsListFixedRecursive |
| src/filesystem/Adapter/CosAdapter.php:209-228 | `deleteDir` looks for a `Contents` entry that `listDirObjects` never returns, so nothing is deleted | `deleteDir("d")` with "d/a" stored: "d/a" remains and the answer is true | the listed objects deleted | high, not executed | CosAdapter.Adapter.DeleteDir | CosAdapter.Adapter.DeleteDirFixed |
| src/filesystem/Adapter/CosAdapter.php:399 | `listContents` appends `/` and `listDirObjects` appends another, so the prefix ends in `//` | `listContents("d")` with "d/a" stored lists nothing | the prefix "d/" | high, not executed | CosAdapter.DoubleSlashOnly | CosAdapter.Adapter.ListContentsFixed |
| src/filesystem/Adapter/CosAdapter.php:508 | the CDN root, `/`, then the parsed path, which begins with `/` | cdn "https://cdn.example.com", signed path "/a.txt", query "sign=1": "https://cdn.example.com//a.txt?sign=1" | one `/` between root and key | high, not executed | CosAdapter.TemporaryUrlDoubleSlash | CosAdapter.Adapter.GetTemporaryUrlFixed |
| src/filesystem/Adapter/CosAdapter.php:383 | `NextMarker ?: ''` reads the marker "0" as false | a truncated first page whose last key is "0": the loop restarts from the first page forever | the marker "0" followed | medium, not executed | CosAdapter.ZeroMarkerRestarts | CosAdapter.Adapter.ListDirObjects |
| src/filesystem/Adapter/QiniuAdapter.php:312-323 | one `listFiles` call, whose marker is ignored | a directory with 1001 objects: the 1001st is missing | every object under the directory | high, not executed | QiniuAdapter.FirstPageOnly | QiniuAdapter.Adapter.ListContentsFixed |
| src/filesystem/Adapter/QiniuAdapter.php:332-338 | after a failed stat, `$result[0]['key'] = $path` makes a record, so `getMetadata` never returns false | `getMetadata("missing")` gives a file record with timestamp 0 | false for a missing file | medium, not executed | QiniuAdapter.Adapter.GetMetadata | QiniuAdapter.Adapter.GetMetadataFixed |
