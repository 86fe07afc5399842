/** The provider side every adapter talks to: one bucket of objects, and the SDK calls the adapters
    make on it. A call either reaches the bucket and changes or reads it, or fails; the provider's
    answer (its HTTP status) is a parameter, and a 2xx answer to a call naming the bucket is what
    lets it through. Provider-assigned values (dates, entity tags) come in as a `Stamp`. */
module Store {
  import opened Wrappers
  import opened Text
  import opened Bucket
  import opened Listing

  const AclPrivate := "private"
  const AclPublicRead := "public-read"
  const AclPublicReadWrite := "public-read-write"
  const PermissionRead := "READ"
  const PermissionWrite := "WRITE"

  /** The owner's grant: a grantee without a group URI. Every object has it. */
  const OwnerOnly: seq<Grant> := [Grant(None, "FULL_CONTROL")]

  /** The object a copy leaves at its destination: the source's body and type, private, newly
      stamped. */
  function CopyOf(o: StoredObject, stamp: Stamp): StoredObject {
    StoredObject(o.body, o.contentType, OwnerOnly, stamp)
  }

  /** The grants a canned ACL stands for; nothing for a name the provider does not know. */
  function CannedGrants(acl: string, allUsersUri: string): (r: Option<seq<Grant>>)
    ensures r.Some? <==> acl == AclPrivate || acl == AclPublicRead || acl == AclPublicReadWrite
    ensures r.Some? ==> |r.value| >= 1 && r.value[0] == OwnerOnly[0]
  {
    if acl == AclPrivate then Some(OwnerOnly)
    else if acl == AclPublicRead then Some(OwnerOnly + [Grant(Some(allUsersUri), PermissionRead)])
    else if acl == AclPublicReadWrite then
      Some(OwnerOnly + [Grant(Some(allUsersUri), PermissionRead), Grant(Some(allUsersUri), PermissionWrite)])
    else None
  }

  /** The bucket of one provider account, as the SDK client sees it. */
  class ObjectStore {
    const name: string
    /** The URI the provider gives the everyone-group grantee. */
    const allUsersUri: string
    var entries: seq<Entry>

    predicate Valid()
      reads this
    {
      Wellformed(entries)
    }

    constructor (name: string, allUsersUri: string)
      ensures this.name == name && this.allUsersUri == allUsersUri
      ensures entries == [] && Valid()
    {
      this.name := name;
      this.allUsersUri := allUsersUri;
      entries := [];
    }

    /** The object under `key` now. */
    function Lookup(key: string): Option<StoredObject>
      reads this
    {
      Find(entries, key)
    }

    /** A call naming `bucket` that the provider answers with `status` gets through. */
    predicate Accepts(bucket: Option<string>, status: int) {
      bucket == Some(name) && 200 <= status < 300
    }

    /** The grants an upload gets: the canned ACL asked for, private when none. */
    function UploadGrants(acl: Option<string>): Option<seq<Grant>> {
      if acl.None? then Some(OwnerOnly) else CannedGrants(acl.value, allUsersUri)
    }

    /** Stores `body` under `key`, replacing what was there. */
    method PutObject(bucket: Option<string>, key: string, body: string, contentType: string,
                     acl: Option<string>, stamp: Stamp, status: int) returns (ok: bool)
      requires Valid()
      modifies this
      ensures Valid()
      ensures ok <==> Accepts(bucket, status) && key != "" && UploadGrants(acl).Some?
      ensures ok ==> entries == Put(old(entries), Entry(key, StoredObject(body, contentType, UploadGrants(acl).value, stamp)))
      ensures !ok ==> entries == old(entries)
    {
      ok := Accepts(bucket, status) && key != "" && UploadGrants(acl).Some?;
      if ok {
        var e := Entry(key, StoredObject(body, contentType, UploadGrants(acl).value, stamp));
        PutWellformed(entries, e);
        entries := Put(entries, e);
      }
    }

    /** Uploads `body` under `key` with an insert-only policy (an upload token scoped to the bucket
        alone): refused when a different body is already stored under `key`; the same body again
        succeeds and leaves the stored object as it is. */
    method InsertObject(bucket: Option<string>, key: string, body: string, contentType: string,
                        stamp: Stamp, status: int) returns (ok: bool)
      requires Valid()
      modifies this
      ensures Valid()
      ensures ok <==> (Accepts(bucket, status) && key != "" &&
        (old(Lookup(key)).None? || old(Lookup(key)).value.body == body))
      ensures entries == if ok && old(Lookup(key)).None?
        then Put(old(entries), Entry(key, StoredObject(body, contentType, OwnerOnly, stamp)))
        else old(entries)
    {
      var existing := Lookup(key);
      ok := Accepts(bucket, status) && key != "" && (existing.None? || existing.value.body == body);
      if ok && existing.None? {
        var e := Entry(key, StoredObject(body, contentType, OwnerOnly, stamp));
        PutWellformed(entries, e);
        entries := Put(entries, e);
      }
    }

    /** Deletes the object under `key`; deleting a missing key succeeds too. */
    method DeleteObject(bucket: Option<string>, key: string, status: int) returns (ok: bool)
      requires Valid()
      modifies this
      ensures Valid()
      ensures ok <==> Accepts(bucket, status)
      ensures entries == if ok then Remove(old(entries), key) else old(entries)
    {
      ok := Accepts(bucket, status);
      if ok {
        RemoveWellformed(entries, key);
        entries := Remove(entries, key);
      }
    }

    /** Deletes the objects under all of `keys` in one call. */
    method DeleteObjects(bucket: Option<string>, keys: seq<string>, status: int) returns (ok: bool)
      requires Valid()
      modifies this
      ensures Valid()
      ensures ok <==> Accepts(bucket, status)
      ensures entries == if ok then RemoveAll(old(entries), keys) else old(entries)
    {
      ok := Accepts(bucket, status);
      if ok {
        RemoveAllWellformed(entries, keys);
        entries := RemoveAll(entries, keys);
      }
    }

    /** Deletes the object under `key`, failing when there is none (Qiniu's bucket manager). */
    method DeleteFile(bucket: Option<string>, key: string, status: int) returns (ok: bool)
      requires Valid()
      modifies this
      ensures Valid()
      ensures ok <==> Accepts(bucket, status) && old(Lookup(key)).Some?
      ensures entries == if ok then Remove(old(entries), key) else old(entries)
    {
      ok := Accepts(bucket, status) && Lookup(key).Some?;
      if ok {
        RemoveWellformed(entries, key);
        entries := Remove(entries, key);
      }
    }

    /** Copies the object under `source` to `dest`, replacing what was there; the copy is private. */
    method CopyObject(bucket: Option<string>, dest: string, source: string, stamp: Stamp, status: int)
      returns (ok: bool)
      requires Valid()
      modifies this
      ensures Valid()
      ensures ok <==> Accepts(bucket, status) && dest != "" && old(Lookup(source)).Some?
      ensures ok ==> var src := old(Lookup(source)).value;
        entries == Put(old(entries), Entry(dest, CopyOf(src, stamp)))
      ensures !ok ==> entries == old(entries)
    {
      var src := Lookup(source);
      ok := Accepts(bucket, status) && dest != "" && src.Some?;
      if ok {
        var e := Entry(dest, CopyOf(src.value, stamp));
        PutWellformed(entries, e);
        entries := Put(entries, e);
      }
    }

    /** Copies without overwriting (Qiniu's copy without `force`): the object keeps all it had. */
    method CopyFile(bucket: Option<string>, source: string, dest: string, status: int) returns (ok: bool)
      requires Valid()
      modifies this
      ensures Valid()
      ensures ok <==> Accepts(bucket, status) && dest != "" && old(Lookup(source)).Some? && old(Lookup(dest)).None?
      ensures ok ==> entries == Put(old(entries), Entry(dest, old(Lookup(source)).value))
      ensures !ok ==> entries == old(entries)
    {
      var src := Lookup(source);
      ok := Accepts(bucket, status) && dest != "" && src.Some? && Lookup(dest).None?;
      if ok {
        var e := Entry(dest, src.value);
        PutWellformed(entries, e);
        entries := Put(entries, e);
      }
    }

    /** Moves without overwriting (Qiniu's move without `force`). */
    method MoveFile(bucket: Option<string>, source: string, dest: string, status: int) returns (ok: bool)
      requires Valid()
      modifies this
      ensures Valid()
      ensures ok <==> Accepts(bucket, status) && dest != "" && old(Lookup(source)).Some? && old(Lookup(dest)).None?
      ensures ok ==> entries == Remove(Put(old(entries), Entry(dest, old(Lookup(source)).value)), source)
      ensures !ok ==> entries == old(entries)
    {
      var src := Lookup(source);
      ok := Accepts(bucket, status) && dest != "" && src.Some? && Lookup(dest).None?;
      if ok {
        var e := Entry(dest, src.value);
        PutWellformed(entries, e);
        RemoveWellformed(Put(entries, e), source);
        entries := Remove(Put(entries, e), source);
      }
    }

    /** The object under `key`, when the call gets through and there is one. */
    method HeadObject(bucket: Option<string>, key: string, status: int) returns (r: Option<StoredObject>)
      ensures r.Some? <==> Accepts(bucket, status) && Lookup(key).Some?
      ensures r.Some? ==> r == Lookup(key)
    {
      r := if Accepts(bucket, status) then Lookup(key) else None;
    }

    /** The grants of the object under `key`. */
    method GetObjectAcl(bucket: Option<string>, key: string, status: int) returns (r: Option<seq<Grant>>)
      ensures r.Some? <==> Accepts(bucket, status) && Lookup(key).Some?
      ensures r.Some? ==> r.value == Lookup(key).value.grants
    {
      var o := Lookup(key);
      r := if Accepts(bucket, status) && o.Some? then Some(o.value.grants) else None;
    }

    /** Replaces the grants of the object under `key` with those of a canned ACL. */
    method SetObjectAcl(bucket: Option<string>, key: string, acl: string, status: int) returns (ok: bool)
      requires Valid()
      modifies this
      ensures Valid()
      ensures ok <==> Accepts(bucket, status) && old(Lookup(key)).Some? && CannedGrants(acl, allUsersUri).Some?
      ensures ok ==> entries == Put(old(entries), Entry(key, old(Lookup(key)).value.(grants := CannedGrants(acl, allUsersUri).value)))
      ensures !ok ==> entries == old(entries)
    {
      var o := Lookup(key);
      var grants := CannedGrants(acl, allUsersUri);
      ok := Accepts(bucket, status) && o.Some? && grants.Some?;
      if ok {
        var e := Entry(key, o.value.(grants := grants.value));
        PutWellformed(entries, e);
        entries := Put(entries, e);
      }
    }

    /** One page of the listing `req` asks for. */
    method ListObjectsPage(bucket: Option<string>, req: ListRequest, status: int) returns (r: Option<Page>)
      requires req.maxKeys > 0
      ensures r.Some? <==> Accepts(bucket, status)
      ensures r.Some? ==> r.value == ListObjects(entries, req)
    {
      r := if Accepts(bucket, status) then Some(ListObjects(entries, req)) else None;
    }
  }
}
