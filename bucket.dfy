/** The abstract bucket the three providers' SDKs stand for: objects under their keys, kept in the
    lexicographic key order the providers list them in. */
module Bucket {
  import opened Wrappers
  import opened Text

  /** One entry of an object's access-control list: who (a group URI, when the grantee is a group)
      and what permission. */
  datatype Grant = Grant(granteeUri: Option<string>, permission: string)

  /** What the provider records when it stores an object: its date text, entity tag, MD5 text,
      the Qiniu upload time in units of 100 nanoseconds, and the storage class. */
  datatype Stamp = Stamp(lastModified: string, etag: string, md5: string, putTime: nat, storageClass: string)

  /** What the provider keeps for an object. */
  datatype StoredObject = StoredObject(body: string, contentType: string, grants: seq<Grant>, stamp: Stamp)

  datatype Entry = Entry(key: string, obj: StoredObject)

  /** Keys strictly increase: no key twice, listing order. */
  predicate Sorted(es: seq<Entry>) {
    forall i, j :: 0 <= i < j < |es| ==> Below(es[i].key, es[j].key)
  }

  /** A bucket's entries: sorted, and no object under the empty key. */
  predicate Wellformed(es: seq<Entry>) {
    Sorted(es) && forall i :: 0 <= i < |es| ==> es[i].key != ""
  }

  /** The object stored under `key`. */
  function Find(es: seq<Entry>, key: string): (r: Option<StoredObject>)
    ensures r.Some? <==> exists i :: 0 <= i < |es| && es[i].key == key
    ensures r.Some? ==> exists i :: 0 <= i < |es| && es[i].key == key && es[i].obj == r.value
  {
    if es == [] then None
    else if es[0].key == key then Some(es[0].obj)
    else
      var r := Find(es[1..], key);
      assert forall i :: 0 < i < |es| ==> es[i] == es[1..][i - 1];
      assert r.Some? ==> exists i :: 0 <= i < |es| && es[i].key == key && es[i].obj == r.value by {
        if r.Some? {
          var i :| 0 <= i < |es[1..]| && es[1..][i].key == key && es[1..][i].obj == r.value;
          assert es[i + 1] == es[1..][i];
        }
      }
      r
  }

  /** The keys of entries, in order. */
  function EntryKeys(es: seq<Entry>): (ks: seq<string>)
    ensures |ks| == |es| && forall i :: 0 <= i < |ks| ==> ks[i] == es[i].key
  {
    seq(|es|, i requires 0 <= i < |es| => es[i].key)
  }

  /** In a sorted bucket the entry found is the one at any index holding the key. */
  lemma FindAt(es: seq<Entry>, i: nat)
    requires Sorted(es) && i < |es|
    ensures Find(es, es[i].key) == Some(es[i].obj)
  {
    var r := Find(es, es[i].key);
    var j :| 0 <= j < |es| && es[j].key == es[i].key && es[j].obj == r.value;
    if j != i {
      if j < i { BelowIrreflexive(es[i].key); } else { BelowIrreflexive(es[i].key); }
    }
  }

  /** The entries with `e` stored under its key: an existing object under that key is replaced,
      otherwise `e` goes where the order puts it. */
  function Put(es: seq<Entry>, e: Entry): (r: seq<Entry>)
    requires Sorted(es)
    ensures Sorted(r)
    ensures forall x :: x in r ==> x in es || x == e
    ensures e in r
    decreases |es|
  {
    if es == [] then [e]
    else if es[0].key == e.key then [e] + es[1..]
    else if Below(e.key, es[0].key) then
      assert forall j :: 0 < j < |es| ==> Below(e.key, es[j].key) by {
        forall j | 0 < j < |es| ensures Below(e.key, es[j].key) {
          BelowTransitive(e.key, es[0].key, es[j].key);
        }
      }
      [e] + es
    else
      var rest := Put(es[1..], e);
      BelowTotal(e.key, es[0].key);
      assert forall x :: x in rest ==> Below(es[0].key, x.key) by {
        forall x | x in rest ensures Below(es[0].key, x.key) {
          if x != e {
            var j :| 0 <= j < |es[1..]| && es[1..][j] == x;
            assert es[j + 1] == x;
          }
        }
      }
      assert forall x :: x in rest ==> x in es || x == e by {
        forall x | x in rest && x != e ensures x in es {
          var j :| 0 <= j < |es[1..]| && es[1..][j] == x;
          assert es[j + 1] == x;
        }
      }
      [es[0]] + rest
  }

  /** Storing an object changes what is found under its key and nothing else. */
  lemma PutFind(es: seq<Entry>, e: Entry, k: string)
    requires Sorted(es)
    ensures Find(Put(es, e), k) == if k == e.key then Some(e.obj) else Find(es, k)
  {
    var r := Put(es, e);
    if k == e.key {
      var i :| 0 <= i < |r| && r[i] == e;
      FindAt(r, i);
    } else {
      match Find(r, k)
      case Some(o) =>
        var j :| 0 <= j < |r| && r[j].key == k && r[j].obj == o;
        assert r[j] in r && r[j] != e;
        var m :| 0 <= m < |es| && es[m] == r[j];
        FindAt(es, m);
      case None =>
        if Find(es, k).Some? {
          var m :| 0 <= m < |es| && es[m].key == k;
          PutKeeps(es, e, m);
          assert false;
        }
    }
  }

  /** Every entry under another key survives `Put`. */
  lemma {:induction false} PutKeeps(es: seq<Entry>, e: Entry, m: nat)
    requires Sorted(es) && m < |es| && es[m].key != e.key
    ensures es[m] in Put(es, e)
    decreases |es|
  {
    if es[0].key != e.key && !Below(e.key, es[0].key) && m > 0 {
      assert es[1..][m - 1] == es[m];
      PutKeeps(es[1..], e, m - 1);
    }
  }

  /** The entries without the one under `key`. */
  function Remove(es: seq<Entry>, key: string): (r: seq<Entry>)
    ensures forall x :: x in r <==> x in es && x.key != key
    ensures |r| <= |es|
  {
    if es == [] then []
    else
      var rest := Remove(es[1..], key);
      assert forall x :: x in es <==> x == es[0] || x in es[1..];
      if es[0].key == key then rest else [es[0]] + rest
  }

  lemma {:induction false} RemoveSorted(es: seq<Entry>, key: string)
    requires Sorted(es)
    ensures Sorted(Remove(es, key))
    decreases |es|
  {
    if es != [] {
      RemoveSorted(es[1..], key);
      var rest := Remove(es[1..], key);
      forall x | x in rest ensures Below(es[0].key, x.key) {
        var j :| 0 <= j < |es[1..]| && es[1..][j] == x;
        assert es[j + 1] == x;
      }
    }
  }

  /** Removing an object changes what is found under its key, to nothing, and nothing else. */
  lemma RemoveFind(es: seq<Entry>, key: string, k: string)
    requires Sorted(es)
    ensures Find(Remove(es, key), k) == if k == key then None else Find(es, k)
  {
    RemoveSorted(es, key);
    var r := Remove(es, key);
    match Find(r, k)
    case Some(o) =>
      var j :| 0 <= j < |r| && r[j].key == k && r[j].obj == o;
      assert r[j] in r;
      assert r[j] in es && k != key;
      var m :| 0 <= m < |es| && es[m] == r[j];
      FindAt(es, m);
    case None =>
      if k != key && Find(es, k).Some? {
        assert false;
      }
  }

  /** A wellformed bucket stays wellformed under `Put` of an object with a key and under `Remove`. */
  lemma PutWellformed(es: seq<Entry>, e: Entry)
    requires Wellformed(es) && e.key != ""
    ensures Wellformed(Put(es, e))
  {
    var r := Put(es, e);
    forall i | 0 <= i < |r| ensures r[i].key != "" {
      assert r[i] in r;
    }
  }

  /** The entries without those under any of `keys` (a multi-object delete). */
  function RemoveAll(es: seq<Entry>, keys: seq<string>): (r: seq<Entry>)
    ensures forall x :: x in r <==> x in es && x.key !in keys
    decreases |keys|
  {
    if keys == [] then es else RemoveAll(Remove(es, keys[0]), keys[1..])
  }

  lemma {:induction false} RemoveAllFind(es: seq<Entry>, keys: seq<string>, k: string)
    requires Sorted(es)
    ensures Sorted(RemoveAll(es, keys))
    ensures Find(RemoveAll(es, keys), k) == if k in keys then None else Find(es, k)
    decreases |keys|
  {
    if keys != [] {
      RemoveSorted(es, keys[0]);
      RemoveFind(es, keys[0], k);
      RemoveAllFind(Remove(es, keys[0]), keys[1..], k);
    }
  }

  /** Removing one more key after a multi-object delete is the multi-object delete with that key
      appended. */
  lemma {:induction false} RemoveAllSnoc(es: seq<Entry>, keys: seq<string>, k: string)
    ensures RemoveAll(es, keys + [k]) == Remove(RemoveAll(es, keys), k)
    decreases |keys|
  {
    if keys == [] {
      assert RemoveAll(es, [k]) == RemoveAll(Remove(es, k), []);
    } else {
      assert (keys + [k])[0] == keys[0] && (keys + [k])[1..] == keys[1..] + [k];
      RemoveAllSnoc(Remove(es, keys[0]), keys[1..], k);
    }
  }

  /** The deletes of the first `i + 1` keys: those of the first `i`, then key `i`. */
  lemma RemoveAllStep(es: seq<Entry>, keys: seq<string>, i: nat)
    requires i < |keys|
    ensures RemoveAll(es, keys[..i + 1]) == Remove(RemoveAll(es, keys[..i]), keys[i])
  {
    assert keys[..i + 1] == keys[..i] + [keys[i]];
    RemoveAllSnoc(es, keys[..i], keys[i]);
  }

  lemma RemoveWellformed(es: seq<Entry>, key: string)
    requires Wellformed(es)
    ensures Wellformed(Remove(es, key))
  {
    RemoveSorted(es, key);
    var r := Remove(es, key);
    forall i | 0 <= i < |r| ensures r[i].key != "" {
      assert r[i] in r;
    }
  }

  lemma RemoveAllWellformed(es: seq<Entry>, keys: seq<string>)
    requires Wellformed(es)
    ensures Wellformed(RemoveAll(es, keys))
  {
    var r := RemoveAll(es, keys);
    RemoveAllFind(es, keys, "");
    forall i | 0 <= i < |r| ensures r[i].key != "" {
      assert r[i] in r;
    }
  }
}
