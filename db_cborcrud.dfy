/** db/cborcrud.go and db/server.go: a typed view of one bbolt bucket whose values are
    CBOR documents. The stored bytes are abstracted: a key holds an empty value, the
    encoding of a T, or bytes that do not decode. The bucket itself may be missing. */
module Db {
  import opened Common

  /** What the bytes stored under a key decode to. */
  datatype Blob<T> = Empty | Encoded(value: T) | Garbage

  /** The bucket's contents, or None when the bucket does not exist. */
  type Bucket<T> = Option<map<string, Blob<T>>>

  /** The errors the operations return. */
  datatype Error = BucketNotFound(bucket: string) | NotFound | AlreadyExists | DecodeFailed

  function ErrorText(e: Error): string {
    match e
    case BucketNotFound(b) => b + " bucket not found"
    case NotFound => "not found"
    case AlreadyExists => "already exists"
    case DecodeFailed => "cbor: cannot decode"
  }

  /** A key counts as present when its stored bytes are not empty. */
  predicate Present<T>(m: map<string, Blob<T>>, key: string) {
    key in m && !m[key].Empty?
  }

  /** Get, on the bucket's contents. */
  function GetIn<T>(name: string, b: Bucket<T>, key: string): (r: Result<T, Error>)
    ensures r.Ok? <==> b.Some? && key in b.value && b.value[key].Encoded?
    ensures r.Ok? ==> b.value[key] == Encoded(r.value)
    ensures b.None? ==> r == Err(BucketNotFound(name))
    ensures b.Some? && !Present(b.value, key) ==> r == Err(NotFound)
  {
    if b.None? then Err(BucketNotFound(name))
    else if key !in b.value || b.value[key].Empty? then Err(NotFound)
    else if b.value[key].Garbage? then Err(DecodeFailed)
    else Ok(b.value[key].value)
  }

  /** Put, on the bucket's contents: the new contents and the error. */
  function PutIn<T>(name: string, b: Bucket<T>, key: string, value: T): (r: (Bucket<T>, Option<Error>))
  {
    if b.None? then (b, Some(BucketNotFound(name)))
    else (Some(b.value[key := Encoded(value)]), None)
  }

  /** Add, on the bucket's contents. */
  function AddIn<T>(name: string, b: Bucket<T>, key: string, value: T): (r: (Bucket<T>, Option<Error>))
  {
    if b.None? then (b, Some(BucketNotFound(name)))
    else if Present(b.value, key) then (b, Some(AlreadyExists))
    else (Some(b.value[key := Encoded(value)]), None)
  }

  /** Delete, on the bucket's contents. */
  function DeleteIn<T>(name: string, b: Bucket<T>, key: string): (r: (Bucket<T>, Option<Error>))
  {
    if b.None? then (b, Some(BucketNotFound(name)))
    else if !Present(b.value, key) then (b, Some(NotFound))
    else (Some(b.value - {key}), None)
  }

  /** Every operation on a missing bucket fails with "bucket not found" and changes
      nothing. */
  lemma MissingBucket<T>(name: string, key: string, value: T)
    ensures GetIn<T>(name, None, key) == Err(BucketNotFound(name))
    ensures PutIn<T>(name, None, key, value) == (None, Some(BucketNotFound(name)))
    ensures AddIn<T>(name, None, key, value) == (None, Some(BucketNotFound(name)))
    ensures DeleteIn<T>(name, None, key) == (None, Some(BucketNotFound(name)))
  {
  }

  /** Put stores the value whatever was there, and leaves every other key alone. */
  lemma GetAfterPut<T>(name: string, b: Bucket<T>, key: string, value: T, other: string)
    requires b.Some? && other != key
    ensures PutIn(name, b, key, value).1 == None
    ensures GetIn(name, PutIn(name, b, key, value).0, key) == Ok(value)
    ensures GetIn(name, PutIn(name, b, key, value).0, other) == GetIn(name, b, other)
  {
  }

  /** Add fails with "already exists" and writes nothing exactly when the key is
      present; otherwise it does what Put does. */
  lemma AddIsGuardedPut<T>(name: string, b: Bucket<T>, key: string, value: T)
    requires b.Some?
    ensures AddIn(name, b, key, value).1 == Some(AlreadyExists) <==> Present(b.value, key)
    ensures Present(b.value, key) ==> AddIn(name, b, key, value).0 == b
    ensures !Present(b.value, key) ==> AddIn(name, b, key, value) == PutIn(name, b, key, value)
  {
  }

  /** Delete fails with "not found" exactly when the key is absent; otherwise it
      removes that key only, after which Get reports "not found" and Add succeeds. */
  lemma DeleteRemovesOnlyKey<T>(name: string, b: Bucket<T>, key: string, other: string, value: T)
    requires b.Some? && other != key
    ensures DeleteIn(name, b, key).1 == Some(NotFound) <==> !Present(b.value, key)
    ensures Present(b.value, key) ==> DeleteIn(name, b, key).1 == None
    ensures GetIn(name, DeleteIn(name, b, key).0, key) == Err(NotFound)
    ensures GetIn(name, DeleteIn(name, b, key).0, other) == GetIn(name, b, other)
    ensures AddIn(name, DeleteIn(name, b, key).0, key, value).1 == None
  {
  }

  function KeysOf<T>(entries: seq<(string, T)>): set<string> {
    set i | 0 <= i < |entries| :: entries[i].0
  }

  lemma KeysOfAppend<T>(a: seq<(string, T)>, x: (string, T))
    ensures KeysOf(a + [x]) == KeysOf(a) + {x.0}
  {
    var b := a + [x];
    forall k | k in KeysOf(b) ensures k in KeysOf(a) + {x.0} {
      var i :| 0 <= i < |b| && b[i].0 == k;
      if i < |a| {
        assert a[i] == b[i];
      }
    }
    forall k | k in KeysOf(a) ensures k in KeysOf(b) {
      var i :| 0 <= i < |a| && a[i].0 == k;
      assert b[i] == a[i];
    }
    assert b[|a|].0 == x.0;
  }

  lemma KeysOfPrepend<T>(x: (string, T), a: seq<(string, T)>)
    ensures KeysOf([x] + a) == {x.0} + KeysOf(a)
  {
    var b := [x] + a;
    forall k | k in KeysOf(b) ensures k in {x.0} + KeysOf(a) {
      var i :| 0 <= i < |b| && b[i].0 == k;
      if i > 0 {
        assert a[i - 1] == b[i];
      }
    }
    forall k | k in KeysOf(a) ensures k in KeysOf(b) {
      var i :| 0 <= i < |a| && a[i].0 == k;
      assert b[i + 1] == a[i];
    }
    assert b[0].0 == x.0;
  }

  /** Keys in strictly ascending byte order, the order bbolt's ForEach visits them. */
  predicate Ascending<T>(entries: seq<(string, T)>) {
    forall i, j :: 0 <= i < j < |entries| ==> Below(entries[i].0, entries[j].0)
  }

  /** The entries GetAll returns: every key once, in ascending order, each with its
      decoded value. */
  predicate Listing<T(==)>(m: map<string, Blob<T>>, entries: seq<(string, T)>) {
    (forall i, j :: 0 <= i < j < |entries| ==> entries[i].0 != entries[j].0)
    && Ascending(entries)
    && (forall e <- entries :: e.0 in m && m[e.0] == Encoded(e.1))
    && KeysOf(entries) == m.Keys
  }

  /** The first key of an ascending listing is below every other key in it. */
  lemma FirstIsLeast<T>(entries: seq<(string, T)>, k: string)
    requires Ascending(entries) && k in KeysOf(entries)
    ensures entries != [] && (k == entries[0].0 || Below(entries[0].0, k))
  {
    var i :| 0 <= i < |entries| && entries[i].0 == k;
  }

  /** A bucket has one listing only: the order is fixed by the keys and the values by
      the bucket, so GetAll's answer is determined. */
  lemma {:induction false} ListingUnique<T>(m: map<string, Blob<T>>, e1: seq<(string, T)>, e2: seq<(string, T)>)
    requires Listing(m, e1) && Listing(m, e2)
    ensures e1 == e2
    decreases |e1|
  {
    assert e1 != [] ==> e1[0].0 in KeysOf(e1);
    assert e2 != [] ==> e2[0].0 in KeysOf(e2);
    if e1 != [] && e2 != [] {
      var x, y := e1[0].0, e2[0].0;
      FirstIsLeast(e1, y);
      FirstIsLeast(e2, x);
      BelowAsymmetric(x, y);
      assert x == y;
      assert e1[0] in e1 && e2[0] in e2;
      assert e1[0] == e2[0];
      var t1, t2 := e1[1..], e2[1..];
      var m' := m - {x};
      assert e1 == [e1[0]] + t1 && e2 == [e2[0]] + t2;
      KeysOfPrepend(e1[0], t1);
      KeysOfPrepend(e2[0], t2);
      assert x !in KeysOf(t1) by {
        forall i | 0 <= i < |t1| ensures t1[i].0 != x {
          assert e1[i + 1] == t1[i];
        }
      }
      assert x !in KeysOf(t2) by {
        forall i | 0 <= i < |t2| ensures t2[i].0 != x {
          assert e2[i + 1] == t2[i];
        }
      }
      TailListing(m, e1);
      TailListing(m, e2);
      ListingUnique(m', t1, t2);
    }
  }

  /** Dropping the first entry of a listing lists the bucket without that key. */
  lemma TailListing<T>(m: map<string, Blob<T>>, entries: seq<(string, T)>)
    requires Listing(m, entries) && entries != []
    requires entries[0].0 !in KeysOf(entries[1..])
    requires KeysOf(entries) == {entries[0].0} + KeysOf(entries[1..])
    ensures Listing(m - {entries[0].0}, entries[1..])
  {
    var t := entries[1..];
    forall i, j | 0 <= i < j < |t| ensures t[i].0 != t[j].0 && Below(t[i].0, t[j].0) {
      assert t[i] == entries[i + 1] && t[j] == entries[j + 1];
    }
    forall e <- t ensures e.0 in m - {entries[0].0} {
      assert e in entries;
      var i :| 0 <= i < |t| && t[i] == e;
    }
  }

  /** A typed view of one bucket. The object stands for cborCrud[T] together with the
      part of the database it reads and writes. */
  class CborCrud<T(==)> {
    const bucket: string
    var data: Bucket<T>

    constructor(bucket: string, data: Bucket<T>)
      ensures this.bucket == bucket && this.data == data
    {
      this.bucket := bucket;
      this.data := data;
    }

    /** Get */
    function Get(key: string): Result<T, Error>
      reads this
    {
      GetIn(bucket, data, key)
    }

    /** GetAll: every entry decoded, in ascending key order; one entry that does not
        decode fails the whole call. */
    method GetAll() returns (r: Result<seq<(string, T)>, Error>)
      ensures data.None? ==> r == Err(BucketNotFound(bucket))
      ensures data.Some? ==> (r.Ok? <==> forall k <- data.value :: data.value[k].Encoded?)
      ensures data.Some? && r.Err? ==> r.error == DecodeFailed
      ensures r.Ok? ==> data.Some? && Listing(data.value, r.value)
    {
      if data.None? {
        return Err(BucketNotFound(bucket));
      }
      var m := data.value;
      var all: seq<(string, T)> := [];
      var remaining := m.Keys;
      while remaining != {}
        invariant remaining <= m.Keys
        invariant forall k <- m.Keys - remaining :: m[k].Encoded?
        invariant forall i, j :: 0 <= i < j < |all| ==> all[i].0 != all[j].0
        invariant forall e <- all :: e.0 in m && e.0 !in remaining && m[e.0] == Encoded(e.1)
        invariant KeysOf(all) == m.Keys - remaining
        invariant Ascending(all)
        invariant forall e <- all, k <- remaining :: Below(e.0, k)
        decreases remaining
      {
        LeastExists(remaining);
        var key :| IsLeast(key, remaining);
        if !m[key].Encoded? {
          return Err(DecodeFailed);
        }
        KeysOfAppend(all, (key, m[key].value));
        all := all + [(key, m[key].value)];
        remaining := remaining - {key};
      }
      return Ok(all);
    }

    /** Put */
    method Put(key: string, value: T) returns (err: Option<Error>)
      modifies this
      ensures (data, err) == PutIn(bucket, old(data), key, value)
    {
      if data.None? {
        return Some(BucketNotFound(bucket));
      }
      data := Some(data.value[key := Encoded(value)]);
      return None;
    }

    /** Add */
    method Add(key: string, value: T) returns (err: Option<Error>)
      modifies this
      ensures (data, err) == AddIn(bucket, old(data), key, value)
    {
      if data.None? {
        return Some(BucketNotFound(bucket));
      }
      if Present(data.value, key) {
        return Some(AlreadyExists);
      }
      data := Some(data.value[key := Encoded(value)]);
      return None;
    }

    /** Delete */
    method Delete(key: string) returns (err: Option<Error>)
      modifies this
      ensures (data, err) == DeleteIn(bucket, old(data), key)
    {
      if data.None? {
        return Some(BucketNotFound(bucket));
      }
      if !Present(data.value, key) {
        return Some(NotFound);
      }
      data := Some(data.value - {key});
      return None;
    }
  }

  /** db.Server: a configured IRC server. */
  datatype Server = Server(address: string, channels: seq<string>)

  /** The name of the bucket behind db.Servers. */
  const ServersBucket := "servers"
}
