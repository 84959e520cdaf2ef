/** The in-memory object store and the evidence store as objects. */
module EvidenceObjects {
  import opened Basics
  import opened EvidenceSpec

  class InMemoryObjectStore {
    const digest: Digest
    var objects: map<ObjectId, Bytes>
    var latest: map<Slot, nat>
    var retention: map<ObjectId, int>
    var version: nat

    function View(): Objects
      reads this
    {
      Objects(objects, latest, retention, version)
    }

    ghost predicate Valid()
      reads this
    {
      WellKept(View())
    }

    constructor (digest: Digest)
      ensures this.digest == digest && Valid() && View() == Nothing
    {
      this.digest := digest;
      objects, latest, retention, version := map[], map[], map[], 0;
    }

    method Put(bucket: string, key: string, data: Bytes, sha256: string, until: int) returns (r: Result<nat, Failure>)
      requires Valid()
      modifies this
      ensures Valid() && View() == EvidenceSpec.Put(digest, old(View()), Slot(bucket, key), data, sha256, until).0
      ensures r == EvidenceSpec.Put(digest, old(View()), Slot(bucket, key), data, sha256, until).1
    {
      PutKeeps(digest, View(), Slot(bucket, key), data, sha256, until);
      var slot := Slot(bucket, key);
      if slot in latest && objects[ObjectId(slot, latest[slot])] == data {
        return Ok(latest[slot]);
      }
      if digest(data) != sha256 {
        return Err(MetadataConflict);
      }
      version := version + 1;
      objects := objects[ObjectId(slot, version) := data];
      latest := latest[slot := version];
      retention := retention[ObjectId(slot, version) := until];
      r := Ok(version);
    }

    method Get(bucket: string, key: string, versionId: Option<nat>) returns (content: Option<Bytes>)
      ensures content == EvidenceSpec.Get(View(), Slot(bucket, key), versionId)
    {
      var named := versionId;
      if named == None && Slot(bucket, key) in latest {
        named := Some(latest[Slot(bucket, key)]);
      }
      if named.None? || ObjectId(Slot(bucket, key), named.value) !in objects {
        return None;
      }
      content := Some(objects[ObjectId(Slot(bucket, key), named.value)]);
    }

    method Delete(bucket: string, key: string, versionId: Option<nat>, now: int) returns (r: Result<Option<nat>, Failure>)
      requires Valid()
      modifies this
      ensures Valid() && View() == EvidenceSpec.Delete(old(View()), Slot(bucket, key), versionId, now).0
      ensures r == EvidenceSpec.Delete(old(View()), Slot(bucket, key), versionId, now).1
    {
      var slot := Slot(bucket, key);
      DeleteKeeps(View(), slot, versionId, now);
      var named := versionId;
      if named == None && slot in latest {
        named := Some(latest[slot]);
      }
      if named.None? {
        return Ok(None);
      }
      var id := ObjectId(slot, named.value);
      if id !in retention {
        return Err(UnknownVersion);
      }
      if now < retention[id] {
        return Err(Retained);
      }
      objects := objects - {id};
      retention := retention - {id};
      if slot in latest && latest[slot] == named.value {
        latest := latest - {slot};
      }
      r := Ok(named);
    }
  }

  class MinioEvidenceStore {
    const store: InMemoryObjectStore
    const bucket: string

    constructor (store: InMemoryObjectStore, bucket: string)
      ensures this.store == store && this.bucket == bucket
    {
      this.store, this.bucket := store, bucket;
    }

    method Store(d: Descriptor, content: Bytes) returns (r: Result<Descriptor, Failure>)
      requires store.Valid()
      modifies store
      ensures store.Valid() && store.View() == Stored(store.digest, bucket, old(store.View()), d, content).0
      ensures r == Stored(store.digest, bucket, old(store.View()), d, content).1
    {
      var actual := store.digest(content);
      if actual != d.digest || |content| != d.size {
        return Err(Mismatch);
      }
      var location := LocationFor(bucket, d);
      if location.Err? {
        return Err(location.error);
      }
      var slot := location.value;
      var put := store.Put(slot.bucket, slot.key, content, actual, d.retainedUntil);
      if put.Err? {
        return Err(put.error);
      }
      r := Ok(d.(version := Some(put.value)));
    }

    method RetrieveVerified(d: Descriptor) returns (r: Result<Bytes, Failure>)
      ensures r == Retrieved(store.digest, bucket, store.View(), d)
      ensures r.Ok? ==> store.digest(r.value) == d.digest
    {
      var location := LocationFor(bucket, d);
      if location.Err? {
        return Err(location.error);
      }
      var slot := location.value;
      var content := store.Get(slot.bucket, slot.key, d.version);
      if content.None? {
        return Err(Missing);
      }
      r := if store.digest(content.value) != d.digest then Err(Tampered) else Ok(content.value);
    }

    method Delete(d: Descriptor, now: int) returns (r: Result<Option<nat>, Failure>)
      requires store.Valid()
      modifies store
      ensures store.Valid() && store.View() == Removed(bucket, old(store.View()), d, now).0
      ensures r == Removed(bucket, old(store.View()), d, now).1
    {
      if now < d.retainedUntil {
        return Err(Retained);
      }
      var location := LocationFor(bucket, d);
      if location.Err? {
        return Err(location.error);
      }
      var slot := location.value;
      r := store.Delete(slot.bucket, slot.key, d.version, now);
    }
  }
}
