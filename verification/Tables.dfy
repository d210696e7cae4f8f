// The tables updated in place, statement by statement, as each transaction of
// db.rs does it. Every method is proved to do what Store.Apply says, or to
// leave everything as it was; to keep the invariant; and to leave alone the
// rows of every owner but its own.
module Tables {
  import opened Base
  import opened Objects
  import opened Completion
  import opened Store
  import opened StoreInvariant
  import opened Versions
  import opened Outcomes

  // The transaction has committed, keeps the invariant and touches one owner's
  // rows only.
  ghost predicate Commits(s: Db, a: Action, t: Db) {
    Apply(s, a) == Some(t) && (Inv(s) ==> Inv(t) && Spares(s, a, t))
  }

  lemma Committed(s: Db, a: Action, t: Db)
    requires Apply(s, a) == Some(t)
    ensures Commits(s, a, t)
  {
    if Inv(s) {
      StepKeepsInv(s, a);
      forall o: Owner, r: RowId | Owns(s, o, r.file) && !Touches(a, o) ensures Lookup(t.chunks, r) == Lookup(s.chunks, r) {
        OthersUntouched(s, a, t, o, r);
      }
    }
  }

  lemma Stores(s: Db, k: ObjKey, file: nat, data: seq<Byte>, etag: seq<Byte>, condition: Condition, t: Db)
    requires Apply(s, Put(k, file, data, etag, condition)) == Some(t)
    ensures Commits(s, Put(k, file, data, etag, condition), t)
    ensures Inv(s) ==> k in t.objects && WholeObject(t, t.objects[k])
  {
    Committed(s, Put(k, file, data, etag, condition), t);
    if Inv(s) {
      PutPublishesWhole(s, k, file, data, etag, condition);
    }
  }

  datatype Ingest = Stored | NoBucket | Refused | TooLong
  datatype BucketDeletion = Deleted | NotEmpty | NotFound
  datatype Created = Upload(id: string) | NoSuchBucket | Duplicate
  datatype Completed = Done(meta: Meta) | InvalidPart | NoSuchUpload

  class Database {
    var buckets: set<string>
    var objects: map<ObjKey, Meta>
    var chunks: map<RowId, seq<Byte>>
    var uploads: map<string, ObjKey>
    var parts: map<PartId, Part>
    var nextFile: nat
    ghost var writing: set<nat>
    ghost var written: map<nat, seq<Byte>>
    ghost var log: seq<Change>

    ghost function State(): Db reads this {
      Db(buckets, objects, chunks, uploads, parts, nextFile, writing, written, log)
    }

    constructor ()
      ensures State() == Empty
    {
      buckets, objects, chunks, uploads, parts, nextFile := {}, map[], map[], map[], map[], 0;
      writing, written, log := {}, map[], [];
    }

    // nextval of the file id sequence.
    method Begin() returns (file: nat)
      modifies this
      ensures Commits(old(State()), NextFile, State()) && file == old(nextFile)
      ensures Inv(old(State())) ==> file !in writing - {file} && file !in written
    {
      file := nextFile;
      writing := writing + {file};
      nextFile := nextFile + 1;
      Committed(old(State()), NextFile, State());
    }

    // The COPY of one file.
    method CopyIn(file: nat, data: seq<Byte>)
      modifies this
      ensures State() == Copied(old(State()), file, data)
    {
      chunks := chunks + FileRows(file, data);
      writing := writing - {file};
      written := written[file := data];
    }

    method Reap(was: Meta)
      modifies this`chunks
      ensures chunks == WithoutFiles(old(chunks), FilesOf(was))
      ensures forall r <- old(chunks) ::
        r in chunks <==> r.file != was.fileId && (was.parts.Some? ==> r.file !in was.parts.value)
      ensures forall r <- chunks :: r in old(chunks) && chunks[r] == old(chunks)[r]
    {
      var dead := {was.fileId} + if was.parts.Some? then set f | f in was.parts.value else {};
      chunks := map r | r in chunks && r.file !in dead :: chunks[r];
    }

    // Points the key at new storage and reaps what it replaces, if the condition holds.
    method SwapObject(k: ObjKey, now: Meta, condition: Condition) returns (ok: bool)
      modifies this`objects, this`chunks, this`log
      ensures var was := Lookup(old(objects), k);
        if ok then State() == Swapped(old(State()), k, condition, was, now) else State() == old(State())
      ensures ok <==>
        match condition
        case Unconditional => true
        case IfAbsent => k !in old(objects)
        case IfMatch(want) => k in old(objects) && Hex(old(objects)[k].etag) == want
      ensures ok <==> Allowed(condition, Lookup(old(objects), k))
      ensures ok ==> objects == old(objects)[k := now]
      ensures ok ==> forall r: RowId ::
        Lookup(chunks, r) == (if BelongedTo(old(objects), k, r.file) then None else Lookup(old(chunks), r))
    {
      var was := Lookup(objects, k);
      var allowed;
      match condition {
        case Unconditional => allowed := true;
        case IfAbsent => allowed := was.None?;
        case IfMatch(want) => allowed := was.Some? && Hex(was.value.etag) == want;
      }
      if !allowed {
        return false;
      }
      objects := objects[k := now];
      log := log + [Change(k, condition, was, Some(now))];
      if was.Some? {
        Reap(was.value);
      } else {
        assert chunks == WithoutFiles(chunks, {});
      }
      ok := true;
    }

    // A finished object writer: its rows and its object row, in one transaction.
    method IngestObject(k: ObjKey, file: nat, data: seq<Byte>, etag: seq<Byte>, condition: Condition)
      returns (r: Ingest)
      requires file in writing
      modifies this
      ensures var a := Put(k, file, data, etag, condition);
        if r == Stored then Commits(old(State()), a, State()) else Apply(old(State()), a).None? && State() == old(State())
      ensures r == Stored ==> Lookup(objects, k) == Some(Meta(file, |data|, etag, None, None))
      ensures r == Stored && Inv(old(State())) ==> WholeObject(State(), objects[k])
      ensures r == NoBucket <==> k.bucket !in old(buckets)
      ensures r == TooLong <==> k.bucket in old(buckets) && |data| > MAX_FILE
      ensures r == Stored <==>
        && k.bucket in old(buckets) && |data| <= MAX_FILE
        && match condition
           case Unconditional => true
           case IfAbsent => k !in old(objects)
           case IfMatch(want) => k in old(objects) && Hex(old(objects)[k].etag) == want
      ensures r == Refused <==> k.bucket in old(buckets) && |data| <= MAX_FILE && r != Stored
    {
      if k.bucket !in buckets {
        return NoBucket;
      }
      if |data| > MAX_FILE {
        return TooLong;
      }
      var saved := chunks;
      ghost var writing0, written0 := writing, written;
      CopyIn(file, data);
      var ok := SwapObject(k, Meta(file, |data|, etag, None, None), condition);
      if !ok {
        chunks, writing, written := saved, writing0, written0;
        return Refused;
      }
      r := Stored;
      Stores(old(State()), k, file, data, etag, condition, State());
    }

    // A finished part writer: a part sent again replaces the earlier one.
    method IngestPart(id: PartId, file: nat, data: seq<Byte>, sha: seq<Byte>) returns (ok: bool)
      requires file in writing
      modifies this
      ensures var a := PutPart(id, file, data, sha);
        if ok then Commits(old(State()), a, State()) else Apply(old(State()), a).None? && State() == old(State())
      ensures ok <==> |data| <= MAX_FILE && id.upload in old(uploads)
    {
      if |data| > MAX_FILE {
        return false;
      }
      var chunks0, parts0 := chunks, parts;
      ghost var writing0, written0 := writing, written;
      CopyIn(file, data);
      DropPart(id);
      if id.upload !in uploads {
        chunks, parts, writing, written := chunks0, parts0, writing0, written0;
        return false;
      }
      parts := parts[id := Part(file, |data|, sha)];
      assert parts == parts0[id := Part(file, |data|, sha)];
      ok := true;
      Committed(old(State()), PutPart(id, file, data, sha), State());
    }

    // The earlier attempt at a part, if there is one, goes with its rows.
    method DropPart(id: PartId)
      modifies this`parts, this`chunks
      ensures parts == old(parts) - {id}
      ensures chunks == WithoutFiles(old(chunks), if id in old(parts) then {old(parts)[id].file} else {})
    {
      if id in parts {
        var was := parts[id].file;
        parts := parts - {id};
        chunks := map r | r in chunks && r.file != was :: chunks[r];
      }
    }

    method Delete(k: ObjKey) returns (found: bool)
      modifies this
      ensures Commits(old(State()), Store.Delete(k), State()) && found == (k in old(objects))
      ensures objects == old(objects) - {k}
      ensures found ==> forall r <- chunks :: r.file !in FilesOf(old(objects)[k])
    {
      found := k in objects;
      if found {
        var was := objects[k];
        objects := objects - {k};
        log := log + [Change(k, Unconditional, Some(was), None)];
        Reap(was);
      }
      Committed(old(State()), Store.Delete(k), State());
    }

    method CreateBucket(name: string)
      modifies this`buckets
      ensures Commits(old(State()), Store.CreateBucket(name), State())
    {
      buckets := buckets + {name};
      Committed(old(State()), Store.CreateBucket(name), State());
    }

    method DeleteBucket(name: string) returns (r: BucketDeletion)
      modifies this`buckets
      ensures var a := Store.DeleteBucket(name);
        if r == Deleted then Commits(old(State()), a, State()) else Apply(old(State()), a).None? && State() == old(State())
      ensures r == NotFound <==> name !in old(buckets)
      ensures r == NotEmpty <==>
        && name in old(buckets)
        && ((exists k <- old(objects) :: k.bucket == name) || exists u <- old(uploads) :: old(uploads)[u].bucket == name)
      ensures buckets == if r == Deleted then old(buckets) - {name} else old(buckets)
    {
      if name !in buckets {
        return NotFound;
      }
      var occupied := (exists k <- objects :: k.bucket == name) || (exists u <- uploads :: uploads[u].bucket == name);
      if occupied {
        return NotEmpty;
      }
      buckets := buckets - {name};
      r := Deleted;
      Committed(old(State()), Store.DeleteBucket(name), State());
    }

    // Starts the upload of a key, or finds the one it has.
    method CreateUpload(k: ObjKey, newId: string) returns (r: Created)
      modifies this`uploads
      ensures var a := Store.CreateUpload(k, newId);
        if r.Upload? then Commits(old(State()), a, State()) && Lookup(uploads, r.id) == Some(k)
        else Apply(old(State()), a).None? && State() == old(State())
      ensures r.Upload? && Inv(old(State())) ==> forall u <- uploads :: uploads[u] == k ==> u == r.id
      ensures r == NoSuchBucket <==> k.bucket !in old(buckets)
      ensures r == Duplicate <==>
        k.bucket in old(buckets) && newId in old(uploads) && forall u <- old(uploads) :: old(uploads)[u] != k
      ensures uploads == if r.Upload? && r.id !in old(uploads) then old(uploads)[newId := k] else old(uploads)
      ensures r.Upload? && r.id !in old(uploads) ==> r.id == newId
    {
      if k.bucket !in buckets {
        return NoSuchBucket;
      }
      if exists u <- uploads :: uploads[u] == k {
        var u :| u in uploads && uploads[u] == k;
        Committed(old(State()), Store.CreateUpload(k, newId), State());
        return Upload(u);
      }
      if newId in uploads {
        return Duplicate;
      }
      uploads := uploads[newId := k];
      r := Upload(newId);
      Committed(old(State()), Store.CreateUpload(k, newId), State());
    }

    // Publishes the recorded parts, if they are the listed ones, as one object.
    method CompleteUpload(upload: string, k: ObjKey, listed: seq<Listed>, digest: seq<Byte> -> seq<Byte>)
      returns (r: Completed)
      modifies this
      ensures r == NoSuchUpload <==> Lookup(old(uploads), upload) != Some(k)
      ensures r == InvalidPart <==> Lookup(old(uploads), upload) == Some(k) && !ListsParts(listed, old(parts), upload)
      ensures !r.Done? ==> State() == old(State())
      ensures r.Done? ==> PartRows(old(parts), upload) != []
      ensures r.Done? ==>
        r.meta == Published(PartRows(old(parts), upload), digest(Shas(PartRows(old(parts), upload))))
      ensures r.Done? ==>
        Commits(old(State()), Complete(upload, k, listed, r.meta.etag), State())
    {
      if upload !in uploads || uploads[upload] != k {
        return NoSuchUpload;
      }
      var m := CheckParts(upload, listed, digest);
      if m.None? {
        return InvalidPart;
      }
      var ok := SwapObject(k, m.value, Unconditional);
      uploads := uploads - {upload};
      parts := map id | id in parts && id.upload != upload :: parts[id];
      r := Done(m.value);
      Committed(old(State()), Complete(upload, k, listed, m.value.etag), State());
    }

    // The listed parts against the recorded ones, and what would be published.
    method CheckParts(upload: string, listed: seq<Listed>, digest: seq<Byte> -> seq<Byte>) returns (m: Option<Meta>)
      ensures m.Some? <==> ListsParts(listed, parts, upload)
      ensures m.Some? <==> listed != [] && SortByNo(listed) == AllListed(PartRows(parts, upload))
      ensures m.Some? ==> PartRows(parts, upload) != []
      ensures m.Some? ==>
        m.value == Published(PartRows(parts, upload), digest(Shas(PartRows(parts, upload))))
    {
      var rows := PartRows(parts, upload);
      PartRowsNumbered(parts, upload);
      ValidIffMatches(listed, rows);
      ListsPartsIff(listed, parts, upload);
      m := ValidateParts(listed, rows, digest);
    }

    method AbortUpload(upload: string, k: ObjKey) returns (found: bool)
      modifies this
      ensures var a := Store.AbortUpload(upload, k);
        if found then Commits(old(State()), a, State()) else Apply(old(State()), a).None? && State() == old(State())
      ensures found <==> Lookup(old(uploads), upload) == Some(k)
      ensures found ==> upload !in uploads && forall id <- parts :: id.upload != upload
      ensures found ==> forall id <- old(parts), r <- chunks :: id.upload == upload ==> r.file != old(parts)[id].file
    {
      if upload !in uploads || uploads[upload] != k {
        return false;
      }
      var ids := set id | id in parts && id.upload == upload :: parts[id].file;
      uploads := uploads - {upload};
      parts := map id | id in parts && id.upload != upload :: parts[id];
      chunks := map r | r in chunks && r.file !in ids :: chunks[r];
      found := true;
      Committed(old(State()), Store.AbortUpload(upload, k), State());
    }
  }
}
