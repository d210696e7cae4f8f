// Every transaction keeps the invariant of the store, so every reachable state has it.
module StoreInvariant {
  import opened Base
  import opened Objects
  import opened Completion
  import opened Store

  // Ownership from s to t: `moved` files now have the one owner, `dead` files
  // none, and the rest their old one.
  ghost predicate Moves(s: Db, t: Db, dead: set<nat>, moved: set<nat>, owner: Owner) {
    && dead !! moved
    && forall o, file :: Owns(t, o, file) <==> if file in moved then o == owner else file !in dead && Owns(s, o, file)
  }

  // Committed bytes are never forgotten.
  ghost predicate Remembers(s: Db, t: Db) {
    forall file <- s.written :: file in t.written && t.written[file] == s.written[file]
  }

  lemma DisjointMoves(s: Db, t: Db, dead: set<nat>, moved: set<nat>, owner: Owner)
    requires Disjoint(s) && Moves(s, t, dead, moved, owner)
    ensures Disjoint(t)
  {
  }

  lemma RowMoves(s: Db, t: Db, dead: set<nat>, moved: set<nat>, owner: Owner, r: RowId)
    requires RowsKept(s) && Moves(s, t, dead, moved, owner) && Remembers(s, t)
    requires r in s.chunks && r.file !in dead && r in t.chunks && t.chunks[r] == s.chunks[r]
    requires forall no :: RowId(r.file, no) in s.chunks ==> RowId(r.file, no) in t.chunks
    ensures Owned(t, r.file) && RowKept(t, r)
  {
    assert RowKept(s, r);
    var o :| Owns(s, o, r.file);
    assert Owns(t, if r.file in moved then owner else o, r.file);
  }

  // Rows after reaping `dead` files.
  lemma ReapedRows(s: Db, t: Db, dead: set<nat>, moved: set<nat>, owner: Owner)
    requires RowsKept(s) && Moves(s, t, dead, moved, owner) && Remembers(s, t)
    requires t.chunks == WithoutFiles(s.chunks, dead)
    ensures RowsKept(t)
  {
    forall r <- t.chunks ensures Owned(t, r.file) && RowKept(t, r) {
      RowMoves(s, t, dead, moved, owner, r);
    }
  }

  // Rows after a COPY and reaping.
  lemma CopiedRows(s: Db, t: Db, dead: set<nat>, owner: Owner, file: nat, data: seq<Byte>)
    requires RowsKept(s) && Moves(s, t, dead, {file}, owner) && Remembers(s, t)
    requires file !in s.written && file in t.written && t.written[file] == data
    requires t.chunks == WithoutFiles(s.chunks + FileRows(file, data), dead)
    ensures RowsKept(t)
  {
    forall r <- t.chunks ensures Owned(t, r.file) && RowKept(t, r) {
      if r.file == file {
        assert r in s.chunks ==> RowKept(s, r);
        assert r in FileRows(file, data);
        assert Owns(t, owner, file);
      } else {
        RowMoves(s, t, dead, {file}, owner, r);
      }
    }
  }

  lemma FreshFile(s: Db, file: nat)
    requires FreshIds(s) && file in s.writing
    ensures file !in s.written && forall o :: !Owns(s, o, file)
  {
  }

  lemma MetaRemembered(m: Meta, w: map<nat, seq<Byte>>, x: map<nat, seq<Byte>>)
    requires MetaKept(m, w) && forall file <- w :: file in x && x[file] == w[file]
    ensures MetaKept(m, x)
  {
    TiledRemembered(Segments(m), w, x, m.size);
  }

  lemma TiledRemembered(segs: seq<Segment>, w: map<nat, seq<Byte>>, x: map<nat, seq<Byte>>, size: int)
    requires Tiled(segs, w, size) && forall file <- w :: file in x && x[file] == w[file]
    ensures Tiled(segs, x, size)
  {
  }

  // Objects are left as they were.
  lemma ObjectsStay(s: Db, t: Db)
    requires ObjectsKept(s) && Remembers(s, t)
    requires forall k <- t.objects :: k in s.objects && t.objects[k] == s.objects[k] && k.bucket in t.buckets
    ensures ObjectsKept(t)
  {
    forall k <- t.objects ensures ObjectKept(t, k) {
      assert ObjectKept(s, k);
      MetaRemembered(s.objects[k], s.written, t.written);
    }
  }

  lemma BucketsThere(s: Db)
    requires ObjectsKept(s)
    ensures forall k <- s.objects :: k.bucket in s.buckets
  {
    forall k <- s.objects ensures k.bucket in s.buckets {
      assert ObjectKept(s, k);
    }
  }

  // A key was given new metadata.
  lemma ObjectsWith(s: Db, t: Db, k: ObjKey, m: Meta)
    requires ObjectsKept(s) && Remembers(s, t) && t.buckets == s.buckets
    requires t.objects == s.objects[k := m] && MetaKept(m, t.written) && k.bucket in s.buckets
    ensures ObjectsKept(t)
  {
    forall q <- t.objects ensures ObjectKept(t, q) {
      if q != k {
        assert ObjectKept(s, q);
        MetaRemembered(s.objects[q], s.written, t.written);
      }
    }
  }

  // ---- one lemma per transaction ----

  // A key now has `m`; what it had is dead.
  lemma KeyMoves(s: Db, t: Db, k: ObjKey, m: Meta, file: nat)
    requires Disjoint(s) && (forall o :: !Owns(s, o, file)) && FilesOf(m) == {file}
    requires t.objects == s.objects[k := m] && t.parts == s.parts
    ensures Moves(s, t, Reaped(Lookup(s.objects, k)), {file}, OfObject(k))
  {
    var dead := Reaped(Lookup(s.objects, k));
    assert file !in dead by {
      if file in dead { assert Owns(s, OfObject(k), file); }
    }
    OwnedBy(s, OfObject(k), dead);
    forall o, f ensures Owns(t, o, f) <==> if f in {file} then o == OfObject(k) else f !in dead && Owns(s, o, f) {
      assert Owns(s, OfObject(k), f) <==> f in dead;
      assert o != OfObject(k) ==> Owns(t, o, f) == Owns(s, o, f);
      assert Owns(t, OfObject(k), f) <==> f in FilesOf(m);
    }
  }

  // `files` are exactly what o owns.
  lemma OwnedBy(s: Db, o: Owner, files: set<nat>)
    requires forall f: nat :: f in files <==> Owns(s, o, f)
    requires Disjoint(s)
    ensures forall p, f: nat :: f in files && Owns(s, p, f) ==> p == o
  {
  }

  lemma SingleFileKept(m: Meta, file: nat, written: map<nat, seq<Byte>>)
    requires m.parts.None? && m.fileId == file && file in written && m.size == |written[file]|
    ensures MetaKept(m, written)
  {
    assert Segments(m) == [Segment(file, 0, m.size)];
    assert Segments(m)[0].file == file;
  }

  lemma PutKeepsInv(s: Db, k: ObjKey, file: nat, data: seq<Byte>, etag: seq<Byte>, condition: Condition)
    requires Inv(s) && Apply(s, Put(k, file, data, etag, condition)).Some?
    ensures Inv(Apply(s, Put(k, file, data, etag, condition)).value)
  {
    var t := Apply(s, Put(k, file, data, etag, condition)).value;
    var m := Meta(file, |data|, etag, None, None);
    FreshFile(s, file);
    KeyMoves(s, t, k, m, file);
    DisjointMoves(s, t, Reaped(Lookup(s.objects, k)), {file}, OfObject(k));
    CopiedRows(s, t, Reaped(Lookup(s.objects, k)), OfObject(k), file, data);
    SingleFileKept(m, file, t.written);
    ObjectsWith(s, t, k, m);
  }

  lemma PutPartKeepsInv(s: Db, id: PartId, file: nat, data: seq<Byte>, sha: seq<Byte>)
    requires Inv(s) && Apply(s, PutPart(id, file, data, sha)).Some?
    ensures Inv(Apply(s, PutPart(id, file, data, sha)).value)
  {
    var t := Apply(s, PutPart(id, file, data, sha)).value;
    var dead := if id in s.parts then {s.parts[id].file} else {};
    FreshFile(s, file);
    PartMoves(s, t, id, Part(file, |data|, sha));
    DisjointMoves(s, t, dead, {file}, OfPart(id));
    CopiedRows(s, t, dead, OfPart(id), file, data);
    BucketsThere(s);
    ObjectsStay(s, t);
  }

  lemma PartMoves(s: Db, t: Db, id: PartId, p: Part)
    requires Disjoint(s) && forall o :: !Owns(s, o, p.file)
    requires t.objects == s.objects && t.parts == s.parts[id := p]
    ensures Moves(s, t, if id in s.parts then {s.parts[id].file} else {}, {p.file}, OfPart(id))
  {
    var dead := if id in s.parts then {s.parts[id].file} else {};
    assert p.file !in dead by {
      if id in s.parts { assert Owns(s, OfPart(id), s.parts[id].file); }
    }
    OwnedBy(s, OfPart(id), dead);
    forall o, f ensures Owns(t, o, f) <==> if f in {p.file} then o == OfPart(id) else f !in dead && Owns(s, o, f) {
      assert Owns(s, OfPart(id), f) <==> f in dead;
      assert o != OfPart(id) ==> Owns(t, o, f) == Owns(s, o, f);
    }
  }

  // Owners whose files are all dead are gone, and no others.
  lemma OwnersGone(s: Db, t: Db, dead: set<nat>, owner: Owner)
    requires Inv(s)
    requires forall o, f :: Owns(t, o, f) <==> f !in dead && Owns(s, o, f)
    requires t.written == s.written && t.writing == s.writing && t.nextFile == s.nextFile
    requires t.chunks == WithoutFiles(s.chunks, dead)
    ensures Disjoint(t) && FreshIds(t) && RowsKept(t)
  {
    assert Moves(s, t, dead, {}, owner);
    DisjointMoves(s, t, dead, {}, owner);
    ReapedRows(s, t, dead, {}, owner);
  }

  lemma DeleteKeepsInv(s: Db, k: ObjKey)
    requires Inv(s)
    ensures Inv(Apply(s, Delete(k)).value)
  {
    if k in s.objects {
      var t := Apply(s, Delete(k)).value;
      ObjectGone(s, t, k);
      OwnersGone(s, t, FilesOf(s.objects[k]), OfObject(k));
      BucketsThere(s);
      ObjectsStay(s, t);
    }
  }

  lemma ObjectGone(s: Db, t: Db, k: ObjKey)
    requires Disjoint(s) && k in s.objects && t.objects == s.objects - {k} && t.parts == s.parts
    ensures forall o, f :: Owns(t, o, f) <==> f !in FilesOf(s.objects[k]) && Owns(s, o, f)
  {
    var dead := FilesOf(s.objects[k]);
    OwnedBy(s, OfObject(k), dead);
    forall o, f ensures Owns(t, o, f) <==> f !in dead && Owns(s, o, f) {
      assert Owns(s, OfObject(k), f) <==> f in dead;
      assert o != OfObject(k) ==> Owns(t, o, f) == Owns(s, o, f);
    }
  }

  lemma AbortKeepsInv(s: Db, upload: string, k: ObjKey)
    requires Inv(s) && Apply(s, AbortUpload(upload, k)).Some?
    ensures Inv(Apply(s, AbortUpload(upload, k)).value)
  {
    var t := Apply(s, AbortUpload(upload, k)).value;
    var dead := PartFiles(s.parts, upload);
    PartsGone(s, t, upload);
    OwnersGone(s, t, dead, OfObject(k));
    BucketsThere(s);
    ObjectsStay(s, t);
  }

  lemma PartsGone(s: Db, t: Db, upload: string)
    requires Disjoint(s) && t.objects == s.objects
    requires t.parts == map id | id in s.parts && id.upload != upload :: s.parts[id]
    ensures forall o, f :: Owns(t, o, f) <==> f !in PartFiles(s.parts, upload) && Owns(s, o, f)
  {
    forall o, f ensures Owns(t, o, f) <==> f !in PartFiles(s.parts, upload) && Owns(s, o, f) {
      if f in PartFiles(s.parts, upload) {
        var id :| id in s.parts && id.upload == upload && s.parts[id].file == f;
        assert Owns(s, OfPart(id), f);
        assert Owns(s, o, f) ==> o == OfPart(id);
      } else if o.OfPart? {
        assert Owns(s, o, f) ==> o.id.upload != upload;
      }
    }
  }

  lemma WriterKeepsInv(s: Db, a: Action)
    requires Inv(s) && Apply(s, a).Some? && (a.NextFile? || a.DropWriter?)
    ensures Inv(Apply(s, a).value)
  {
    SameOwners(s, Apply(s, a).value);
    BucketsThere(s);
    ObjectsStay(s, Apply(s, a).value);
  }

  lemma BucketKeepsInv(s: Db, a: Action)
    requires Inv(s) && Apply(s, a).Some? && (a.CreateBucket? || a.DeleteBucket?)
    ensures Inv(Apply(s, a).value)
  {
    var t := Apply(s, a).value;
    SameOwners(s, t);
    BucketsThere(s);
    ObjectsStay(s, t);
  }

  lemma CreateUploadKeepsInv(s: Db, k: ObjKey, newId: string)
    requires Inv(s) && Apply(s, CreateUpload(k, newId)).Some?
    ensures Inv(Apply(s, CreateUpload(k, newId)).value)
  {
    var t := Apply(s, CreateUpload(k, newId)).value;
    if t != s {
      assert t == s.(uploads := s.uploads[newId := k]);
      SameOwners(s, t);
      BucketsThere(s);
      ObjectsStay(s, t);
    }
  }

  lemma SameOwners(s: Db, t: Db)
    requires Inv(s) && t.objects == s.objects && t.parts == s.parts && t.chunks == s.chunks && t.written == s.written
    ensures Disjoint(t) && RowsKept(t)
    ensures forall o, file :: Owns(t, o, file) == Owns(s, o, file)
  {
    forall o, file ensures Owns(t, o, file) == Owns(s, o, file) {
    }
    var any := OfObject(ObjKey("", ""));
    assert Moves(s, t, {}, {}, any);
    DisjointMoves(s, t, {}, {}, any);
    assert t.chunks == WithoutFiles(s.chunks, {});
    ReapedRows(s, t, {}, {}, any);
  }

  // ---- Complete: the parts' files become the object's ----

  lemma PartRowsAre(s: Db, upload: string)
    requires Inv(s)
    ensures var rows := PartRows(s.parts, upload);
      && (forall i | 0 <= i < |rows| ::
            rows[i].file in PartFiles(s.parts, upload)
            && rows[i].file in s.written && |s.written[rows[i].file]| == rows[i].size)
      && (forall f <- PartFiles(s.parts, upload) :: exists i :: 0 <= i < |rows| && rows[i].file == f)
      && (forall i, j | 0 <= i < j < |rows| :: rows[i].file != rows[j].file)
  {
    var rows, nos := PartRows(s.parts, upload), Sorted(PartNos(s.parts, upload));
    PartRowsNumbered(s.parts, upload);
    forall f <- PartFiles(s.parts, upload) ensures exists i :: 0 <= i < |rows| && rows[i].file == f {
      var id :| id in s.parts && id.upload == upload && s.parts[id].file == f;
      var i :| 0 <= i < |nos| && nos[i] == id.no;
      assert rows[i].file == f;
    }
    forall i, j | 0 <= i < j < |rows| ensures rows[i].file != rows[j].file {
      assert rows[i].no < rows[j].no;
      assert Owns(s, OfPart(PartId(upload, rows[i].no)), rows[i].file);
      assert Owns(s, OfPart(PartId(upload, rows[j].no)), rows[j].file);
    }
  }

  lemma PublishedKept(s: Db, upload: string, etag: seq<Byte>)
    requires Inv(s) && PartRows(s.parts, upload) != []
    ensures var m := Published(PartRows(s.parts, upload), etag);
      MetaKept(m, s.written) && FilesOf(m) == PartFiles(s.parts, upload)
  {
    PartRowsAre(s, upload);
    RowsPublished(PartRows(s.parts, upload), etag, s.written, PartFiles(s.parts, upload));
  }

  lemma RowsPublished(rows: seq<PartRow>, etag: seq<Byte>, written: map<nat, seq<Byte>>, files: set<nat>)
    requires rows != []
    requires forall i | 0 <= i < |rows| ::
      rows[i].file in files && rows[i].file in written && |written[rows[i].file]| == rows[i].size
    requires forall f <- files :: exists i :: 0 <= i < |rows| && rows[i].file == f
    requires forall i, j | 0 <= i < j < |rows| :: rows[i].file != rows[j].file
    ensures MetaKept(Published(rows, etag), written) && FilesOf(Published(rows, etag)) == files
  {
    PublishedTiles(rows, etag, written);
    PublishedFiles(rows, etag, files);
    RowsKeep(rows, Published(rows, etag), written, files);
  }

  lemma RowsKeep(rows: seq<PartRow>, m: Meta, written: map<nat, seq<Byte>>, files: set<nat>)
    requires Tiled(Segments(m), written, m.size) && FilesOf(m) == files
    requires |Segments(m)| == |rows| && forall i | 0 <= i < |rows| ::
      Segments(m)[i].file == rows[i].file && rows[i].file in files
    requires forall f <- files :: exists i :: 0 <= i < |rows| && rows[i].file == f
    requires forall i, j | 0 <= i < j < |rows| :: rows[i].file != rows[j].file
    ensures MetaKept(m, written)
  {
    var segs := Segments(m);
    forall f <- files ensures exists i :: 0 <= i < |segs| && segs[i].file == f {
      var i :| 0 <= i < |rows| && rows[i].file == f;
      assert segs[i].file == f;
    }
  }

  lemma PublishedFiles(rows: seq<PartRow>, etag: seq<Byte>, files: set<nat>)
    requires rows != [] && (forall i | 0 <= i < |rows| :: rows[i].file in files)
    requires forall f <- files :: exists i :: 0 <= i < |rows| && rows[i].file == f
    ensures FilesOf(Published(rows, etag)) == files
  {
    var m := Published(rows, etag);
    forall f <- FilesOf(m) ensures f in files {
      if f in Ids(rows) {
        var i :| 0 <= i < |rows| && Ids(rows)[i] == f;
      }
    }
    forall f <- files ensures f in FilesOf(m) {
      var i :| 0 <= i < |rows| && rows[i].file == f;
      assert Ids(rows)[i] == f;
    }
  }

  lemma PartsMove(s: Db, t: Db, upload: string, k: ObjKey, m: Meta)
    requires Disjoint(s) && FilesOf(m) == PartFiles(s.parts, upload)
    requires t.objects == s.objects[k := m]
    requires t.parts == map id | id in s.parts && id.upload != upload :: s.parts[id]
    ensures Moves(s, t, Reaped(Lookup(s.objects, k)), FilesOf(m), OfObject(k))
  {
    var dead, moved := Reaped(Lookup(s.objects, k)), FilesOf(m);
    OwnedBy(s, OfObject(k), dead);
    forall f <- moved ensures f !in dead {
      var id :| id in s.parts && id.upload == upload && s.parts[id].file == f;
      assert Owns(s, OfPart(id), f);
    }
    forall o, f ensures Owns(t, o, f) <==> if f in moved then o == OfObject(k) else f !in dead && Owns(s, o, f) {
      assert Owns(s, OfObject(k), f) <==> f in dead;
      if f in moved {
        var id :| id in s.parts && id.upload == upload && s.parts[id].file == f;
        assert Owns(s, OfPart(id), f);
        assert Owns(s, o, f) ==> o == OfPart(id);
      }
      if o.OfPart? {
        assert Owns(t, o, f) <==> Owns(s, o, f) && o.id.upload != upload;
        assert Owns(s, o, f) && o.id.upload == upload ==> f in moved;
      } else if o.key != k {
        assert Owns(t, o, f) == Owns(s, o, f);
      }
    }
  }

  lemma CompleteKeepsInv(s: Db, upload: string, k: ObjKey, listed: seq<Listed>, etag: seq<Byte>)
    requires Inv(s) && Apply(s, Complete(upload, k, listed, etag)).Some?
    ensures Inv(Apply(s, Complete(upload, k, listed, etag)).value)
  {
    var t := Apply(s, Complete(upload, k, listed, etag)).value;
    var rows := PartRows(s.parts, upload);
    SortKeepsLength(listed);
    assert |AllListed(rows)| == |rows|;
    PublishedKept(s, upload, etag);
    PartsMoveKeepsInv(s, t, upload, k, Published(rows, etag));
  }

  lemma PartsMoveKeepsInv(s: Db, t: Db, upload: string, k: ObjKey, m: Meta)
    requires Inv(s) && Lookup(s.uploads, upload) == Some(k)
    requires MetaKept(m, s.written) && FilesOf(m) == PartFiles(s.parts, upload)
    requires t == Cleared(Swapped(s, k, Unconditional, Lookup(s.objects, k), m), upload)
    ensures Inv(t)
  {
    PartsMove(s, t, upload, k, m);
    var dead := Reaped(Lookup(s.objects, k));
    DisjointMoves(s, t, dead, FilesOf(m), OfObject(k));
    ReapedRows(s, t, dead, FilesOf(m), OfObject(k));
    MovedIds(s, t, dead, FilesOf(m), OfObject(k), upload);
    ObjectsWith(s, t, k, m);
  }

  lemma MovedIds(s: Db, t: Db, dead: set<nat>, moved: set<nat>, owner: Owner, upload: string)
    requires FreshIds(s) && Referenced(s) && Moves(s, t, dead, moved, owner)
    requires moved == PartFiles(s.parts, upload)
    requires t.written == s.written && t.writing == s.writing && t.nextFile == s.nextFile
    ensures FreshIds(t)
  {
    forall o, f | Owns(t, o, f) ensures f in t.written {
      assert f in moved || Owns(s, o, f);
    }
  }

  // ---- Expire ----

  lemma DoomedIs(s: Db, file: nat, limit: nat)
    ensures var d := Doomed(s.chunks, file, limit);
      && |d| == Min(limit, |RowNos(s.chunks, file)|)
      && (forall r <- d :: r in s.chunks && r.file == file)
      && (forall r, q | r in d && q in s.chunks && q.file == file && q !in d :: r.no < q.no)
      && (|d| < limit ==> forall r <- s.chunks :: r.file == file ==> r in d)
  {
    var nos := RowNos(s.chunks, file);
    var low := Lowest(nos, limit);
    LowestIs(nos, limit);
    var d := Doomed(s.chunks, file, limit);
    CountRows(file, low);
    forall r <- d ensures r in s.chunks && r.file == file && r.no in low {
    }
    forall r, q | r in d && q in s.chunks && q.file == file && q !in d ensures r.no < q.no {
      assert q == RowId(file, q.no);
      assert q.no in nos - low;
    }
    if |d| < limit {
      assert nos - low == {} by { assert |nos - low| == |nos| - |low|; }
      forall r <- s.chunks | r.file == file ensures r in d {
        assert r.no in nos && r == RowId(file, r.no);
      }
    }
  }

  lemma {:induction false} CountRows(file: nat, nos: set<int>)
    ensures |set no | no in nos :: RowId(file, no)| == |nos|
  {
    if nos != {} {
      var x := Element(nos);
      CountRows(file, nos - {x});
      assert (set no | no in nos :: RowId(file, no))
          == (set no | no in nos - {x} :: RowId(file, no)) + {RowId(file, x)};
    }
  }

  // Removing the lowest rows of a file.
  lemma FrontRemoved(s: Db, t: Db, file: nat, limit: nat)
    requires Inv(s) && t == s.(chunks := s.chunks - Doomed(s.chunks, file, limit))
    ensures Inv(t)
  {
    DoomedIs(s, file, limit);
    forall o, f ensures Owns(t, o, f) == Owns(s, o, f) {
    }
    forall r <- t.chunks ensures Owned(t, r.file) && RowKept(t, r) {
      assert RowKept(s, r);
      var o :| Owns(s, o, r.file);
      assert Owns(t, o, r.file);
      forall no | r.no <= no < RowCount(|s.written[r.file]|) ensures RowId(r.file, no) in t.chunks {
        assert RowId(r.file, no) in s.chunks;
      }
    }
    BucketsThere(s);
    ObjectsStay(s, t);
  }

  // A part whose rows are gone goes.
  lemma PartRemoved(s: Db, t: Db, id: PartId)
    requires Inv(s) && id in s.parts && (forall r <- s.chunks :: r.file != s.parts[id].file)
    requires t == s.(parts := s.parts - {id})
    ensures Inv(t)
  {
    var dead := {s.parts[id].file};
    assert Owns(s, OfPart(id), s.parts[id].file);
    OwnedBy(s, OfPart(id), dead);
    forall o, f ensures Owns(t, o, f) <==> f !in dead && Owns(s, o, f) {
      assert Owns(s, OfPart(id), f) <==> f in dead;
      assert o != OfPart(id) ==> Owns(t, o, f) == Owns(s, o, f);
    }
    assert t.chunks == WithoutFiles(s.chunks, dead);
    OwnersGone(s, t, dead, OfPart(id));
    BucketsThere(s);
    ObjectsStay(s, t);
  }

  // An upload without parts goes.
  lemma UploadRemoved(s: Db, t: Db, upload: string)
    requires Inv(s) && PartNos(s.parts, upload) == {} && t == s.(uploads := s.uploads - {upload})
    ensures Inv(t)
  {
    SameOwners(s, t);
    BucketsThere(s);
    ObjectsStay(s, t);
    forall id <- t.parts ensures id.upload in t.uploads {
      assert id.upload == upload ==> id.no in PartNos(s.parts, upload);
    }
  }

  lemma ExpireKeepsInv(s: Db, upload: string, limit: nat)
    requires Inv(s) && limit > 0
    ensures Inv(ExpireAttempt(s, upload, limit).0)
  {
    var rows := PartRows(s.parts, upload);
    PartRowsNumbered(s.parts, upload);
    if rows == [] {
      assert Sorted(PartNos(s.parts, upload)) == [];
      UploadRemoved(s, s.(uploads := s.uploads - {upload}), upload);
    } else {
      var file, id := rows[0].file, PartId(upload, rows[0].no);
      var doomed := Doomed(s.chunks, file, limit);
      var t := s.(chunks := s.chunks - doomed);
      FrontRemoved(s, t, file, limit);
      if |doomed| < limit {
        DoomedIs(s, file, limit);
        var u := t.(parts := t.parts - {id});
        PartRemoved(t, u, id);
        if PartNos(u.parts, upload) == {} {
          UploadRemoved(u, u.(uploads := u.uploads - {upload}), upload);
        }
      }
    }
  }

  // ---- every transaction, every run ----

  lemma StepKeepsInv(s: Db, a: Action)
    requires Inv(s) && Apply(s, a).Some?
    ensures Inv(Apply(s, a).value)
  {
    match a
    case NextFile => WriterKeepsInv(s, a);
    case DropWriter(_) => WriterKeepsInv(s, a);
    case Put(k, file, data, etag, condition) => PutKeepsInv(s, k, file, data, etag, condition);
    case PutPart(id, file, data, sha) => PutPartKeepsInv(s, id, file, data, sha);
    case Complete(upload, k, listed, etag) => CompleteKeepsInv(s, upload, k, listed, etag);
    case AbortUpload(upload, k) => AbortKeepsInv(s, upload, k);
    case Delete(k) => DeleteKeepsInv(s, k);
    case CreateBucket(_) => BucketKeepsInv(s, a);
    case DeleteBucket(_) => BucketKeepsInv(s, a);
    case CreateUpload(k, newId) => CreateUploadKeepsInv(s, k, newId);
    case Expire(upload, limit) => ExpireKeepsInv(s, upload, limit);
  }

  lemma {:induction false} RunKeepsInv(run: seq<Db>, i: nat)
    requires Run(run) && i < |run|
    ensures Inv(run[i])
  {
    if i > 0 {
      RunKeepsInv(run, i - 1);
      if run[i] != run[i - 1] {
        assert NextAt(run, i - 1);
        var a: Action :| Apply(run[i - 1], a) == Some(run[i]);
        StepKeepsInv(run[i - 1], a);
      }
    }
  }

  // No row is ever stranded or shared: each belongs to exactly one owner, with
  // the bytes its file was committed with.
  lemma EveryRowHasOneOwner(run: seq<Db>, i: nat, r: RowId) returns (o: Owner)
    requires Run(run) && i < |run| && r in run[i].chunks
    ensures Owns(run[i], o, r.file) && forall p :: Owns(run[i], p, r.file) ==> p == o
    ensures r.file in run[i].written && 0 <= r.no < RowCount(|run[i].written[r.file]|)
    ensures run[i].chunks[r] == RowAt(run[i].written[r.file], r.no)
  {
    RunKeepsInv(run, i);
    assert RowKept(run[i], r) && Owned(run[i], r.file);
    o :| Owns(run[i], o, r.file);
  }
}
