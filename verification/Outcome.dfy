// What each transaction needs and what it leaves, table by table and row by
// row.
module Outcomes {
  import opened Base
  import opened Objects
  import opened Completion
  import opened Store
  import opened StoreInvariant
  import opened Versions
  import opened Interleaving

  // ---- when a transaction commits ----

  ghost predicate Permits(condition: Condition, objects: map<ObjKey, Meta>, k: ObjKey) {
    match condition
    case Unconditional => true
    case IfAbsent => k !in objects
    case IfMatch(want) => k in objects && Hex(objects[k].etag) == want
  }

  // The list names every recorded part of the upload once, under its ETag.
  ghost predicate ListsParts(listed: seq<Completion.Listed>, parts: map<PartId, Part>, upload: string) {
    && listed != []
    && (forall i, j | 0 <= i < j < |listed| :: listed[i].no != listed[j].no)
    && (forall l <- listed :: PartId(upload, l.no) in parts && Hex(parts[PartId(upload, l.no)].sha) == l.etag)
    && (forall id <- parts | id.upload == upload :: ListsNo(listed, id.no))
  }

  ghost predicate ListsNo(listed: seq<Completion.Listed>, no: int) { exists l <- listed :: l.no == no }

  lemma ListsPartsIff(listed: seq<Completion.Listed>, parts: map<PartId, Part>, upload: string)
    ensures ListsParts(listed, parts, upload)
       <==> listed != [] && SortByNo(listed) == AllListed(PartRows(parts, upload))
  {
    var rows := PartRows(parts, upload);
    PartRowsNumbered(parts, upload);
    ValidIffMatches(listed, rows);
    MatchesIff(listed, rows);
    if ListsParts(listed, parts, upload) {
      ListsRows(listed, parts, upload);
    }
    if ListedOnce(listed, rows) {
      RowsListed(listed, parts, upload);
    }
  }

  lemma RowOf(parts: map<PartId, Part>, id: PartId) returns (r: Completion.PartRow)
    requires id in parts
    ensures r in PartRows(parts, id.upload) && r.no == id.no && parts[id] == Part(r.file, r.size, r.sha)
  {
    var rows, nos := PartRows(parts, id.upload), Sorted(PartNos(parts, id.upload));
    PartRowsNumbered(parts, id.upload);
    var i :| 0 <= i < |nos| && nos[i] == id.no;
    r := rows[i];
  }

  lemma ListsRows(listed: seq<Completion.Listed>, parts: map<PartId, Part>, upload: string)
    requires ListsParts(listed, parts, upload)
    ensures ListedOnce(listed, PartRows(parts, upload))
  {
    var rows := PartRows(parts, upload);
    PartRowsNumbered(parts, upload);
    forall l <- listed ensures IsRecorded(l, rows) {
      var r := RowOf(parts, PartId(upload, l.no));
    }
    forall r <- rows ensures IsNamed(r, listed) {
      var i :| 0 <= i < |rows| && rows[i] == r;
      assert PartId(upload, r.no) in parts && ListsNo(listed, r.no);
    }
  }

  lemma RowsListed(listed: seq<Completion.Listed>, parts: map<PartId, Part>, upload: string)
    requires ListedOnce(listed, PartRows(parts, upload))
    ensures ListsParts(listed, parts, upload)
  {
    var rows := PartRows(parts, upload);
    PartRowsNumbered(parts, upload);
    forall l <- listed ensures PartId(upload, l.no) in parts && Hex(parts[PartId(upload, l.no)].sha) == l.etag {
      assert IsRecorded(l, rows);
      var r :| r in rows && r.no == l.no && Hex(r.sha) == l.etag;
      var i :| 0 <= i < |rows| && rows[i] == r;
    }
    forall id <- parts | id.upload == upload ensures ListsNo(listed, id.no) {
      var r := RowOf(parts, id);
      assert IsNamed(r, listed);
    }
  }

  // The transaction's conditions, on the tables.
  ghost predicate MayCommit(s: Db, a: Action) {
    match a
    case NextFile => true
    case DropWriter(file) => file in s.writing
    case Put(k, file, data, _, condition) =>
      file in s.writing && |data| <= MAX_FILE && k.bucket in s.buckets && Permits(condition, s.objects, k)
    case PutPart(id, file, data, _) => file in s.writing && |data| <= MAX_FILE && id.upload in s.uploads
    case Complete(upload, k, listed, _) =>
      upload in s.uploads && s.uploads[upload] == k && ListsParts(listed, s.parts, upload)
    case AbortUpload(upload, k) => upload in s.uploads && s.uploads[upload] == k
    case Delete(_) => true
    case CreateBucket(_) => true
    case DeleteBucket(name) =>
      && name in s.buckets
      && (forall k <- s.objects :: k.bucket != name) && (forall u <- s.uploads :: s.uploads[u].bucket != name)
    case CreateUpload(k, newId) =>
      k.bucket in s.buckets && ((exists u <- s.uploads :: s.uploads[u] == k) || newId !in s.uploads)
    case Expire(upload, limit) => upload in s.uploads && limit > 0
  }

  // A transaction commits exactly if they hold.
  lemma CommitsIff(s: Db, a: Action)
    ensures Apply(s, a).Some? <==> MayCommit(s, a)
  {
    if a.Complete? {
      ListsPartsIff(a.listed, s.parts, a.upload);
    }
  }

  // The look under the advisory lock goes on exactly if the condition holds of
  // what it finds.
  lemma LookGoesOnIff(hash: ObjKey -> int, s: Sys, i: nat)
    requires i in s.txs && Mutation(s.txs[i].action) && s.txs[i].pc == Locked
    ensures var t := Next(hash, s, Look(i)); var a := s.txs[i].action;
      t.Some? && t.value.db == s.db
      && (i in t.value.txs <==> (a.Put? ==> Permits(a.condition, s.db.objects, a.key)))
  {
  }

  // So does the first check.
  lemma CheckGoesOnIff(hash: ObjKey -> int, s: Sys, i: nat)
    requires i in s.txs && Mutation(s.txs[i].action) && s.txs[i].pc == Begun
    requires forall j <- s.txs :: var x, a := s.txs[j], s.txs[i].action;
      x.action.Complete? && a.Complete? && x.pc != Begun ==> x.action.upload != a.upload
    ensures var t := Next(hash, s, Check(i)); var a := s.txs[i].action;
      t.Some? && t.value.db == s.db
      && (i in t.value.txs <==>
            && (a.Put? ==> a.key.bucket in s.db.buckets)
            && (a.Complete? ==>
                  && a.upload in s.db.uploads && s.db.uploads[a.upload] == a.key
                  && ListsParts(a.listed, s.db.parts, a.upload)))
  {
    var a := s.txs[i].action;
    if a.Complete? {
      ListsPartsIff(a.listed, s.db.parts, a.upload);
      assert !LocksUpload(s, a.upload);
    }
  }

  // ---- what it leaves ----

  // The row of a file of these bytes.
  function RowOfFile(data: seq<Byte>, no: int): Option<seq<Byte>> {
    if 0 <= no && no * ROW_BYTES < |data| then Some(data[no * ROW_BYTES..Min((no + 1) * ROW_BYTES, |data|)]) else None
  }

  // The file is the object's, or one of its parts.
  predicate BelongsTo(file: nat, m: Meta) { file == m.fileId || (m.parts.Some? && file in m.parts.value) }

  predicate BelongedTo(objects: map<ObjKey, Meta>, k: ObjKey, file: nat) { k in objects && BelongsTo(file, objects[k]) }

  lemma RowsOfFile(file: nat, data: seq<Byte>, r: RowId)
    ensures Lookup(FileRows(file, data), r) == if r.file == file then RowOfFile(data, r.no) else None
  {
    if r.file == file && 0 <= r.no {
      assert r.no * ROW_BYTES < |data| <==> r.no < RowCount(|data|);
      assert r == RowId(file, r.no);
    }
  }

  // A row after `file` was written and the rows of some others reaped.
  function NewRow(s: Db, r: RowId, file: nat, data: seq<Byte>, reaped: bool): Option<seq<Byte>> {
    if r.file == file then RowOfFile(data, r.no) else OldRow(s, r, reaped)
  }

  function OldRow(s: Db, r: RowId, reaped: bool): Option<seq<Byte>> {
    if reaped then None else Lookup(s.chunks, r)
  }

  lemma NoRowYet(s: Db, file: nat, r: RowId)
    requires Inv(s) && file in s.writing && r.file == file
    ensures r !in s.chunks
  {
    assert r in s.chunks ==> RowKept(s, r);
  }

  // A Put: the key is the new object, its file's rows are the data's, those of
  // what it replaced are gone.
  lemma PutLeaves(s: Db, k: ObjKey, file: nat, data: seq<Byte>, etag: seq<Byte>, condition: Condition, t: Db)
    requires Inv(s) && Apply(s, Put(k, file, data, etag, condition)) == Some(t)
    ensures t == s.(objects := t.objects, chunks := t.chunks, writing := s.writing - {file},
      written := s.written[file := data], log := s.log + [Change(k, condition, Lookup(s.objects, k), Lookup(t.objects, k))])
    ensures forall q :: Lookup(t.objects, q) == if q == k then Some(Meta(file, |data|, etag, None, None)) else Lookup(s.objects, q)
    ensures forall r :: Lookup(t.chunks, r) == NewRow(s, r, file, data, BelongedTo(s.objects, k, r.file))
  {
    FreshFile(s, file);
    assert !Owns(s, OfObject(k), file);
    forall r ensures Lookup(t.chunks, r) == NewRow(s, r, file, data, BelongedTo(s.objects, k, r.file)) {
      RowsOfFile(file, data, r);
      if r.file == file {
        NoRowYet(s, file, r);
      }
    }
  }

  // A part write: the part is recorded, the rows of an earlier attempt are gone.
  lemma PutPartLeaves(s: Db, id: PartId, file: nat, data: seq<Byte>, sha: seq<Byte>, t: Db)
    requires Inv(s) && Apply(s, PutPart(id, file, data, sha)) == Some(t)
    ensures t == s.(parts := t.parts, chunks := t.chunks, writing := s.writing - {file}, written := s.written[file := data])
    ensures forall q :: Lookup(t.parts, q) == if q == id then Some(Part(file, |data|, sha)) else Lookup(s.parts, q)
    ensures forall r :: Lookup(t.chunks, r) == NewRow(s, r, file, data, id in s.parts && r.file == s.parts[id].file)
  {
    FreshFile(s, file);
    assert !Owns(s, OfPart(id), file);
    forall r ensures Lookup(t.chunks, r) == NewRow(s, r, file, data, id in s.parts && r.file == s.parts[id].file) {
      RowsOfFile(file, data, r);
      if r.file == file {
        NoRowYet(s, file, r);
      }
    }
  }

  // The upload's parts in number order.
  ghost predicate InOrder(rows: seq<Completion.PartRow>, parts: map<PartId, Part>, upload: string) {
    && (forall i, j | 0 <= i < j < |rows| :: rows[i].no < rows[j].no)
    && (forall r <- rows :: Lookup(parts, PartId(upload, r.no)) == Some(Part(r.file, r.size, r.sha)))
    && (forall id <- parts | id.upload == upload :: exists r <- rows :: r.no == id.no)
  }

  // The object is the parts' files in order, each ending where its bytes do.
  ghost predicate JoinedFrom(m: Meta, rows: seq<Completion.PartRow>, etag: seq<Byte>) {
    && rows != [] && m.fileId == rows[0].file && m.etag == etag && m.parts.Some? && m.partEnds.Some?
    && |m.parts.value| == |m.partEnds.value| == |rows|
    && (forall i | 0 <= i < |rows| :: m.parts.value[i] == rows[i].file)
    && (forall i | 0 <= i < |rows| :: m.partEnds.value[i] == EndOfPart(m.partEnds.value, i) + rows[i].size)
    && m.size == EndOfPart(m.partEnds.value, |rows|)
  }

  // Where the first `n` parts end.
  function EndOfPart(ends: seq<int>, n: nat): int
    requires n <= |ends|
  {
    if n == 0 then 0 else ends[n - 1]
  }

  lemma PartRowsInOrder(parts: map<PartId, Part>, upload: string)
    ensures InOrder(PartRows(parts, upload), parts, upload)
  {
    var rows := PartRows(parts, upload);
    PartRowsNumbered(parts, upload);
    forall r <- rows ensures Lookup(parts, PartId(upload, r.no)) == Some(Part(r.file, r.size, r.sha)) {
      var i :| 0 <= i < |rows| && rows[i] == r;
    }
    forall id <- parts | id.upload == upload ensures exists r <- rows :: r.no == id.no {
      var r := RowOf(parts, id);
    }
  }

  lemma PublishedJoins(rows: seq<Completion.PartRow>, etag: seq<Byte>)
    requires rows != []
    ensures JoinedFrom(Published(rows, etag), rows, etag)
  {
    var m := Published(rows, etag);
    forall i | 0 <= i < |rows|
      ensures m.partEnds.value[i] == EndOfPart(m.partEnds.value, i) + rows[i].size
    {
      EndFollows(rows, i);
    }
    EndAt(rows, |rows| - 1);
    assert rows[..|rows|] == rows;
  }

  lemma EndFollows(rows: seq<Completion.PartRow>, i: nat)
    requires i < |rows|
    ensures Ends(rows)[i] == EndOfPart(Ends(rows), i) + rows[i].size
  {
    EndAt(rows, i);
    OneMore(rows, i);
    assert rows[..0] == [];
    if i > 0 {
      EndAt(rows, i - 1);
    }
  }

  // A Complete: the key is the parts joined, their rows stay, the upload and
  // its part records are gone and so are the rows of what was replaced.
  lemma CompleteLeaves(s: Db, upload: string, k: ObjKey, listed: seq<Completion.Listed>, etag: seq<Byte>, t: Db)
    requires Inv(s) && Apply(s, Complete(upload, k, listed, etag)) == Some(t)
    ensures t == s.(objects := t.objects, chunks := t.chunks, uploads := t.uploads, parts := t.parts,
      log := s.log + [Change(k, Unconditional, Lookup(s.objects, k), Lookup(t.objects, k))])
    ensures k in t.objects && InOrder(PartRows(s.parts, upload), s.parts, upload)
    ensures JoinedFrom(t.objects[k], PartRows(s.parts, upload), etag)
    ensures forall q :: q != k ==> Lookup(t.objects, q) == Lookup(s.objects, q)
    ensures forall u :: Lookup(t.uploads, u) == if u == upload then None else Lookup(s.uploads, u)
    ensures forall id :: Lookup(t.parts, id) == if id.upload == upload then None else Lookup(s.parts, id)
    ensures forall r :: Lookup(t.chunks, r) == OldRow(s, r, BelongedTo(s.objects, k, r.file))
  {
    var rows := PartRows(s.parts, upload);
    CompletePublishes(s, upload, k, listed, etag, t);
    PartRowsInOrder(s.parts, upload);
    PublishedJoins(rows, etag);
    ClearedLeaves(s, upload, k, Published(rows, etag), t);
  }

  lemma CompletePublishes(s: Db, upload: string, k: ObjKey, listed: seq<Completion.Listed>, etag: seq<Byte>, t: Db)
    requires Inv(s) && Apply(s, Complete(upload, k, listed, etag)) == Some(t)
    ensures var rows := PartRows(s.parts, upload);
      rows != [] && t == Cleared(Swapped(s, k, Unconditional, Lookup(s.objects, k), Published(rows, etag)), upload)
  {
    SortKeepsLength(listed);
    assert |AllListed(PartRows(s.parts, upload))| == |PartRows(s.parts, upload)|;
  }

  lemma ClearedLeaves(s: Db, upload: string, k: ObjKey, m: Meta, t: Db)
    requires t == Cleared(Swapped(s, k, Unconditional, Lookup(s.objects, k), m), upload)
    ensures t == s.(objects := t.objects, chunks := t.chunks, uploads := t.uploads, parts := t.parts,
      log := s.log + [Change(k, Unconditional, Lookup(s.objects, k), Some(m))])
    ensures forall q :: Lookup(t.objects, q) == if q == k then Some(m) else Lookup(s.objects, q)
    ensures forall u :: Lookup(t.uploads, u) == if u == upload then None else Lookup(s.uploads, u)
    ensures forall id :: Lookup(t.parts, id) == if id.upload == upload then None else Lookup(s.parts, id)
    ensures forall r :: Lookup(t.chunks, r) == OldRow(s, r, BelongedTo(s.objects, k, r.file))
  {
  }

  // A Delete: the key is gone, with the rows of its files.
  lemma DeleteLeaves(s: Db, k: ObjKey, t: Db)
    requires Apply(s, Delete(k)) == Some(t)
    ensures t == s.(objects := t.objects, chunks := t.chunks,
      log := if k in s.objects then s.log + [Change(k, Unconditional, Some(s.objects[k]), None)] else s.log)
    ensures forall q :: Lookup(t.objects, q) == if q == k then None else Lookup(s.objects, q)
    ensures forall r :: Lookup(t.chunks, r) == OldRow(s, r, BelongedTo(s.objects, k, r.file))
  {
  }

  // An abort: the upload is gone, with its parts and their rows.
  lemma AbortLeaves(s: Db, upload: string, k: ObjKey, t: Db)
    requires Apply(s, AbortUpload(upload, k)) == Some(t)
    ensures t == s.(chunks := t.chunks, uploads := t.uploads, parts := t.parts)
    ensures forall u :: Lookup(t.uploads, u) == if u == upload then None else Lookup(s.uploads, u)
    ensures forall id :: Lookup(t.parts, id) == if id.upload == upload then None else Lookup(s.parts, id)
    ensures forall r ::
      Lookup(t.chunks, r) == OldRow(s, r, exists id <- s.parts :: id.upload == upload && s.parts[id].file == r.file)
  {
  }

  // Buckets, uploads, writers: one entry each.
  lemma SmallOnesLeave(s: Db, a: Action, t: Db)
    requires Apply(s, a) == Some(t)
    ensures match a
      case NextFile => t == s.(nextFile := s.nextFile + 1, writing := s.writing + {s.nextFile})
      case DropWriter(file) => t == s.(writing := s.writing - {file})
      case CreateBucket(name) => t == s.(buckets := s.buckets + {name})
      case DeleteBucket(name) => t == s.(buckets := s.buckets - {name})
      case CreateUpload(k, newId) =>
        t == if exists u <- s.uploads :: s.uploads[u] == k then s else s.(uploads := s.uploads[newId := k])
      case _ => true
  {
  }

  // One pass of expiry: without parts the upload goes. Else the lowest rows of
  // the lowest part go, as many as the limit allows; the part with them if there
  // were fewer than the limit; the upload with its last part.
  lemma ExpireLeaves(s: Db, upload: string, limit: nat, t: Db)
    requires Apply(s, Expire(upload, limit)) == Some(t)
    ensures (forall id <- s.parts :: id.upload != upload) ==> t == s.(uploads := s.uploads - {upload})
    ensures (exists id <- s.parts :: id.upload == upload) ==>
      exists id :: id in s.parts && id.upload == upload && LowestPart(s.parts, id) && Drains(s, id, limit, t)
  {
    var rows := PartRows(s.parts, upload);
    PartRowsNumbered(s.parts, upload);
    if rows == [] {
      forall id <- s.parts ensures id.upload != upload {
        assert id.upload == upload ==> id.no in Sorted(PartNos(s.parts, upload));
      }
    } else {
      var id := PartId(upload, rows[0].no);
      FirstIsLowest(s.parts, upload);
      DrainsFirst(s, id, limit, t);
    }
  }

  ghost predicate LowestPart(parts: map<PartId, Part>, id: PartId) {
    forall q <- parts | q.upload == id.upload :: id.no <= q.no
  }

  lemma FirstIsLowest(parts: map<PartId, Part>, upload: string)
    requires PartRows(parts, upload) != []
    ensures var id := PartId(upload, PartRows(parts, upload)[0].no); id in parts && LowestPart(parts, id)
  {
    var rows := PartRows(parts, upload);
    PartRowsNumbered(parts, upload);
    forall q <- parts | q.upload == upload ensures rows[0].no <= q.no {
      var r := RowOf(parts, q);
      var i :| 0 <= i < |rows| && rows[i] == r;
    }
  }

  ghost predicate Drains(s: Db, id: PartId, limit: nat, t: Db)
    requires id in s.parts
  {
    var file := s.parts[id].file;
    var had := set r | r in s.chunks && r.file == file;
    var gone := s.chunks.Keys - t.chunks.Keys;
    && t == s.(chunks := t.chunks, parts := t.parts, uploads := t.uploads)
    && t.chunks == s.chunks - gone && gone <= had && |gone| == Min(limit, |had|)
    && (forall r, q | r in gone && q in had - gone :: r.no < q.no)
    && t.parts == (if |had| < limit then s.parts - {id} else s.parts)
    && t.uploads == if |had| < limit && forall q <- s.parts :: q.upload == id.upload ==> q == id
         then s.uploads - {id.upload} else s.uploads
  }

  lemma DrainsFirst(s: Db, id: PartId, limit: nat, t: Db)
    requires limit > 0 && PartRows(s.parts, id.upload) != [] && id.no == PartRows(s.parts, id.upload)[0].no
    requires id in s.parts && t == ExpireAttempt(s, id.upload, limit).0
    ensures Drains(s, id, limit, t)
  {
    PartRowsNumbered(s.parts, id.upload);
    var file := s.parts[id].file;
    var had := set r | r in s.chunks && r.file == file;
    var d := Doomed(s.chunks, file, limit);
    DoomedIs(s, file, limit);
    CountHad(s.chunks, file, had);
    LastPart(s.parts, id);
    DrainedBy(s, id, limit, had, d, t);
  }

  lemma DrainedBy(s: Db, id: PartId, limit: nat, had: set<RowId>, d: set<RowId>, t: Db)
    requires id in s.parts && had == set r | r in s.chunks && r.file == s.parts[id].file
    requires d <= had && |d| == Min(limit, |had|) && forall r, q | r in d && q in had - d :: r.no < q.no
    requires t == s.(chunks := s.chunks - d, parts := t.parts, uploads := t.uploads)
    requires t.parts == if |d| < limit then s.parts - {id} else s.parts
    requires t.uploads == if |d| < limit && forall q <- s.parts :: q.upload == id.upload ==> q == id
      then s.uploads - {id.upload} else s.uploads
    ensures Drains(s, id, limit, t)
  {
    RowsGone(s.chunks, d);
  }

  lemma RowsGone(chunks: map<RowId, seq<Byte>>, d: set<RowId>)
    requires forall r <- d :: r in chunks
    ensures chunks.Keys - (chunks - d).Keys == d
  {
  }

  lemma CountHad(chunks: map<RowId, seq<Byte>>, file: nat, had: set<RowId>)
    requires had == set r | r in chunks && r.file == file
    ensures |had| == |RowNos(chunks, file)|
  {
    var nos := RowNos(chunks, file);
    CountRows(file, nos);
    forall r ensures r in had <==> r in set no | no in nos :: RowId(file, no) {
      if r in had {
        assert r == RowId(file, r.no) && r.no in nos;
      }
    }
    assert had == set no | no in nos :: RowId(file, no);
  }

  lemma LastPart(parts: map<PartId, Part>, id: PartId)
    requires id in parts
    ensures PartNos(parts - {id}, id.upload) == {} <==> forall q <- parts :: q.upload == id.upload ==> q == id
  {
    if PartNos(parts - {id}, id.upload) == {} {
      forall q <- parts | q.upload == id.upload ensures q == id {
        assert q != id ==> q.no in PartNos(parts - {id}, id.upload);
      }
    }
  }
}
