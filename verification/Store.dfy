// The database every gateway shares: its tables, and each transaction of
// db.rs and schema.sql as one atomic step.
module Store {
  import opened Base
  import opened Objects
  import opened Completion

  datatype ObjKey = ObjKey(bucket: string, key: string)
  datatype RowId = RowId(file: nat, no: int)
  datatype PartId = PartId(upload: string, no: int)
  datatype Part = Part(file: nat, size: nat, sha: seq<Byte>)
  datatype Condition = Unconditional | IfAbsent | IfMatch(want: string)

  // One committed change of one key.
  datatype Change = Change(key: ObjKey, condition: Condition, before: Option<Meta>, after: Option<Meta>)

  // The tables; the file id sequence and the ids handed to open writers; and
  // two records of the past: the bytes each file was committed with, and the
  // changes of keys in commit order.
  datatype Db = Db(
    buckets: set<string>,
    objects: map<ObjKey, Meta>,
    chunks: map<RowId, seq<Byte>>,
    uploads: map<string, ObjKey>,
    parts: map<PartId, Part>,
    nextFile: nat,
    writing: set<nat>,
    written: map<nat, seq<Byte>>,
    log: seq<Change>)

  const Empty := Db({}, map[], map[], map[], map[], 0, {}, map[], [])

  // ---- pieces of SQL ----

  // The files reap() names: every part, and the object's own.
  function FilesOf(m: Meta): set<nat> {
    {m.fileId} + if m.parts.Some? then set f | f in m.parts.value else {}
  }

  function Reaped(was: Option<Meta>): set<nat> { if was.Some? then FilesOf(was.value) else {} }

  function WithoutFiles(chunks: map<RowId, seq<Byte>>, dead: set<nat>): map<RowId, seq<Byte>> {
    map r | r in chunks && r.file !in dead :: chunks[r]
  }

  function FileRows(file: nat, data: seq<Byte>): map<RowId, seq<Byte>> {
    map no | 0 <= no < RowCount(|data|) :: RowId(file, no) := RowAt(data, no)
  }

  // A finished COPY.
  function Copied(s: Db, file: nat, data: seq<Byte>): Db {
    s.(chunks := s.chunks + FileRows(file, data), writing := s.writing - {file}, written := s.written[file := data])
  }

  // swap_object: point the key at new storage and reap what it replaces.
  function Swapped(s: Db, k: ObjKey, condition: Condition, was: Option<Meta>, now: Meta): Db {
    s.(objects := s.objects[k := now], chunks := WithoutFiles(s.chunks, Reaped(was)),
       log := s.log + [Change(k, condition, was, Some(now))])
  }

  function Allowed(condition: Condition, was: Option<Meta>): bool {
    match condition
    case Unconditional => true
    case IfAbsent => was.None?
    case IfMatch(want) => was.Some? && Hex(was.value.etag) == want
  }

  // ---- parts of one upload, in number order ----

  predicate IsLeast(s: set<int>, x: int) { x in s && forall y <- s :: x <= y }

  lemma {:induction false} LeastExists(s: set<int>)
    requires s != {}
    ensures exists x :: IsLeast(s, x)
  {
    var x := Element(s);
    var rest := s - {x};
    assert s == {x} + rest;
    if rest == {} {
      assert IsLeast(s, x);
    } else {
      LeastExists(rest);
      var m :| IsLeast(rest, m);
      assert IsLeast(s, if x < m then x else m);
    }
  }

  function Least(s: set<int>): (x: int)
    requires s != {}
    ensures IsLeast(s, x)
  {
    LeastExists(s);
    var x :| x in s && IsLeast(s, x);
    x
  }

  function Sorted(s: set<int>): seq<int> {
    if s == {} then [] else [Least(s)] + Sorted(s - {Least(s)})
  }

  // The `n` lowest elements.
  function Lowest(s: set<int>, n: nat): set<int> {
    if s == {} || n == 0 then {} else {Least(s)} + Lowest(s - {Least(s)}, n - 1)
  }

  lemma {:induction false} LowestIs(s: set<int>, n: nat)
    ensures Lowest(s, n) <= s && |Lowest(s, n)| == Min(n, |s|)
    ensures forall x, y | x in Lowest(s, n) && y in s - Lowest(s, n) :: x < y
  {
    if s != {} && n > 0 {
      var x := Least(s);
      LowestIs(s - {x}, n - 1);
      assert s == {x} + (s - {x});
      assert s - Lowest(s, n) == s - {x} - Lowest(s - {x}, n - 1);
    }
  }

  function PartNos(parts: map<PartId, Part>, upload: string): set<int> {
    set id | id in parts && id.upload == upload :: id.no
  }

  lemma {:induction false} SortedIs(s: set<int>)
    ensures forall x :: x in Sorted(s) <==> x in s
    ensures forall i, j | 0 <= i < j < |Sorted(s)| :: Sorted(s)[i] < Sorted(s)[j]
  {
    if s != {} {
      SortedIs(s - {Least(s)});
      var rest := Sorted(s - {Least(s)});
      forall i | 0 <= i < |rest| ensures Least(s) < rest[i] {
        assert rest[i] in rest;
      }
    }
  }

  // SELECT ... FROM upload_parts WHERE upload_id = $1 ORDER BY part_no.
  function PartRows(parts: map<PartId, Part>, upload: string): seq<PartRow> {
    var nos := Sorted(PartNos(parts, upload));
    SortedIs(PartNos(parts, upload));
    seq(|nos|, i requires 0 <= i < |nos| =>
      assert nos[i] in PartNos(parts, upload);
      var p := parts[PartId(upload, nos[i])]; PartRow(nos[i], p.file, p.size, p.sha))
  }

  lemma PartRowsNumbered(parts: map<PartId, Part>, upload: string)
    ensures Completion.Numbered(PartRows(parts, upload))
    ensures forall i | 0 <= i < |PartRows(parts, upload)| ::
      var r := PartRows(parts, upload)[i];
      PartId(upload, r.no) in parts && parts[PartId(upload, r.no)] == Part(r.file, r.size, r.sha)
    ensures forall id | id in parts && id.upload == upload :: id.no in Sorted(PartNos(parts, upload))
  {
    var nos := PartNos(parts, upload);
    SortedIs(nos);
    forall i | 0 <= i < |Sorted(nos)| ensures PartId(upload, Sorted(nos)[i]) in parts {
      assert Sorted(nos)[i] in nos;
    }
  }

  function PartFiles(parts: map<PartId, Part>, upload: string): set<nat> {
    set id | id in parts && id.upload == upload :: parts[id].file
  }

  // DELETE FROM uploads, cascading to its parts.
  function Cleared(s: Db, upload: string): Db {
    s.(uploads := s.uploads - {upload}, parts := map id | id in s.parts && id.upload != upload :: s.parts[id])
  }

  // ---- expiry: one attempt at one stale upload ----

  function RowNos(chunks: map<RowId, seq<Byte>>, file: nat): set<int> {
    set r | r in chunks && r.file == file :: r.no
  }

  // The lowest `limit` rows of the file.
  function Doomed(chunks: map<RowId, seq<Byte>>, file: nat, limit: nat): set<RowId> {
    set no | no in Lowest(RowNos(chunks, file), limit) :: RowId(file, no)
  }

  // Rows of the lowest part go first; a part goes once fewer rows than the
  // limit were left, and the upload with its last part. Also: rows removed.
  function ExpireAttempt(s: Db, upload: string, limit: nat): (Db, nat) {
    var rows := PartRows(s.parts, upload);
    if rows == [] then (s.(uploads := s.uploads - {upload}), 0) else
    var doomed := Doomed(s.chunks, rows[0].file, limit);
    var t := s.(chunks := s.chunks - doomed);
    if |doomed| >= limit then (t, |doomed|) else
    var parts := s.parts - {PartId(upload, rows[0].no)};
    var u := t.(parts := parts);
    (if PartNos(parts, upload) == {} then u.(uploads := u.uploads - {upload}) else u, |doomed|)
  }

  // ---- transactions ----

  datatype Action =
    | NextFile
    | DropWriter(file: nat)
    | Put(key: ObjKey, file: nat, data: seq<Byte>, etag: seq<Byte>, condition: Condition)
    | PutPart(id: PartId, file: nat, data: seq<Byte>, sha: seq<Byte>)
    | Complete(upload: string, key: ObjKey, listed: seq<Listed>, etag: seq<Byte>)
    | AbortUpload(upload: string, key: ObjKey)
    | Delete(key: ObjKey)
    | CreateBucket(name: string)
    | DeleteBucket(name: string)
    | CreateUpload(key: ObjKey, newId: string)
    | Expire(upload: string, limit: nat)

  // What a transaction leaves, if it commits; None is a rollback.
  function Apply(s: Db, a: Action): Option<Db> {
    match a
    case NextFile =>
      Some(s.(nextFile := s.nextFile + 1, writing := s.writing + {s.nextFile}))
    case DropWriter(file) =>
      if file in s.writing then Some(s.(writing := s.writing - {file})) else None
    case Put(k, file, data, etag, condition) =>
      var was := Lookup(s.objects, k);
      if file in s.writing && |data| <= MAX_FILE && k.bucket in s.buckets && Allowed(condition, was) then
        Some(Swapped(Copied(s, file, data), k, condition, was, Meta(file, |data|, etag, None, None)))
      else None
    case PutPart(id, file, data, sha) =>
      if file in s.writing && |data| <= MAX_FILE && id.upload in s.uploads then
        var t := Copied(s, file, data);
        var dead := if id in s.parts then {s.parts[id].file} else {};
        Some(t.(parts := t.parts[id := Part(file, |data|, sha)], chunks := WithoutFiles(t.chunks, dead)))
      else None
    case Complete(upload, k, listed, etag) =>
      var rows := PartRows(s.parts, upload);
      if Lookup(s.uploads, upload) == Some(k) && listed != [] && SortByNo(listed) == AllListed(rows) then
        Some(Cleared(Swapped(s, k, Unconditional, Lookup(s.objects, k), Published(rows, etag)), upload))
      else None
    case AbortUpload(upload, k) =>
      if Lookup(s.uploads, upload) == Some(k) then
        Some(Cleared(s, upload).(chunks := WithoutFiles(s.chunks, PartFiles(s.parts, upload))))
      else None
    case Delete(k) =>
      if k in s.objects then
        var was := s.objects[k];
        Some(s.(objects := s.objects - {k}, chunks := WithoutFiles(s.chunks, FilesOf(was)),
                log := s.log + [Change(k, Unconditional, Some(was), None)]))
      else Some(s)
    case CreateBucket(name) =>
      Some(s.(buckets := s.buckets + {name}))
    case DeleteBucket(name) =>
      if name in s.buckets && (forall k <- s.objects :: k.bucket != name)
         && (forall u <- s.uploads :: s.uploads[u].bucket != name)
      then Some(s.(buckets := s.buckets - {name})) else None
    case CreateUpload(k, newId) =>
      if k.bucket !in s.buckets then None else
      if exists u <- s.uploads :: s.uploads[u] == k then Some(s) else
      if newId in s.uploads then None else Some(s.(uploads := s.uploads[newId := k]))
    case Expire(upload, limit) =>
      if upload in s.uploads && limit > 0 then Some(ExpireAttempt(s, upload, limit).0) else None
  }

  ghost predicate Step(s: Db, t: Db) { exists a: Action :: Apply(s, a) == Some(t) }

  // A run: from the empty database, each state the last or one transaction on.
  ghost predicate Run(run: seq<Db>) {
    && run != [] && run[0] == Empty
    && forall i | 0 <= i < |run| - 1 :: NextAt(run, i)
  }

  ghost predicate NextAt(run: seq<Db>, i: nat)
    requires i < |run| - 1
  {
    run[i + 1] == run[i] || Step(run[i], run[i + 1])
  }

  // ---- what every reachable state keeps ----

  datatype Owner = OfObject(key: ObjKey) | OfPart(id: PartId)

  ghost predicate Owns(s: Db, o: Owner, file: nat) {
    match o
    case OfObject(k) => k in s.objects && file in FilesOf(s.objects[k])
    case OfPart(id) => id in s.parts && s.parts[id].file == file
  }

  // Owned files are pairwise disjoint between objects and parts.
  ghost predicate Disjoint(s: Db) {
    forall o, p, file :: Owns(s, o, file) && Owns(s, p, file) ==> o == p
  }

  // Ids come from the sequence; a file is being written, or committed, or neither.
  ghost predicate FreshIds(s: Db) {
    && (forall o, file :: Owns(s, o, file) ==> file in s.written)
    && (forall file <- s.writing :: file < s.nextFile && file !in s.written)
    && (forall file <- s.written :: file < s.nextFile && |s.written[file]| <= MAX_FILE)
  }

  ghost predicate Owned(s: Db, file: nat) { exists o :: Owns(s, o, file) }

  // A row is one its file was committed with, and all later rows are there too:
  // only expiry removes rows singly, and it does so from the front.
  ghost predicate RowKept(s: Db, r: RowId)
    requires r in s.chunks
  {
    && r.file in s.written && 0 <= r.no < RowCount(|s.written[r.file]|)
    && s.chunks[r] == RowAt(s.written[r.file], r.no)
    && forall no | r.no <= no < RowCount(|s.written[r.file]|) :: RowId(r.file, no) in s.chunks
  }

  // No stranded rows.
  ghost predicate RowsKept(s: Db) {
    forall r {:trigger RowKept(s, r)} | r in s.chunks :: Owned(s, r.file) && RowKept(s, r)
  }

  // The object is its files end to end, no file twice.
  ghost predicate MetaKept(m: Meta, written: map<nat, seq<Byte>>) {
    var segs := Segments(m);
    && Tiled(segs, written, m.size)
    && (forall i | 0 <= i < |segs| :: segs[i].file in FilesOf(m))
    && (forall file <- FilesOf(m) :: exists i :: 0 <= i < |segs| && segs[i].file == file)
    && (forall i, j | 0 <= i < j < |segs| :: segs[i].file != segs[j].file)
  }

  ghost predicate ObjectKept(s: Db, k: ObjKey)
    requires k in s.objects
  {
    k.bucket in s.buckets && MetaKept(s.objects[k], s.written)
  }

  ghost predicate ObjectsKept(s: Db) { forall k {:trigger ObjectKept(s, k)} | k in s.objects :: ObjectKept(s, k) }

  ghost predicate Referenced(s: Db) {
    && ObjectsKept(s)
    && (forall u <- s.uploads :: s.uploads[u].bucket in s.buckets)
    && (forall u, v | u in s.uploads && v in s.uploads && s.uploads[u] == s.uploads[v] :: u == v)
    && (forall id <- s.parts :: id.upload in s.uploads
          && s.parts[id].file in s.written && |s.written[s.parts[id].file]| == s.parts[id].size)
  }

  ghost predicate Inv(s: Db) {
    Disjoint(s) && FreshIds(s) && RowsKept(s) && Referenced(s)
  }
}
