// The life of a committed version: it is live until the transaction that
// replaces or deletes it, which also takes its rows, and its files never have
// rows again. When a published object has all its rows.
module Versions {
  import opened Base
  import opened Objects
  import opened Completion
  import opened Store
  import opened StoreInvariant

  ghost predicate Live(s: Db, k: ObjKey, m: Meta) { k in s.objects && s.objects[k] == m }

  // Committed once, owned by nothing now.
  ghost predicate Retired(s: Db, file: nat) { file in s.written && !Owned(s, file) }

  // How one transaction moves ownership, and which keys and files it leaves alone.
  ghost predicate StepMoves(s: Db, t: Db, dead: set<nat>, moved: set<nat>, owner: Owner) {
    && Moves(s, t, dead, moved, owner) && Remembers(s, t)
    && (forall f <- moved :: f in s.written ==> Owned(s, f))
    && (forall k <- s.objects :: Lookup(t.objects, k) == Some(s.objects[k]) || FilesOf(s.objects[k]) <= dead)
    && (forall r <- s.chunks, k | k in s.objects && r.file in FilesOf(s.objects[k]) :: r.file in dead || r in t.chunks)
  }

  ghost predicate SomeMoves(s: Db, t: Db) { exists dead, moved, owner :: StepMoves(s, t, dead, moved, owner) }

  // Only key `k` changed, and only rows of dead files went.
  lemma OneKeyMoves(s: Db, t: Db, dead: set<nat>, moved: set<nat>, owner: Owner, k: ObjKey)
    requires Moves(s, t, dead, moved, owner) && Remembers(s, t)
    requires forall f <- moved :: f in s.written ==> Owned(s, f)
    requires t.objects - {k} == s.objects - {k} && Reaped(Lookup(s.objects, k)) <= dead
    requires forall r <- s.chunks :: r.file in dead || r in t.chunks
    ensures SomeMoves(s, t)
  {
    forall q <- s.objects ensures Lookup(t.objects, q) == Some(s.objects[q]) || FilesOf(s.objects[q]) <= dead {
      if q != k {
        assert q in s.objects - {k};
      }
    }
    assert StepMoves(s, t, dead, moved, owner);
  }

  // No key changed, and rows went only where no object owns them.
  lemma NoKeyMoves(s: Db, t: Db, dead: set<nat>, moved: set<nat>, owner: Owner)
    requires Moves(s, t, dead, moved, owner) && Remembers(s, t)
    requires forall f <- moved :: f in s.written ==> Owned(s, f)
    requires t.objects == s.objects
    requires forall r <- s.chunks, k | k in s.objects && r.file in FilesOf(s.objects[k]) :: r.file in dead || r in t.chunks
    ensures SomeMoves(s, t)
  {
    assert StepMoves(s, t, dead, moved, owner);
  }

  lemma NothingMoves(s: Db, t: Db)
    requires t.objects == s.objects && t.parts == s.parts && t.chunks == s.chunks && t.written == s.written
    ensures SomeMoves(s, t)
  {
    forall o, f ensures Owns(t, o, f) == Owns(s, o, f) {
    }
    var any := OfObject(ObjKey("", ""));
    OwnersLost(s, t, {}, any);
    NoKeyMoves(s, t, {}, {}, any);
  }

  lemma PutStepMoves(s: Db, k: ObjKey, file: nat, data: seq<Byte>, etag: seq<Byte>, condition: Condition)
    requires Inv(s) && Apply(s, Put(k, file, data, etag, condition)).Some?
    ensures SomeMoves(s, Apply(s, Put(k, file, data, etag, condition)).value)
  {
    var t := Apply(s, Put(k, file, data, etag, condition)).value;
    FreshFile(s, file);
    KeyMoves(s, t, k, Meta(file, |data|, etag, None, None), file);
    OneKeyMoves(s, t, Reaped(Lookup(s.objects, k)), {file}, OfObject(k), k);
  }

  lemma PutPartStepMoves(s: Db, id: PartId, file: nat, data: seq<Byte>, sha: seq<Byte>)
    requires Inv(s) && Apply(s, PutPart(id, file, data, sha)).Some?
    ensures SomeMoves(s, Apply(s, PutPart(id, file, data, sha)).value)
  {
    var t := Apply(s, PutPart(id, file, data, sha)).value;
    FreshFile(s, file);
    PartMoves(s, t, id, Part(file, |data|, sha));
    NoKeyMoves(s, t, if id in s.parts then {s.parts[id].file} else {}, {file}, OfPart(id));
  }

  // Complete, in its effects.
  lemma CompleteIs(s: Db, upload: string, k: ObjKey, listed: seq<Listed>, etag: seq<Byte>)
    requires Inv(s) && Apply(s, Complete(upload, k, listed, etag)).Some?
    ensures var rows := PartRows(s.parts, upload);
      && rows != [] && FilesOf(Published(rows, etag)) == PartFiles(s.parts, upload)
      && MetaKept(Published(rows, etag), s.written)
    ensures var t := Apply(s, Complete(upload, k, listed, etag)).value;
      && t.objects == s.objects[k := Published(PartRows(s.parts, upload), etag)]
      && t.parts == (map id | id in s.parts && id.upload != upload :: s.parts[id])
      && t.written == s.written
      && t.chunks == WithoutFiles(s.chunks, Reaped(Lookup(s.objects, k)))
  {
    SortKeepsLength(listed);
    assert |AllListed(PartRows(s.parts, upload))| == |PartRows(s.parts, upload)|;
    PublishedKept(s, upload, etag);
  }

  lemma CompleteStepMoves(s: Db, upload: string, k: ObjKey, listed: seq<Listed>, etag: seq<Byte>)
    requires Inv(s) && Apply(s, Complete(upload, k, listed, etag)).Some?
    ensures SomeMoves(s, Apply(s, Complete(upload, k, listed, etag)).value)
  {
    CompleteIs(s, upload, k, listed, etag);
    PartsBecome(s, Apply(s, Complete(upload, k, listed, etag)).value, upload, k, Published(PartRows(s.parts, upload), etag));
  }

  lemma PartsBecome(s: Db, t: Db, upload: string, k: ObjKey, m: Meta)
    requires Disjoint(s) && FilesOf(m) == PartFiles(s.parts, upload)
    requires t.objects == s.objects[k := m] && t.written == s.written
    requires t.parts == map id | id in s.parts && id.upload != upload :: s.parts[id]
    requires t.chunks == WithoutFiles(s.chunks, Reaped(Lookup(s.objects, k)))
    ensures SomeMoves(s, t)
  {
    PartsMove(s, t, upload, k, m);
    forall f <- FilesOf(m) ensures Owned(s, f) {
      var id :| id in s.parts && id.upload == upload && s.parts[id].file == f;
      assert Owns(s, OfPart(id), f);
    }
    OneKeyMoves(s, t, Reaped(Lookup(s.objects, k)), FilesOf(m), OfObject(k), k);
  }

  lemma DeleteStepMoves(s: Db, t: Db, k: ObjKey)
    requires Disjoint(s) && k in s.objects && Apply(s, Delete(k)) == Some(t)
    ensures SomeMoves(s, t)
  {
    ObjectGone(s, t, k);
    OwnersLost(s, t, FilesOf(s.objects[k]), OfObject(k));
    KeyRemoved(s, t, FilesOf(s.objects[k]), OfObject(k), k);
  }

  lemma OwnersLost(s: Db, t: Db, dead: set<nat>, owner: Owner)
    requires forall o, f :: Owns(t, o, f) <==> f !in dead && Owns(s, o, f)
    ensures Moves(s, t, dead, {}, owner)
  {
  }

  lemma KeyRemoved(s: Db, t: Db, dead: set<nat>, owner: Owner, k: ObjKey)
    requires Moves(s, t, dead, {}, owner) && t.written == s.written
    requires t.objects == s.objects - {k} && k in s.objects && FilesOf(s.objects[k]) == dead
    requires t.chunks == WithoutFiles(s.chunks, dead)
    ensures SomeMoves(s, t)
  {
    OneKeyMoves(s, t, dead, {}, owner, k);
  }

  lemma AbortStepMoves(s: Db, upload: string, k: ObjKey)
    requires Inv(s) && Apply(s, AbortUpload(upload, k)).Some?
    ensures SomeMoves(s, Apply(s, AbortUpload(upload, k)).value)
  {
    var t := Apply(s, AbortUpload(upload, k)).value;
    PartsGone(s, t, upload);
    OwnersLost(s, t, PartFiles(s.parts, upload), OfObject(k));
    NoKeyMoves(s, t, PartFiles(s.parts, upload), {}, OfObject(k));
  }

  lemma ExpireStepMoves(s: Db, upload: string, limit: nat)
    requires Disjoint(s) && limit > 0
    ensures SomeMoves(s, ExpireAttempt(s, upload, limit).0)
  {
    if PartRows(s.parts, upload) == [] {
      NothingMoves(s, ExpireAttempt(s, upload, limit).0);
    } else {
      var t, id, doomed := ExpireIs(s, upload, limit);
      PartDrains(s, t, id, doomed, |doomed| >= limit);
    }
  }

  // An attempt at an upload with parts, in its effects.
  lemma ExpireIs(s: Db, upload: string, limit: nat) returns (t: Db, id: PartId, doomed: set<RowId>)
    requires PartRows(s.parts, upload) != []
    ensures t == ExpireAttempt(s, upload, limit).0
    ensures id in s.parts && forall r <- doomed :: r.file == s.parts[id].file
    ensures t.objects == s.objects && t.written == s.written && t.chunks == s.chunks - doomed
    ensures t.parts == if |doomed| >= limit then s.parts else s.parts - {id}
  {
    var rows := PartRows(s.parts, upload);
    PartRowsNumbered(s.parts, upload);
    t, id, doomed := ExpireAttempt(s, upload, limit).0, PartId(upload, rows[0].no), Doomed(s.chunks, rows[0].file, limit);
    DoomedIs(s, rows[0].file, limit);
  }

  // Rows of one part's file go, and maybe its record.
  lemma PartDrains(s: Db, t: Db, id: PartId, doomed: set<RowId>, stays: bool)
    requires Disjoint(s) && id in s.parts && (forall r <- doomed :: r.file == s.parts[id].file)
    requires t.objects == s.objects && t.written == s.written && t.chunks == s.chunks - doomed
    requires t.parts == if stays then s.parts else s.parts - {id}
    ensures SomeMoves(s, t)
  {
    var file := s.parts[id].file;
    assert Owns(s, OfPart(id), file);
    forall r <- s.chunks, k | k in s.objects && r.file in FilesOf(s.objects[k]) ensures r in t.chunks {
      assert Owns(s, OfObject(k), r.file);
    }
    var dead := if stays then {} else {file};
    OwnedBy(s, OfPart(id), {file});
    forall o, f ensures Owns(t, o, f) <==> f !in dead && Owns(s, o, f) {
      assert Owns(s, OfPart(id), f) <==> f in {file};
      assert o != OfPart(id) ==> Owns(t, o, f) == Owns(s, o, f);
    }
    OwnersLost(s, t, dead, OfPart(id));
    NoKeyMoves(s, t, dead, {}, OfPart(id));
  }

  lemma EveryStepMoves(s: Db, a: Action)
    requires Inv(s) && Apply(s, a).Some?
    ensures SomeMoves(s, Apply(s, a).value)
  {
    match a
    case Put(k, file, data, etag, condition) => PutStepMoves(s, k, file, data, etag, condition);
    case PutPart(id, file, data, sha) => PutPartStepMoves(s, id, file, data, sha);
    case Complete(upload, k, listed, etag) => CompleteStepMoves(s, upload, k, listed, etag);
    case AbortUpload(upload, k) => AbortStepMoves(s, upload, k);
    case Delete(k) => if k in s.objects { DeleteStepMoves(s, Apply(s, a).value, k); } else { NothingMoves(s, s); }
    case Expire(upload, limit) => ExpireStepMoves(s, upload, limit);
    case _ => NothingMoves(s, Apply(s, a).value);
  }

  // A version is live until the step that retires all its files, with their rows.
  lemma LiveOrRetired(s: Db, t: Db, k: ObjKey, m: Meta)
    requires Inv(s) && Step(s, t) && Live(s, k, m)
    ensures Remembers(s, t)
    ensures Live(t, k, m) || forall f <- FilesOf(m) :: Retired(t, f)
    ensures Live(t, k, m) ==> forall r <- s.chunks :: r.file in FilesOf(m) ==> r in t.chunks
  {
    var a: Action :| Apply(s, a) == Some(t);
    EveryStepMoves(s, a);
    var dead, moved, owner :| StepMoves(s, t, dead, moved, owner);
    MovedOrLive(s, t, dead, moved, owner, k, m);
  }

  lemma MovedOrLive(s: Db, t: Db, dead: set<nat>, moved: set<nat>, owner: Owner, k: ObjKey, m: Meta)
    requires FreshIds(s) && StepMoves(s, t, dead, moved, owner) && Live(s, k, m)
    ensures Live(t, k, m) || forall f <- FilesOf(m) :: Retired(t, f)
    ensures Live(t, k, m) ==> forall r <- s.chunks :: r.file in FilesOf(m) ==> r in t.chunks
  {
    assert forall f <- FilesOf(m) :: Owns(s, OfObject(k), f);
    if Live(t, k, m) {
      assert forall f <- FilesOf(m) :: Owns(t, OfObject(k), f);
    }
  }

  // A retired file stays retired, whatever is written later.
  lemma RetiredStays(s: Db, t: Db, file: nat)
    requires Inv(s) && Step(s, t) && Retired(s, file)
    ensures Retired(t, file)
  {
    var a: Action :| Apply(s, a) == Some(t);
    EveryStepMoves(s, a);
    var dead, moved, owner :| StepMoves(s, t, dead, moved, owner);
    forall o ensures !Owns(t, o, file) {
      assert !Owns(s, o, file);
    }
  }

  lemma {:induction false} RunRemembers(run: seq<Db>, i: nat, j: nat)
    requires Run(run) && i <= j < |run|
    ensures Remembers(run[i], run[j])
  {
    if i < j {
      RunRemembers(run, i, j - 1);
      RunKeepsInv(run, j - 1);
      assert NextAt(run, j - 1);
      if run[j] != run[j - 1] {
        var a: Action :| Apply(run[j - 1], a) == Some(run[j]);
        EveryStepMoves(run[j - 1], a);
      }
    }
  }

  // Live at i, a version is at any later time live or retired for good.
  lemma {:induction false} RunLiveOrRetired(run: seq<Db>, i: nat, j: nat, k: ObjKey, m: Meta)
    requires Run(run) && i <= j < |run| && Live(run[i], k, m)
    ensures Live(run[j], k, m) || forall f <- FilesOf(m) :: Retired(run[j], f)
  {
    if i < j {
      RunLiveOrRetired(run, i, j - 1, k, m);
      RunKeepsInv(run, j - 1);
      assert NextAt(run, j - 1);
      NextLiveOrRetired(run[j - 1], run[j], k, m);
    }
  }

  lemma NextLiveOrRetired(s: Db, t: Db, k: ObjKey, m: Meta)
    requires Inv(s) && (t == s || Step(s, t)) && (Live(s, k, m) || forall f <- FilesOf(m) :: Retired(s, f))
    ensures Live(t, k, m) || forall f <- FilesOf(m) :: Retired(t, f)
  {
    if t != s {
      if Live(s, k, m) {
        LiveOrRetired(s, t, k, m);
      } else {
        forall f <- FilesOf(m) ensures Retired(t, f) {
          RetiredStays(s, t, f);
        }
      }
    }
  }

  // So a row of a version's file, seen at any later time, shows that the
  // version is live then, and is the row it was committed with.
  lemma RowShowsLive(run: seq<Db>, i: nat, j: nat, k: ObjKey, m: Meta, r: RowId)
    requires Run(run) && i <= j < |run| && Live(run[i], k, m)
    requires r.file in FilesOf(m) && r in run[j].chunks
    ensures Live(run[j], k, m)
    ensures r.file in run[i].written && 0 <= r.no < RowCount(|run[i].written[r.file]|)
    ensures run[j].chunks[r] == RowAt(run[i].written[r.file], r.no)
  {
    RunKeepsInv(run, i);
    RunKeepsInv(run, j);
    RunLiveOrRetired(run, i, j, k, m);
    RunRemembers(run, i, j);
    assert RowKept(run[j], r) && Owned(run[j], r.file);
    assert Owns(run[i], OfObject(k), r.file);
  }

  // ---- the rows of a version that stays ----

  function RowsIn(chunks: map<RowId, seq<Byte>>, files: set<nat>): set<RowId> {
    set r | r in chunks && r.file in files
  }

  // Rows appear only in files being written.
  lemma NewRows(s: Db, t: Db, a: Action)
    requires Apply(s, a) == Some(t)
    ensures forall r <- t.chunks :: r in s.chunks || r.file in s.writing
  {
    match a
    case Put(_, file, data, _, _) => assert forall r <- FileRows(file, data) :: r.file == file;
    case PutPart(_, file, data, _) => assert forall r <- FileRows(file, data) :: r.file == file;
    case _ =>
  }

  // ---- a transaction touches the rows of one owner ----

  // The object whose key it writes, the part it sends, or the parts of the
  // upload it aborts or expires.
  ghost predicate Touches(a: Action, o: Owner) {
    match a
    case Put(k, _, _, _, _) => o == OfObject(k)
    case Complete(_, k, _, _) => o == OfObject(k)
    case Delete(k) => o == OfObject(k)
    case PutPart(id, _, _, _) => o == OfPart(id)
    case AbortUpload(upload, _) => o.OfPart? && o.id.upload == upload
    case Expire(upload, _) => o.OfPart? && o.id.upload == upload
    case _ => false
  }

  // The files that may lose rows.
  function Losing(s: Db, a: Action): set<nat> {
    match a
    case Put(k, _, _, _, _) => Reaped(Lookup(s.objects, k))
    case Complete(_, k, _, _) => Reaped(Lookup(s.objects, k))
    case Delete(k) => Reaped(Lookup(s.objects, k))
    case PutPart(id, _, _, _) => if id in s.parts then {s.parts[id].file} else {}
    case AbortUpload(upload, _) => PartFiles(s.parts, upload)
    case Expire(upload, _) => PartFiles(s.parts, upload)
    case _ => {}
  }

  lemma LostRows(s: Db, a: Action, t: Db, r: RowId)
    requires Apply(s, a) == Some(t) && r in s.chunks && r.file !in Losing(s, a) && r.file !in s.writing
    ensures Lookup(t.chunks, r) == Some(s.chunks[r])
  {
    if a.Expire? {
      LostByExpiry(s, a.upload, a.limit, r);
    } else {
      LostByOthers(s, a, t, r);
    }
  }

  lemma LostByOthers(s: Db, a: Action, t: Db, r: RowId)
    requires Apply(s, a) == Some(t) && !a.Expire?
    requires r in s.chunks && r.file !in Losing(s, a) && r.file !in s.writing
    ensures Lookup(t.chunks, r) == Some(s.chunks[r])
  {
  }

  lemma LostByExpiry(s: Db, upload: string, limit: nat, r: RowId)
    requires r in s.chunks && r.file !in PartFiles(s.parts, upload)
    ensures Lookup(ExpireAttempt(s, upload, limit).0.chunks, r) == Some(s.chunks[r])
  {
    if PartRows(s.parts, upload) != [] {
      var t, id, doomed := ExpireIs(s, upload, limit);
      PartRowsNumbered(s.parts, upload);
    }
  }

  lemma LosingIsTouched(s: Db, a: Action, o: Owner, file: nat)
    requires Disjoint(s) && Owns(s, o, file) && file in Losing(s, a)
    ensures Touches(a, o)
  {
    match a
    case PutPart(id, _, _, _) => assert Owns(s, OfPart(id), file);
    case AbortUpload(upload, _) => FileOfUpload(s, upload, o, file);
    case Expire(upload, _) => FileOfUpload(s, upload, o, file);
    case Put(k, _, _, _, _) => assert Owns(s, OfObject(k), file);
    case Complete(_, k, _, _) => assert Owns(s, OfObject(k), file);
    case Delete(k) => assert Owns(s, OfObject(k), file);
    case _ =>
  }

  lemma FileOfUpload(s: Db, upload: string, o: Owner, file: nat)
    requires Disjoint(s) && Owns(s, o, file) && file in PartFiles(s.parts, upload)
    ensures o.OfPart? && o.id.upload == upload
  {
    var id :| id in s.parts && id.upload == upload && s.parts[id].file == file;
    assert Owns(s, OfPart(id), file);
  }

  // Every other owner keeps its rows as they are, and gets no new ones.
  lemma OthersUntouched(s: Db, a: Action, t: Db, o: Owner, r: RowId)
    requires Inv(s) && Apply(s, a) == Some(t) && Owns(s, o, r.file) && !Touches(a, o)
    ensures Lookup(t.chunks, r) == Lookup(s.chunks, r)
  {
    NewRows(s, t, a);
    assert r.file in s.written && r.file !in s.writing;
    if r.file in Losing(s, a) {
      LosingIsTouched(s, a, o, r.file);
    } else if r in s.chunks {
      LostRows(s, a, t, r);
    }
  }

  ghost predicate Spares(s: Db, a: Action, t: Db) {
    forall o: Owner, r: RowId :: Owns(s, o, r.file) && !Touches(a, o) ==> Lookup(t.chunks, r) == Lookup(s.chunks, r)
  }

  // The rows of a version that stays are the same.
  lemma VersionRowsStay(s: Db, t: Db, a: Action, k: ObjKey)
    requires Inv(s) && Apply(s, a) == Some(t) && Lookup(t.objects, k) == Lookup(s.objects, k)
    ensures var files := Reaped(Lookup(s.objects, k)); RowsIn(t.chunks, files) == RowsIn(s.chunks, files)
  {
    NewRows(s, t, a);
    if k in s.objects {
      var m := s.objects[k];
      LiveOrRetired(s, t, k, m);
      OwnedNotWriting(s, k);
      SameRowsIn(s.chunks, t.chunks, FilesOf(m));
    }
  }

  lemma OwnedNotWriting(s: Db, k: ObjKey)
    requires FreshIds(s) && k in s.objects
    ensures forall f <- FilesOf(s.objects[k]) :: f !in s.writing
  {
    forall f <- FilesOf(s.objects[k]) ensures f !in s.writing {
      assert Owns(s, OfObject(k), f);
    }
  }

  lemma SameRowsIn(p: map<RowId, seq<Byte>>, q: map<RowId, seq<Byte>>, files: set<nat>)
    requires forall r: RowId | r.file in files :: r in p <==> r in q
    ensures RowsIn(q, files) == RowsIn(p, files)
  {
  }

  // ---- completeness of published objects ----

  ghost predicate AllRows(s: Db, file: nat) {
    file in s.written && forall no | 0 <= no < RowCount(|s.written[file]|) :: RowId(file, no) in s.chunks
  }

  ghost predicate WholeObject(s: Db, m: Meta) { forall f <- FilesOf(m) :: AllRows(s, f) }

  // Expiry drains a file from the front: it is whole iff row 0 is there.
  predicate Undrained(s: Db, file: nat) {
    file in s.written && (s.written[file] != [] ==> RowId(file, 0) in s.chunks)
  }

  lemma WholeIffFirstRow(s: Db, file: nat)
    requires Inv(s)
    ensures AllRows(s, file) <==> Undrained(s, file)
  {
    if Undrained(s, file) && s.written[file] != [] {
      assert RowKept(s, RowId(file, 0));
    }
  }

  // A PUT publishes every row.
  lemma PutPublishesWhole(s: Db, k: ObjKey, file: nat, data: seq<Byte>, etag: seq<Byte>, condition: Condition)
    requires Inv(s) && Apply(s, Put(k, file, data, etag, condition)).Some?
    ensures var t := Apply(s, Put(k, file, data, etag, condition)).value;
      Lookup(t.objects, k) == Some(Meta(file, |data|, etag, None, None)) && WholeObject(t, t.objects[k])
  {
    var t := Apply(s, Put(k, file, data, etag, condition)).value;
    FreshFile(s, file);
    KeyMoves(s, t, k, Meta(file, |data|, etag, None, None), file);
    assert file !in Reaped(Lookup(s.objects, k));
    forall no | 0 <= no < RowCount(|data|) ensures RowId(file, no) in t.chunks {
      assert RowId(file, no) in FileRows(file, data);
    }
  }

  // Complete checks no rows: what it publishes has all of them exactly when
  // expiry had drained none of the recorded parts.
  lemma CompletePublishesWhole(s: Db, upload: string, k: ObjKey, listed: seq<Listed>, etag: seq<Byte>)
    requires Inv(s) && Apply(s, Complete(upload, k, listed, etag)).Some?
    ensures var t := Apply(s, Complete(upload, k, listed, etag)).value;
      k in t.objects
      && (WholeObject(t, t.objects[k])
          <==> forall id <- s.parts :: id.upload == upload ==> Undrained(s, s.parts[id].file))
  {
    CompleteIs(s, upload, k, listed, etag);
    var t := Apply(s, Complete(upload, k, listed, etag)).value;
    PartsMove(s, t, upload, k, t.objects[k]);
    forall f <- PartFiles(s.parts, upload) ensures AllRows(t, f) <==> Undrained(s, f) {
      RowsStay(s, t, Reaped(Lookup(s.objects, k)), f);
      WholeIffFirstRow(s, f);
    }
    WholeFiles(s, t, upload, t.objects[k]);
  }

  lemma RowsStay(s: Db, t: Db, dead: set<nat>, file: nat)
    requires t.chunks == WithoutFiles(s.chunks, dead) && t.written == s.written && file !in dead
    ensures AllRows(t, file) <==> AllRows(s, file)
  {
  }

  lemma WholeFiles(s: Db, t: Db, upload: string, m: Meta)
    requires FilesOf(m) == PartFiles(s.parts, upload)
    requires forall f <- PartFiles(s.parts, upload) :: AllRows(t, f) <==> Undrained(s, f)
    ensures WholeObject(t, m) <==> forall id <- s.parts :: id.upload == upload ==> Undrained(s, s.parts[id].file)
  {
    if WholeObject(t, m) {
      forall id <- s.parts | id.upload == upload ensures Undrained(s, s.parts[id].file) {
        assert s.parts[id].file in PartFiles(s.parts, upload);
      }
    }
  }

  // A whole object stays whole while it lives: expiry reaches only parts.
  lemma WholeStays(s: Db, t: Db, k: ObjKey, m: Meta)
    requires Inv(s) && Step(s, t) && Live(s, k, m) && Live(t, k, m) && WholeObject(s, m)
    ensures WholeObject(t, m)
  {
    LiveOrRetired(s, t, k, m);
  }

  // ---- runs in which Complete never meets a drained part ----

  // A run with what each step did: a transaction, or nothing.
  ghost predicate Does(run: seq<Db>, actions: seq<Option<Action>>) {
    && run != [] && run[0] == Empty && |actions| == |run| - 1
    && forall i | 0 <= i < |actions| :: DoesAt(run, actions, i)
  }

  ghost predicate DoesAt(run: seq<Db>, actions: seq<Option<Action>>, i: nat)
    requires i < |actions| == |run| - 1
  {
    if actions[i].None? then run[i + 1] == run[i] else Apply(run[i], actions[i].value) == Some(run[i + 1])
  }

  // A caller can check this before the call: the parts' first rows are there.
  ghost predicate Careful(s: Db, a: Action) {
    a.Complete? ==> forall id <- s.parts :: id.upload == a.upload ==> Undrained(s, s.parts[id].file)
  }

  ghost predicate CarefulTo(run: seq<Db>, actions: seq<Option<Action>>, n: nat)
    requires n <= |actions| < |run|
  {
    forall i | 0 <= i < n && actions[i].Some? :: Careful(run[i], actions[i].value)
  }

  lemma DoesIsRun(run: seq<Db>, actions: seq<Option<Action>>)
    requires Does(run, actions)
    ensures Run(run)
  {
    forall i | 0 <= i < |run| - 1 ensures NextAt(run, i) {
      assert DoesAt(run, actions, i);
      if actions[i].Some? {
        AppliesSteps(run[i], actions[i].value, run[i + 1]);
      }
    }
  }

  lemma AppliesSteps(s: Db, a: Action, t: Db)
    requires Apply(s, a) == Some(t)
    ensures Step(s, t)
  {
  }

  // Every object of every state of such a run has all its rows.
  lemma {:induction false} CarefulRunsAreWhole(run: seq<Db>, actions: seq<Option<Action>>, n: nat, k: ObjKey)
    requires Does(run, actions) && n < |run| && k in run[n].objects && CarefulTo(run, actions, n)
    ensures WholeObject(run[n], run[n].objects[k])
  {
    if n > 0 {
      assert DoesAt(run, actions, n - 1);
      if actions[n - 1].None? {
        CarefulRunsAreWhole(run, actions, n - 1, k);
      } else {
        var s, a, t := run[n - 1], actions[n - 1].value, run[n];
        assert Careful(s, a);
        DoesIsRun(run, actions);
        RunKeepsInv(run, n - 1);
        if Lookup(s.objects, k) == Some(t.objects[k]) {
          CarefulRunsAreWhole(run, actions, n - 1, k);
          WholeStays(s, t, k, t.objects[k]);
        } else {
          PublishedWhole(s, a, t, k);
        }
      }
    }
  }

  lemma PublishedWhole(s: Db, a: Action, t: Db, k: ObjKey)
    requires Inv(s) && Apply(s, a) == Some(t) && Careful(s, a)
    requires k in t.objects && Lookup(s.objects, k) != Some(t.objects[k])
    ensures WholeObject(t, t.objects[k])
  {
    ChangedByWriters(s, a, t, k);
    match a
    case Put(_, file, data, etag, condition) => PutPublishesWhole(s, k, file, data, etag, condition);
    case Complete(upload, _, listed, etag) => CompletePublishesWhole(s, upload, k, listed, etag);
  }

  lemma ChangedByWriters(s: Db, a: Action, t: Db, k: ObjKey)
    requires Apply(s, a) == Some(t) && k in t.objects && Lookup(s.objects, k) != Some(t.objects[k])
    ensures (a.Put? || a.Complete?) && a.key == k
  {
  }
}
