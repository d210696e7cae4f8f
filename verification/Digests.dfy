// ETags are digests of content: of the bytes for an object sent whole, of the
// parts' digests for a multipart one (objects.etag in schema.sql).
module Digests {
  import opened Base
  import opened Objects
  import opened Completion
  import opened Store
  import opened StoreInvariant
  import opened Versions
  import opened History
  import opened Interleaving

  type Digest = seq<Byte> -> seq<Byte>

  // What each transaction passes as ETag or part hash.
  ghost predicate Honest(digest: Digest, s: Db, a: Action) {
    match a
    case Put(_, _, data, etag, _) => etag == digest(data)
    case PutPart(_, _, data, sha) => sha == digest(data)
    case Complete(upload, _, _, etag) => etag == digest(Shas(PartRows(s.parts, upload)))
    case _ => true
  }

  ghost predicate HonestTo(digest: Digest, run: seq<Db>, actions: seq<Option<Action>>, n: nat)
    requires n <= |actions| < |run|
  {
    forall i | 0 <= i < n && actions[i].Some? :: Honest(digest, run[i], actions[i].value)
  }

  function Each(digest: Digest, datas: seq<seq<Byte>>): seq<seq<Byte>> {
    seq(|datas|, i requires 0 <= i < |datas| => digest(datas[i]))
  }

  // The ETag that a version's content has.
  function EtagOf(digest: Digest, m: Meta, written: map<nat, seq<Byte>>): seq<Byte> {
    if m.parts.None? then digest(FileBytes(m.fileId, written))
    else digest(Flatten(Each(digest, FilesBytes(m.parts.value, written))))
  }

  ghost predicate MetaDigested(digest: Digest, m: Meta, written: map<nat, seq<Byte>>) {
    && (forall f <- FilesOf(m) :: f in written) && m.etag == EtagOf(digest, m, written)
    && (m.parts.Some? ==> m.partEnds.Some? && |m.partEnds.value| == |m.parts.value|)
  }

  ghost predicate PartDigested(digest: Digest, p: Part, written: map<nat, seq<Byte>>) {
    p.file in written && p.sha == digest(written[p.file])
  }

  // Every recorded part, and every version that a key ever had.
  ghost predicate Digested(digest: Digest, s: Db) {
    && (forall id <- s.parts :: PartDigested(digest, s.parts[id], s.written))
    && (forall i | 0 <= i < |s.log| && s.log[i].after.Some? :: MetaDigested(digest, s.log[i].after.value, s.written))
  }

  lemma MetaDigestedOn(digest: Digest, m: Meta, was: map<nat, seq<Byte>>, now: map<nat, seq<Byte>>)
    requires MetaDigested(digest, m, was) && forall f <- was :: f in now && now[f] == was[f]
    ensures MetaDigested(digest, m, now)
  {
    assert m.fileId in FilesOf(m);
    if m.parts.Some? {
      forall i | 0 <= i < |m.parts.value| ensures m.parts.value[i] in was {
        assert m.parts.value[i] in FilesOf(m);
      }
      assert FilesBytes(m.parts.value, now) == FilesBytes(m.parts.value, was);
    }
  }

  lemma {:induction false} ShasAre(digest: Digest, rows: seq<PartRow>, written: map<nat, seq<Byte>>)
    requires forall i | 0 <= i < |rows| :: rows[i].sha == digest(FileBytes(rows[i].file, written))
    ensures Shas(rows) == Flatten(Each(digest, FilesBytes(Ids(rows), written)))
  {
    if rows != [] {
      var n := |rows| - 1;
      ShasAre(digest, rows[..n], written);
      assert Each(digest, FilesBytes(Ids(rows), written))[..n] == Each(digest, FilesBytes(Ids(rows[..n]), written));
    }
  }

  // ---- what a transaction records ----

  lemma PutDigested(digest: Digest, file: nat, data: seq<Byte>, etag: seq<Byte>, written: map<nat, seq<Byte>>)
    requires etag == digest(data) && file in written && written[file] == data
    ensures MetaDigested(digest, Meta(file, |data|, etag, None, None), written)
  {
  }

  lemma CompleteDigested(digest: Digest, s: Db, upload: string, etag: seq<Byte>)
    requires Inv(s) && Digested(digest, s) && PartRows(s.parts, upload) != []
    requires etag == digest(Shas(PartRows(s.parts, upload)))
    ensures MetaDigested(digest, Published(PartRows(s.parts, upload), etag), s.written)
  {
    var rows := PartRows(s.parts, upload);
    var m := Published(rows, etag);
    PartRowsNumbered(s.parts, upload);
    PartRowsAre(s, upload);
    forall i | 0 <= i < |rows| ensures rows[i].sha == digest(FileBytes(rows[i].file, s.written)) {
      assert PartDigested(digest, s.parts[PartId(upload, rows[i].no)], s.written);
    }
    ShasAre(digest, rows, s.written);
    PublishedKept(s, upload, etag);
    forall f <- FilesOf(m) ensures f in s.written {
      assert f in PartFiles(s.parts, upload);
    }
  }

  lemma PartsFrom(s: Db, a: Action, t: Db, id: PartId)
    requires Apply(s, a) == Some(t) && id in t.parts
    ensures (id in s.parts && s.parts[id] == t.parts[id])
      || (a.PutPart? && t.parts[id] == Part(a.file, |a.data|, a.sha) && Lookup(t.written, a.file) == Some(a.data))
  {
  }

  lemma LogFrom(s: Db, a: Action, t: Db)
    requires Inv(s) && Apply(s, a) == Some(t)
    ensures t.log == s.log || exists c :: t.log == s.log + [c] && ChangeFrom(s, a, t, c)
  {
    match a
    case Put(k, file, data, etag, condition) => PutLogged(s, k, file, data, etag, condition, t);
    case Complete(upload, k, listed, etag) => CompleteLogged(s, upload, k, listed, etag, t);
    case Delete(k) =>
      if k in s.objects {
        Logged(s, a, t, Change(k, Unconditional, Some(s.objects[k]), None));
      }
    case _ => NothingLogged(s, a, t);
  }

  lemma PutLogged(s: Db, k: ObjKey, file: nat, data: seq<Byte>, etag: seq<Byte>, condition: Condition, t: Db)
    requires Apply(s, Put(k, file, data, etag, condition)) == Some(t)
    ensures exists c :: t.log == s.log + [c] && ChangeFrom(s, Put(k, file, data, etag, condition), t, c)
  {
    var c := Change(k, condition, Lookup(s.objects, k), Some(Meta(file, |data|, etag, None, None)));
    Logged(s, Put(k, file, data, etag, condition), t, c);
  }

  lemma CompleteLogged(s: Db, upload: string, k: ObjKey, listed: seq<Completion.Listed>, etag: seq<Byte>, t: Db)
    requires Inv(s) && Apply(s, Complete(upload, k, listed, etag)) == Some(t)
    ensures exists c :: t.log == s.log + [c] && ChangeFrom(s, Complete(upload, k, listed, etag), t, c)
  {
    CompleteIs(s, upload, k, listed, etag);
    var m := Published(PartRows(s.parts, upload), etag);
    Logged(s, Complete(upload, k, listed, etag), t, Change(k, Unconditional, Lookup(s.objects, k), Some(m)));
  }

  lemma Logged(s: Db, a: Action, t: Db, c: Change)
    requires t.log == s.log + [c] && ChangeFrom(s, a, t, c)
    ensures exists d :: t.log == s.log + [d] && ChangeFrom(s, a, t, d)
  {
  }

  lemma NothingLogged(s: Db, a: Action, t: Db)
    requires Apply(s, a) == Some(t) && !a.Put? && !a.Complete? && !a.Delete?
    ensures t.log == s.log
  {
  }

  ghost predicate ChangeFrom(s: Db, a: Action, t: Db, c: Change) {
    match a
    case Put(_, file, data, etag, _) =>
      c.after == Some(Meta(file, |data|, etag, None, None)) && Lookup(t.written, file) == Some(data)
    case Complete(upload, _, _, etag) =>
      && PartRows(s.parts, upload) != [] && t.written == s.written
      && c.after == Some(Published(PartRows(s.parts, upload), etag))
    case _ => c.after.None?
  }

  lemma ChangeDigested(digest: Digest, s: Db, a: Action, t: Db, c: Change)
    requires Inv(s) && Digested(digest, s) && Honest(digest, s, a) && ChangeFrom(s, a, t, c) && c.after.Some?
    ensures MetaDigested(digest, c.after.value, t.written)
  {
    match a
    case Put(_, file, data, etag, _) => PutDigested(digest, file, data, etag, t.written);
    case Complete(upload, _, _, etag) => CompleteDigested(digest, s, upload, etag);
  }

  lemma StepDigested(digest: Digest, s: Db, a: Action, t: Db)
    requires Inv(s) && Digested(digest, s) && Honest(digest, s, a) && Apply(s, a) == Some(t) && Remembers(s, t)
    ensures Digested(digest, t)
  {
    forall id <- t.parts ensures PartDigested(digest, t.parts[id], t.written) {
      PartsFrom(s, a, t, id);
      assert id in s.parts ==> PartDigested(digest, s.parts[id], s.written);
    }
    LogFrom(s, a, t);
    forall i | 0 <= i < |t.log| && t.log[i].after.Some? ensures MetaDigested(digest, t.log[i].after.value, t.written) {
      if i < |s.log| {
        assert t.log[i] == s.log[i];
        MetaDigestedOn(digest, s.log[i].after.value, s.written, t.written);
      } else {
        ChangeDigested(digest, s, a, t, t.log[i]);
      }
    }
  }

  // In every state of a run whose writers pass digests of what they send, so
  // are all part hashes and all ETags there ever were.
  lemma {:induction false} RunDigested(digest: Digest, run: seq<Db>, actions: seq<Option<Action>>, n: nat)
    requires Does(run, actions) && n < |run| && HonestTo(digest, run, actions, n)
    ensures Digested(digest, run[n])
  {
    if n > 0 {
      RunDigested(digest, run, actions, n - 1);
      assert DoesAt(run, actions, n - 1);
      if actions[n - 1].Some? {
        DoesIsRun(run, actions);
        RunKeepsInv(run, n - 1);
        RunRemembers(run, n - 1, n);
        StepDigested(digest, run[n - 1], actions[n - 1].value, run[n]);
      }
    }
  }

  // ---- what an ETag says of an object's bytes ----

  // The version's bytes, and its parts'.
  ghost predicate IsContent(m: Meta, written: map<nat, seq<Byte>>, v: seq<Byte>) {
    (forall s <- Segments(m) :: s.file in written) && Content(Segments(m), written) == v
  }

  lemma ContentIs(digest: Digest, m: Meta, written: map<nat, seq<Byte>>)
    requires MetaDigested(digest, m, written)
    ensures m.parts.None? ==> IsContent(m, written, FileBytes(m.fileId, written))
    ensures m.parts.Some? ==> IsContent(m, written, Flatten(FilesBytes(m.parts.value, written)))
  {
    var files := if m.parts.None? then [m.fileId] else m.parts.value;
    forall i | 0 <= i < |files| ensures files[i] in FilesOf(m) {
    }
    ContentIsParts(Segments(m), written, FilesBytes(files, written));
    FlattenSnoc([], FileBytes(m.fileId, written));
    assert [] + [FileBytes(m.fileId, written)] == FilesBytes([m.fileId], written);
  }

  // An object's ETag is the digest of its bytes, or of its parts' digests, and
  // the parts end to end are its bytes.
  lemma ObjectsDigested(digest: Digest, run: seq<Db>, actions: seq<Option<Action>>, n: nat, k: ObjKey)
    requires Does(run, actions) && n < |run| && HonestTo(digest, run, actions, n) && k in run[n].objects
    ensures var m, w := run[n].objects[k], run[n].written;
      if m.parts.None? then IsContent(m, w, FileBytes(m.fileId, w)) && m.etag == digest(FileBytes(m.fileId, w))
      else
        var datas := FilesBytes(m.parts.value, w);
        IsContent(m, w, Flatten(datas)) && m.etag == digest(Flatten(Each(digest, datas)))
  {
    DoesIsRun(run, actions);
    RunAccounted(run, n);
    RunDigested(digest, run, actions, n);
    var i := LastChange(run[n].log, |run[n].log|, k);
    ContentIs(digest, run[n].objects[k], run[n].written);
  }

  // No other bytes that were written have the same digest.
  ghost predicate Unlike(digest: Digest, written: map<nat, seq<Byte>>, v: seq<Byte>) {
    forall f <- written :: digest(written[f]) == digest(v) ==> written[f] == v
  }

  // A committed If-Match of the digest of `v` replaced an object of bytes `v`,
  // unless there is a collision among the bytes that were written.
  lemma MatchIsOfTheContent(
    digest: Digest, run: seq<Db>, actions: seq<Option<Action>>, n: nat, i: nat, j: nat, v: seq<Byte>)
    requires Does(run, actions) && n < |run| && HonestTo(digest, run, actions, n) && i < j < |run[n].log|
    requires run[n].log[j].condition == IfMatch(Hex(digest(v))) && MatchedBy(run[n].log, i, j)
    requires Unlike(digest, run[n].written, v) && run[n].log[i].after.value.parts.None?
    ensures IsContent(run[n].log[i].after.value, run[n].written, v)
  {
    RunDigested(digest, run, actions, n);
    MatchIsOfTheDigest(run[n].log, i, j, digest(v));
    var m := run[n].log[i].after.value;
    assert m.fileId in FilesOf(m);
    ContentIs(digest, m, run[n].written);
  }

  // One of the digest of the digests of `vs` replaced a multipart object whose
  // parts are `vs`, if digests are of one length and none of these collide: the
  // parts with bytes that were written, the joined digests with the replaced
  // version's.
  lemma MatchIsOfTheParts(
    digest: Digest, run: seq<Db>, actions: seq<Option<Action>>, n: nat, i: nat, j: nat,
    vs: seq<seq<Byte>>, length: nat)
    requires Does(run, actions) && n < |run| && HonestTo(digest, run, actions, n) && i < j < |run[n].log|
    requires length > 0 && forall x :: |digest(x)| == length
    requires run[n].log[j].condition == IfMatch(Hex(digest(Flatten(Each(digest, vs))))) && MatchedBy(run[n].log, i, j)
    requires run[n].log[i].after.value.parts.Some? && forall v <- vs :: Unlike(digest, run[n].written, v)
    requires var joined := Flatten(Each(digest, FilesBytes(run[n].log[i].after.value.parts.value, run[n].written)));
      var named := Flatten(Each(digest, vs));
      digest(joined) == digest(named) ==> joined == named
    ensures FilesBytes(run[n].log[i].after.value.parts.value, run[n].written) == vs
    ensures IsContent(run[n].log[i].after.value, run[n].written, Flatten(vs))
  {
    RunDigested(digest, run, actions, n);
    MatchIsOfTheDigest(run[n].log, i, j, digest(Flatten(Each(digest, vs))));
    var m := run[n].log[i].after.value;
    ContentIs(digest, m, run[n].written);
    SameBlocks(Each(digest, FilesBytes(m.parts.value, run[n].written)), Each(digest, vs), length);
    forall f <- m.parts.value ensures f in run[n].written {
      assert f in FilesOf(m);
    }
    SameDigests(digest, m.parts.value, run[n].written, vs);
  }

  lemma SameDigests(digest: Digest, files: seq<nat>, written: map<nat, seq<Byte>>, vs: seq<seq<Byte>>)
    requires Each(digest, FilesBytes(files, written)) == Each(digest, vs) && forall f <- files :: f in written
    requires forall v <- vs :: Unlike(digest, written, v)
    ensures FilesBytes(files, written) == vs
  {
    var us := FilesBytes(files, written);
    assert |us| == |Each(digest, us)| == |vs|;
    forall i | 0 <= i < |vs| ensures us[i] == vs[i] {
      assert Each(digest, us)[i] == digest(us[i]) && Each(digest, vs)[i] == digest(vs[i]);
      assert vs[i] in vs && Unlike(digest, written, vs[i]) && files[i] in written;
    }
  }

  lemma {:induction false} SameBlocks(a: seq<seq<Byte>>, b: seq<seq<Byte>>, length: nat)
    requires length > 0 && Flatten(a) == Flatten(b)
    requires (forall x <- a :: |x| == length) && forall x <- b :: |x| == length
    ensures a == b
  {
    assert forall s <- [a, b] :: s != [] ==> |Flatten(s)| >= |s[|s| - 1]|;
    if a != [] && b != [] {
      var m, n := |a| - 1, |b| - 1;
      assert Flatten(a)[|Flatten(a)| - length..] == a[m] && Flatten(b)[|Flatten(b)| - length..] == b[n];
      assert Flatten(a)[..|Flatten(a)| - length] == Flatten(a[..m]);
      assert Flatten(b)[..|Flatten(b)| - length] == Flatten(b[..n]);
      SameBlocks(a[..m], b[..n], length);
      assert a == a[..m] + [a[m]] && b == b[..n] + [b[n]];
    }
  }

  // The same of every interleaving of the statements.
  lemma InterleavedDigests(
    digest: Digest, hash: ObjKey -> int, run: seq<Sys>, events: seq<Event>, n: nat)
    requires SysDoes(hash, run, events) && n < |run|
    requires forall i | 0 <= i < n && Done(run[i], events[i]).Some? ::
      Honest(digest, run[i].db, Done(run[i], events[i]).value)
    ensures Digested(digest, run[n].db)
  {
    InterleavingsDo(hash, run, events);
    assert Databases(run)[n] == run[n].db;
    RunDigested(digest, Databases(run), Transactions(run, events), n);
  }
}
