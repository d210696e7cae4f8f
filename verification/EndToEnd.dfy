// Writes and reads together: what a key holds is what its last write
// committed, and a calm GET answers exactly the part of it that was asked for.
module EndToEnd {
  import opened Base
  import opened Objects
  import opened Ranges
  import opened Streaming
  import opened Completion
  import opened Store
  import opened StoreInvariant
  import opened Versions
  import opened Reads
  import opened Getting
  import opened Interleaving

  predicate Writes(a: Action, k: ObjKey) { (a.Put? || a.Complete?) && a.key == k }

  // The bytes a write commits: those sent, or those of the recorded parts in order.
  ghost function CommittedBytes(s: Db, a: Action): seq<Byte>
    requires a.Put? || a.Complete?
  {
    match a
    case Put(_, _, data, _, _) => data
    case Complete(upload, _, _, _) => Flatten(FilesBytes(Ids(PartRows(s.parts, upload)), s.written))
  }

  // The bytes of the last write of the key among the first `n` transactions;
  // None if there is none, or a delete came after it.
  ghost function LastBytes(run: seq<Db>, actions: seq<Option<Action>>, n: nat, k: ObjKey): Option<seq<Byte>>
    requires n <= |actions| < |run|
  {
    if n == 0 then None else
    var v := LastBytes(run, actions, n - 1, k);
    if actions[n - 1].None? then v else BytesAfter(run[n - 1], actions[n - 1].value, k, v)
  }

  ghost function BytesAfter(s: Db, a: Action, k: ObjKey, v: Option<seq<Byte>>): Option<seq<Byte>> {
    if Writes(a, k) then Some(CommittedBytes(s, a)) else if a == Delete(k) then None else v
  }

  ghost predicate Holds(s: Db, k: ObjKey, v: seq<Byte>) {
    k in s.objects && Stored(s.objects[k], s.written) && Bytes(s.objects[k], s.written) == v
  }

  // The key holds the bytes, or nothing if there are none. (Behind a
  // quantifier, to be unfolded only where Holds is named.)
  ghost predicate HoldsAny(s: Db, k: ObjKey, v: Option<seq<Byte>>) {
    && (v.None? ==> k !in s.objects)
    && forall b {:trigger Holds(s, k, b)} | v == Some(b) :: Holds(s, k, b)
  }

  lemma PutHolds(s: Db, k: ObjKey, file: nat, data: seq<Byte>, etag: seq<Byte>, condition: Condition)
    requires Inv(s) && Apply(s, Put(k, file, data, etag, condition)).Some?
    ensures Holds(Apply(s, Put(k, file, data, etag, condition)).value, k, data)
  {
    var t := Apply(s, Put(k, file, data, etag, condition)).value;
    PutKeepsInv(s, k, file, data, etag, condition);
    MetaIsStored(t, k, t.objects[k]);
    ContentIsParts(Segments(t.objects[k]), t.written, [data]);
    FlattenSnoc([], data);
    assert [] + [data] == [data];
  }

  lemma CompleteHolds(s: Db, upload: string, k: ObjKey, listed: seq<Listed>, etag: seq<Byte>)
    requires Inv(s) && Apply(s, Complete(upload, k, listed, etag)).Some?
    ensures var a := Complete(upload, k, listed, etag); Holds(Apply(s, a).value, k, CommittedBytes(s, a))
  {
    var t, rows := Apply(s, Complete(upload, k, listed, etag)).value, PartRows(s.parts, upload);
    CompleteIs(s, upload, k, listed, etag);
    CompleteKeepsInv(s, upload, k, listed, etag);
    PartRowsAre(s, upload);
    PublishedContent(rows, etag, s.written);
    ContentHolds(t, k, Published(rows, etag), CommittedBytes(s, Complete(upload, k, listed, etag)));
  }

  lemma ContentHolds(s: Db, k: ObjKey, m: Meta, v: seq<Byte>)
    requires Inv(s) && Lookup(s.objects, k) == Some(m)
    requires (forall g <- Segments(m) :: g.file in s.written) && Content(Segments(m), s.written) == v
    ensures Holds(s, k, v)
  {
    MetaIsStored(s, k, m);
  }

  lemma PublishedContent(rows: seq<PartRow>, etag: seq<Byte>, written: map<nat, seq<Byte>>)
    requires rows != []
    requires forall i | 0 <= i < |rows| :: rows[i].file in written && |written[rows[i].file]| == rows[i].size
    ensures var segs := Segments(Published(rows, etag));
      && (forall s <- segs :: s.file in written)
      && Content(segs, written) == Flatten(FilesBytes(Ids(rows), written))
  {
    PublishedTiles(rows, etag, written);
    ContentIsParts(Segments(Published(rows, etag)), written, FilesBytes(Ids(rows), written));
  }

  lemma OthersHold(s: Db, a: Action, t: Db, k: ObjKey)
    requires Apply(s, a) == Some(t) && !Writes(a, k) && a != Delete(k)
    ensures Lookup(t.objects, k) == Lookup(s.objects, k)
  {
  }

  lemma HoldsOn(s: Db, t: Db, k: ObjKey, v: Option<seq<Byte>>)
    requires Inv(s) && Inv(t) && Remembers(s, t) && Lookup(t.objects, k) == Lookup(s.objects, k)
    requires HoldsAny(s, k, v)
    ensures HoldsAny(t, k, v)
  {
    if v.Some? {
      assert Holds(s, k, v.value);
      var m := s.objects[k];
      MetaIsStored(s, k, m);
      MetaIsStored(t, k, m);
      BytesRemembered(Segments(m), s.written, t.written);
    }
  }

  lemma WriteHolds(s: Db, a: Action, t: Db, k: ObjKey)
    requires Inv(s) && Apply(s, a) == Some(t) && Writes(a, k)
    ensures Holds(t, k, CommittedBytes(s, a))
  {
    match a
    case Put(_, file, data, etag, condition) => PutHolds(s, k, file, data, etag, condition);
    case Complete(upload, _, listed, etag) => CompleteHolds(s, upload, k, listed, etag);
  }

  lemma NextHolds(s: Db, a: Action, t: Db, k: ObjKey, was: Option<seq<Byte>>)
    requires Inv(s) && Apply(s, a) == Some(t) && HoldsAny(s, k, was)
    ensures HoldsAny(t, k, BytesAfter(s, a, k, was))
  {
    if Writes(a, k) {
      WriteHolds(s, a, t, k);
    } else if a == Delete(k) {
      DeletedHolds(s, t, k);
    } else {
      OthersHold(s, a, t, k);
      StepKeepsInv(s, a);
      EveryStepMoves(s, a);
      HoldsOn(s, t, k, was);
    }
  }

  // In every reachable state a key holds what its last write committed, and
  // nothing if there is none.
  lemma {:induction false} KeyHolds(run: seq<Db>, actions: seq<Option<Action>>, n: nat, k: ObjKey)
    requires Does(run, actions) && n < |run|
    ensures HoldsAny(run[n], k, LastBytes(run, actions, n, k))
  {
    if n > 0 {
      KeyHolds(run, actions, n - 1, k);
      HoldsNext(run, actions, n, k, LastBytes(run, actions, n - 1, k));
    }
  }

  lemma HoldsNext(run: seq<Db>, actions: seq<Option<Action>>, n: nat, k: ObjKey, was: Option<seq<Byte>>)
    requires Does(run, actions) && 0 < n < |run|
    requires was == LastBytes(run, actions, n - 1, k) && HoldsAny(run[n - 1], k, was)
    ensures HoldsAny(run[n], k, LastBytes(run, actions, n, k))
  {
    assert DoesAt(run, actions, n - 1);
    if actions[n - 1].Some? {
      DoesIsRun(run, actions);
      RunKeepsInv(run, n - 1);
      NextHolds(run[n - 1], actions[n - 1].value, run[n], k, was);
    }
  }

  lemma DeletedHolds(s: Db, t: Db, k: ObjKey)
    requires Apply(s, Delete(k)) == Some(t)
    ensures k !in t.objects
  {
  }

  // The same of every interleaving of the statements.
  lemma InterleavedKeyHolds(hash: ObjKey -> int, run: seq<Sys>, events: seq<Interleaving.Event>, n: nat, k: ObjKey)
    requires SysDoes(hash, run, events) && n < |run|
    ensures HoldsAny(run[n].db, k, LastBytes(Databases(run), Transactions(run, events), n, k))
  {
    InterleavingsDo(hash, run, events);
    assert Databases(run)[n] == run[n].db;
    KeyHolds(Databases(run), Transactions(run, events), n, k);
  }

  // What a GET of the bytes `v` answers; None is no object.
  ghost predicate AnswersWith(v: Option<seq<Byte>>, req: Request, reply: Reply) {
    if v.None? then reply == NotFound else
    var (start, end) := EffRange(|v.value|, req.first, req.last, req.suffix);
    if start > end then reply.Empty? && reply == Reply.Empty(reply.meta, start, end) && reply.meta.size == |v.value|
    else
      && reply.Body? && reply == Body(reply.meta, start, end, reply.chunks, true)
      && 0 <= start <= end < |v.value| == reply.meta.size && Flatten(reply.chunks) == v.value[start..end + 1]
  }

  lemma ExpectedAnswers(s: Db, k: ObjKey, v: seq<Byte>, req: Request, reply: Reply)
    requires Inv(s) && Holds(s, k, v) && WholeObject(s, s.objects[k]) && Expected(s, k, req, reply)
    ensures AnswersWith(Some(v), req, reply)
  {
    var m := s.objects[k];
    var (start, end) := EffRange(m.size, req.first, req.last, req.suffix);
    TiledContent(Segments(m), s.written, m.size);
    if start <= end {
      WholeIsThere(s, k, m, start, end);
    }
  }

  lemma CalmAnswers(run: seq<Db>, actions: seq<Option<Action>>, n: nat, k: ObjKey, req: Request, reply: Reply)
    requires Does(run, actions) && n < |run| && CarefulTo(run, actions, n)
    ensures Readable(run[n], k, req)
    ensures Expected(run[n], k, req, reply) ==> AnswersWith(LastBytes(run, actions, n, k), req, reply)
  {
    KeyHolds(run, actions, n, k);
    var v := LastBytes(run, actions, n, k);
    assert v.Some? ==> Holds(run[n], k, v.value);
    if k in run[n].objects {
      var m := run[n].objects[k];
      DoesIsRun(run, actions);
      RunKeepsInv(run, n);
      CarefulRunsAreWhole(run, actions, n, k);
      var (start, end) := EffRange(m.size, req.first, req.last, req.suffix);
      if start <= end {
        WholeIsThere(run[n], k, m, start, end);
      }
      if Expected(run[n], k, req, reply) {
        ExpectedAnswers(run[n], k, v.value, req, reply);
      }
    }
  }

  // In a run in which no Complete met a drained part, a GET while nobody
  // changes the key, no query fails and the client stays answers exactly the
  // requested part of what its last write committed, if the entry that decides
  // is none or of the version the key holds. If it is of another, the answer is
  // an error, or that the range is empty for that other version.
  method CalmGet(
    cache: Cache, k: ObjKey, req: Request, tries: seq<Try>,
    ghost run: seq<Db>, ghost actions: seq<Option<Action>>, ghost times: seq<Times>)
    returns (reply: Reply, ghost again: Option<Meta>)
    requires cache.Valid() && Does(run, actions) && Run(run) && |tries| == |times| == 2
    requires Happens(run, k, tries[0], times[0]) && Happens(run, k, tries[1], times[1])
    requires times[0].closes <= times[1].opens && CacheKept(run, times[0].opens, cache.Contents())
    requires CarefulTo(run, actions, times[0].opens)
    requires Calm(run, times[0].opens, times[1].closes, k, tries[0], None)
    requires Calm(run, times[0].opens, times[1].closes, k, tries[1], None)
    modifies cache`entries, cache`order
    ensures var s := run[times[0].opens];
      var cached := FoundAfter(old(cache.Contents()), cache.cap, tries[0].others, k);
      var e := Deciding(s, k, req, cached, again);
      && (Retries(s, k, req, cached) ==> FoundAgain(cache.cap, tries[1].others, k, again))
      && if Current(s, k, e) then AnswersWith(LastBytes(run, actions, times[0].opens, k), req, reply)
         else reply == GoneReply(e.value, req)
  {
    ghost var retried;
    ghost var cached := FoundAfter(cache.Contents(), cache.cap, tries[0].others, k);
    reply, retried, again := GetBody(cache, k, req, tries, None, run, times);
    CalmAnswers(run, actions, times[0].opens, k, req, reply);
    StaleAnswers(run, k, req, tries, times, None, cached, retried, again, reply);
  }
}
