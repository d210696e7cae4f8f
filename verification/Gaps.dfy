// Runs that show where the code stops short: an object published without its
// first row, and requests answered from a version that was overwritten.
module Gaps {
  import opened Base
  import opened Objects
  import opened Completion
  import opened Store
  import opened StoreInvariant
  import opened Versions
  import opened Streaming
  import opened Reads
  import opened Ranges
  import opened Getting
  import MC = MetaCaching

  const KEY := ObjKey("b", "k")
  const PART := PartId("u", 1)

  lemma {:induction false} RunMore(run: seq<Db>, a: Action, t: Db)
    requires Run(run) && Apply(run[|run| - 1], a) == Some(t)
    ensures Run(run + [t])
  {
    var more := run + [t];
    forall i | 0 <= i < |more| - 1 ensures NextAt(more, i) {
      if i < |run| - 1 {
        assert NextAt(run, i);
      } else {
        assert Step(run[i], t);
      }
    }
  }

  lemma OneNo(parts: map<PartId, Part>, p: Part)
    requires parts == map[PART := p]
    ensures PartRows(parts, "u") == [PartRow(1, p.file, p.size, p.sha)]
  {
    assert PartNos(parts, "u") == {1} by {
      assert PART in parts;
    }
    SortedIs({1});
    assert Sorted({1})[0] in {1} && Sorted({1} - {1}) == [];
    assert Least({1}) == 1;
    assert Sorted({1}) == [1];
  }

  // Two rows: the lower one is the one to go.
  lemma LowerRow(chunks: map<RowId, seq<Byte>>)
    requires chunks.Keys == {RowId(0, 0), RowId(0, 1)}
    ensures Doomed(chunks, 0, 1) == {RowId(0, 0)}
  {
    var s := Store.Empty.(chunks := chunks);
    var d := Doomed(chunks, 0, 1);
    DoomedIs(s, 0, 1);
    assert RowId(0, 0) in chunks && RowId(0, 1) in chunks;
    assert RowNos(chunks, 0) == {0, 1};
    assert forall r <- d :: r == RowId(0, 0) || r == RowId(0, 1);
    OneOfTwo(d, RowId(0, 0), RowId(0, 1));
  }

  lemma OneOfTwo<T>(d: set<T>, a: T, b: T)
    requires d <= {a, b} && |d| == 1 && a != b && (b in d ==> a in d)
    ensures d == {a}
  {
    var x := Element(d);
    assert |d - {x}| == 0;
    assert d == {x};
  }

  // A two-row part has been sent.
  ghost predicate Sent(s: Db) {
    && s.uploads == map["u" := KEY] && s.objects == map[]
    && s.parts == map[PART := Part(0, ROW_BYTES + 1, [])] && s.chunks.Keys == {RowId(0, 0), RowId(0, 1)}
    && 0 in s.written && |s.written[0]| == ROW_BYTES + 1
  }

  // An upload and a file to write.
  lemma StartUpload() returns (run: seq<Db>)
    ensures Run(run)
    ensures run[|run| - 1]
         == Store.Empty.(buckets := {"b"}, uploads := map["u" := KEY], nextFile := 1, writing := {0})
  {
    var s1 := Store.Empty.(buckets := {"b"});
    var s2 := s1.(uploads := map["u" := KEY]);
    var s3 := s2.(nextFile := 1, writing := {0});
    assert s1.buckets == Store.Empty.buckets + {"b"};
    assert s2.uploads == s1.uploads["u" := KEY];
    assert s3.writing == s2.writing + {0};
    RunMore([Store.Empty], CreateBucket("b"), s1);
    RunMore([Store.Empty] + [s1], CreateUpload(KEY, "u"), s2);
    RunMore([Store.Empty] + [s1] + [s2], NextFile, s3);
    run := [Store.Empty] + [s1] + [s2] + [s3];
  }

  lemma SendPart() returns (run: seq<Db>)
    ensures Run(run) && Sent(run[|run| - 1])
  {
    run := StartUpload();
    var s := run[|run| - 1];
    var data: seq<Byte> := seq(ROW_BYTES + 1, _ => 0);
    var send := PutPart(PART, 0, data, []);
    var t := Apply(s, send).value;
    RunMore(run, send, t);
    run := run + [t];
    NoneRemoved(FileRows(0, data));
    TwoRows(t.chunks, data);
  }

  lemma NoneRemoved(chunks: map<RowId, seq<Byte>>)
    ensures WithoutFiles(chunks, {}) == chunks
  {
  }

  lemma TwoRows(chunks: map<RowId, seq<Byte>>, data: seq<Byte>)
    requires |data| == ROW_BYTES + 1 && chunks == FileRows(0, data)
    ensures chunks.Keys == {RowId(0, 0), RowId(0, 1)}
  {
    assert RowCount(|data|) == 2;
    assert RowId(0, 0) in chunks && RowId(0, 1) in chunks;
  }

  lemma ExpireOneRow(s: Db) returns (t: Db)
    requires Sent(s)
    ensures Apply(s, Expire("u", 1)) == Some(t)
    ensures t == s.(chunks := s.chunks - {RowId(0, 0)})
  {
    OneNo(s.parts, s.parts[PART]);
    LowerRow(s.chunks);
    t := s.(chunks := s.chunks - {RowId(0, 0)});
    assert ExpireAttempt(s, "u", 1) == (t, 1);
  }

  // Start a two-row part, expire one row, complete: the object is published
  // without row 0, so it can never be read from the start.
  lemma CompleteAfterPartialExpiry() returns (run: seq<Db>)
    ensures Run(run)
    ensures var s := run[|run| - 1];
      KEY in s.objects && s.objects[KEY].size == ROW_BYTES + 1 && RowId(s.objects[KEY].fileId, 0) !in s.chunks
      && !WholeObject(s, s.objects[KEY])
  {
    run := SendPart();
    var s := run[|run| - 1];
    var t := ExpireOneRow(s);
    RunMore(run, Expire("u", 1), t);
    run := run + [t];
    var p, listed := t.parts[PART], [Listed(1, "")];
    OneNo(t.parts, p);
    var rows := [PartRow(1, 0, ROW_BYTES + 1, [])];
    assert AllListed(rows) == listed && SortByNo(listed) == listed;
    assert rows[..0] == [] && TotalSize(rows) == ROW_BYTES + 1;
    var u := Apply(t, Complete("u", KEY, listed, [])).value;
    RunMore(run, Complete("u", KEY, listed, []), u);
    run := run + [u];
    assert u.chunks == WithoutFiles(t.chunks, {});
    assert RowId(0, 0) !in u.chunks && 0 in FilesOf(u.objects[KEY]) && u.written == t.written;
    assert !AllRows(u, 0);
  }

  // One version of the key, in one file.
  function Version(file: nat, data: seq<Byte>): Meta { Meta(file, |data|, [], None, None) }

  // The key holds that and there is nothing else.
  ghost predicate HoldsOnly(s: Db, file: nat, data: seq<Byte>) {
    && s.nextFile == file + 1 && s.writing == {} && s.buckets == {"b"} && s.chunks == FileRows(file, data)
    && Lookup(s.objects, KEY) == Some(Version(file, data))
  }

  lemma RowsOfOne(file: nat, data: seq<Byte>)
    requires |data| <= ROW_BYTES
    ensures FileRows(file, data) == if data == [] then map[] else map[RowId(file, 0) := data]
  {
    assert RowCount(|data|) == if data == [] then 0 else 1;
    assert data != [] ==> RowAt(data, 0) == data;
  }

  // The key written once more.
  lemma Overwrite(run: seq<Db>, file: nat, data: seq<Byte>) returns (more: seq<Db>)
    requires Run(run) && |data| <= ROW_BYTES
    requires var s := run[|run| - 1];
      && file == s.nextFile && s.buckets == {"b"} && s.writing == {}
      && forall r <- s.chunks :: r.file in Reaped(Lookup(s.objects, KEY))
    ensures Run(more) && |more| == |run| + 2 && more[..|run|] == run && HoldsOnly(more[|more| - 1], file, data)
    ensures forall r <- more[|more| - 1].chunks :: r.file in Reaped(Lookup(more[|more| - 1].objects, KEY))
  {
    var s := run[|run| - 1];
    var t := Apply(s, NextFile).value;
    RunMore(run, NextFile, t);
    RunKeepsInv(run, |run| - 1);
    var put := Put(KEY, file, data, [], Unconditional);
    var u := Apply(t, put).value;
    RunMore(run + [t], put, u);
    more := run + [t] + [u];
    FreshRows(s, file, data);
    RowsOfOne(file, data);
  }

  // Reaping what the key held leaves the new rows only.
  lemma FreshRows(s: Db, file: nat, data: seq<Byte>)
    requires FreshIds(s) && file == s.nextFile && |data| <= ROW_BYTES
    requires forall r <- s.chunks :: r.file in Reaped(Lookup(s.objects, KEY))
    ensures WithoutFiles(s.chunks + FileRows(file, data), Reaped(Lookup(s.objects, KEY))) == FileRows(file, data)
  {
    RowsOfOne(file, data);
    if KEY in s.objects {
      forall f <- FilesOf(s.objects[KEY]) ensures f < s.nextFile {
        assert Owns(s, OfObject(KEY), f);
      }
    }
  }

  // The key holds datas[i] at 2 * i + 3.
  ghost predicate HeldAt(run: seq<Db>, datas: seq<seq<Byte>>, i: nat) {
    i < |datas| && 2 * i + 3 < |run| && HoldsOnly(run[2 * i + 3], i, datas[i])
  }

  lemma HeldOn(run: seq<Db>, more: seq<Db>, datas: seq<seq<Byte>>, all: seq<seq<Byte>>, i: nat)
    requires HeldAt(run, datas, i) && run <= more && datas <= all
    ensures HeldAt(more, all, i)
  {
    assert more[..|run|] == run && all[..|datas|] == datas;
  }

  // Versions written one over the other.
  lemma {:induction false} Written(datas: seq<seq<Byte>>) returns (run: seq<Db>)
    requires forall d <- datas :: |d| <= ROW_BYTES
    ensures Run(run) && |run| == 2 * |datas| + 2
    ensures forall i | 0 <= i < |datas| :: HeldAt(run, datas, i)
    ensures var s := run[|run| - 1];
      && s.nextFile == |datas| && s.buckets == {"b"} && s.writing == {}
      && forall r <- s.chunks :: r.file in Reaped(Lookup(s.objects, KEY))
  {
    if datas == [] {
      var s := Store.Empty.(buckets := {"b"});
      assert s.buckets == Store.Empty.buckets + {"b"};
      RunMore([Store.Empty], CreateBucket("b"), s);
      run := [Store.Empty] + [s];
    } else {
      var n := |datas| - 1;
      var before := Written(datas[..n]);
      run := Overwrite(before, n, datas[n]);
      forall i | 0 <= i < n ensures HeldAt(run, datas, i) {
        HeldOn(before, run, datas[..n], datas, i);
      }
      assert HeldAt(run, datas, n);
    }
  }

  // What a query finds while the key holds that.
  function Finding(file: nat, data: seq<Byte>): Piece -> seq<Event> {
    (p: Piece) => if p.file == file && data != [] && p.lo <= 0 <= p.hi then [Row(0, data)] else []
  }

  lemma FindsAll(file: nat, data: seq<Byte>, p: Piece)
    requires |data| <= ROW_BYTES
    ensures Query(FileRows(file, data), p, Finding(file, data)(p)) && Fault !in Finding(file, data)(p)
  {
    RowsOfOne(file, data);
    var events := Finding(file, data)(p);
    assert events != [] ==> NosTo(events, 1) == NosTo(events, 0) + {0};
  }

  ghost function During(opens: nat, asks: nat): Times { Times(opens, opens, asks, _ => asks) }

  // An attempt that looks while the key holds datas[i] and asks for rows while
  // it holds datas[j].
  lemma HappensThen(run: seq<Db>, datas: seq<seq<Byte>>, i: nat, j: nat, try: Try)
    requires Run(run) && |run| == 2 * |datas| + 2 && i <= j < |datas| && forall d <- datas :: |d| <= ROW_BYTES
    requires forall n | 0 <= n < |datas| :: HeldAt(run, datas, n)
    requires try.waiting == [] == try.during
    requires try.others == [] || (i > 0 && try.others == [Publish(KEY, Version(0, datas[0]))])
    requires try.found == Some(Version(i, datas[i])) && try.query == Finding(j, datas[j])
    ensures Happens(run, KEY, try, During(2 * i + 3, 2 * j + 3))
    ensures forall p: Piece :: Fault !in try.query(p)
  {
    var t := During(2 * i + 3, 2 * j + 3);
    assert HeldAt(run, datas, j);
    forall p: Piece ensures Fault !in try.query(p) && Happened(run, try, t, p) {
      FindsAll(j, datas[j], p);
    }
    assert HeldAt(run, datas, 0) && Live(run[3], KEY, Version(0, datas[0])) && HeldAt(run, datas, i);
  }

  // What an attempt comes to by a version that is gone when it asks for rows.
  lemma GoneReplies(
    run: seq<Db>, req: Request, attempt: nat, m: Meta, try: Try, t: Times, asks: nat, reply: Option<Reply>)
    requires t.looks < |run| && asks < |run| && !Live(run[asks], KEY, m) && forall p: Piece :: t.when(p) == asks
    requires Replies(run, KEY, req, attempt, Some(m), try, t, None, reply)
    requires m.size >= 0
    ensures reply == if attempt == 0 && m.size > 0 then None else Some(GoneReply(m, req))
  {
  }

  lemma GoneTwice(
    run: seq<Db>, req: Request, tries: seq<Try>, times: seq<Times>, cached: Option<Meta>, again: Option<Meta>,
    m: Meta, n: Meta, asks: nat, asksAgain: nat, retried: bool, reply: Reply)
    requires |tries| == |times| == 2 && times[0].looks < |run| && times[1].looks < |run|
    requires Attempts(run, KEY, req, tries, times, None, cached, retried, again, reply)
    requires Basis(cached, tries[0].found) == Some(m) && (retried ==> Basis(again, tries[1].found) == Some(n))
    requires asks < |run| && !Live(run[asks], KEY, m) && forall p: Piece :: times[0].when(p) == asks
    requires asksAgain < |run| && !Live(run[asksAgain], KEY, n) && forall p: Piece :: times[1].when(p) == asksAgain
    requires m.size >= 0 && n.size >= 0
    ensures reply == GoneReply(if m.size > 0 then n else m, req)
  {
    GoneReplies(run, req, 0, m, tries[0], times[0], asks, if retried then None else Some(reply));
    if retried {
      GoneReplies(run, req, 1, n, tries[1], times[1], asksAgain, Some(reply));
    }
  }

  // A version overwritten by another that is whole.
  ghost predicate Replaced(run: seq<Db>, stale: seq<Byte>, live: seq<Byte>) {
    && Run(run) && |run| == 6 && HoldsOnly(run[3], 0, stale)
    && HoldsOnly(run[5], 1, live) && WholeObject(run[5], Version(1, live))
  }

  lemma Replace(stale: seq<Byte>, live: seq<Byte>) returns (run: seq<Db>)
    requires |stale| <= ROW_BYTES && 0 < |live| <= ROW_BYTES
    ensures Replaced(run, stale, live)
  {
    var datas := [stale, live];
    run := Written(datas);
    assert HeldAt(run, datas, 0) && HeldAt(run, datas, 1);
    RunKeepsInv(run, 5);
    WholeAgain(run[5], live);
  }

  lemma StaleHappens(run: seq<Db>, stale: seq<Byte>, live: seq<Byte>, try: Try)
    requires |stale| <= ROW_BYTES && 0 < |live| <= ROW_BYTES && Replaced(run, stale, live)
    requires try == Try([Publish(KEY, Version(0, stale))], [], [], Some(Version(1, live)), try.query)
    requires try.query == Finding(1, live)
    ensures Happens(run, KEY, try, During(5, 5)) && !Live(run[5], KEY, Version(0, stale))
  {
    var datas := [stale, live];
    assert HeldAt(run, datas, 0) && HeldAt(run, datas, 1);
    HappensThen(run, datas, 1, 1, try);
  }

  // A request that finds an overwritten version in the cache, put there by one
  // whose lookup was before the overwrite, and finds it there again if it tries
  // again. Nothing else happens.
  method AskStale(stale: seq<Byte>, live: seq<Byte>, req: Request, ghost run: seq<Db>) returns (reply: Reply)
    requires |stale| <= ROW_BYTES && 0 < |live| <= ROW_BYTES && Replaced(run, stale, live)
    ensures reply == GoneReply(Version(0, stale), req)
  {
    var cache := new MC.MetaCache<ObjKey, Meta>(MC.META_CAP);
    var m := Version(0, stale);
    var try := Try([Publish(KEY, m)], [], [], Some(Version(1, live)), Finding(1, live));
    ghost var t := During(5, 5);
    StaleHappens(run, stale, live, try);
    FoundIs([], MC.META_CAP, try.others, KEY);
    ghost var retried, again;
    reply, retried, again := GetBody(cache, KEY, req, [try, try], None, run, [t, t]);
    GoneTwice(run, req, [try, try], [t, t], Some(m), again, m, m, 5, 5, retried, reply);
  }

  lemma WholeAgain(s: Db, live: seq<Byte>)
    requires Inv(s) && HoldsOnly(s, 1, live) && live != [] && |live| <= ROW_BYTES
    ensures WholeObject(s, Version(1, live))
  {
    RowsOfOne(1, live);
    assert Owns(s, OfObject(KEY), 1);
    assert RowKept(s, RowId(1, 0));
  }

  // An empty version overwritten by a byte is still answered as empty.
  method StaleEmptyVersion() returns (reply: Reply, ghost run: seq<Db>)
    ensures Replaced(run, [], [7]) && reply.Empty? && reply.meta.size == 0
  {
    run := Replace([], [7]);
    reply := AskStale([], [7], Request(0, -1, -1), run);
  }

  // One byte overwritten by two: asked for the second byte, the first attempt
  // drops the stale entry, another request puts it back, and the second attempt
  // answers that the range is out of bounds.
  method StaleRange() returns (reply: Reply, ghost run: seq<Db>)
    ensures Replaced(run, [7], [8, 9]) && EffRange(2, 1, 1, -1) == (1, 1) && reply.Empty? && reply.meta.size == 1
  {
    run := Replace([7], [8, 9]);
    reply := AskStale([7], [8, 9], Request(1, 1, -1), run);
  }

  // Asked for all of it, both attempts look for rows that only the stale version
  // had: an error, though the object is whole and nobody changes it.
  method StaleAgain() returns (reply: Reply, ghost run: seq<Db>)
    ensures Replaced(run, [7], [8, 9]) && reply == Reply.Failed
  {
    run := Replace([7], [8, 9]);
    reply := AskStale([7], [8, 9], Request(0, -1, -1), run);
  }

  // Two overwrites, one within each attempt: an error with no stale entry.
  method OverwrittenTwice() returns (reply: Reply, ghost run: seq<Db>)
    ensures Run(run) && HoldsOnly(run[|run| - 1], 2, [9]) && reply == Reply.Failed
  {
    ghost var datas: seq<seq<Byte>> := [[7], [8], [9]];
    run := Written(datas);
    var cache := new MC.MetaCache<ObjKey, Meta>(MC.META_CAP);
    var first := Try([], [], [], Some(Version(0, [7])), Finding(1, [8]));
    var second := Try([], [], [], Some(Version(1, [8])), Finding(2, [9]));
    HappensThen(run, datas, 0, 1, first);
    HappensThen(run, datas, 1, 2, second);
    ghost var retried, again;
    reply, retried, again := GetBody(
      cache, KEY, Request(0, -1, -1), [first, second], None, run, [During(3, 5), During(5, 7)]);
    assert HeldAt(run, datas, 1) && HeldAt(run, datas, 2);
    GoneTwice(run, Request(0, -1, -1), [first, second], [During(3, 5), During(5, 7)], None, again,
      Version(0, [7]), Version(1, [8]), 5, 7, retried, reply);
  }
}
