// A GET against a database that others keep changing, from metadata that may
// be stale (meta, meta_fresh and get_body in db.rs). The instants of a request
// are indices into a run of the database.
module Reads {
  import opened Base
  import opened Objects
  import opened Streaming
  import opened Completion
  import opened Store
  import opened StoreInvariant
  import opened Versions

  // What one piece's query, run at one instant, may answer: rows that are
  // there, in any order, once each; all of them unless it fails.
  ghost predicate Query(chunks: map<RowId, seq<Byte>>, p: Piece, events: seq<Event>) {
    && Distinct(p, events)
    && (forall i | 0 <= i < |events| && events[i].Row? ::
          RowId(p.file, events[i].no) in chunks && chunks[RowId(p.file, events[i].no)] == events[i].data)
    && (Fault !in events ==> forall no | p.lo <= no <= p.hi && RowId(p.file, no) in chunks :: no in Nos(events))
  }

  // m was the key's metadata at some instant up to `now`.
  ghost predicate WasLive(run: seq<Db>, now: nat, k: ObjKey, m: Meta)
    requires now < |run|
  {
    exists i :: 0 <= i <= now && Live(run[i], k, m)
  }

  // ---- the metadata's files ----

  lemma MetaIsStored(s: Db, k: ObjKey, m: Meta)
    requires Inv(s) && Live(s, k, m)
    ensures Stored(m, s.written) && forall i | 0 <= i < |Segments(m)| :: Segments(m)[i].file in FilesOf(m)
  {
    var segs := Segments(m);
    assert ObjectKept(s, k);
    TiledContent(segs, s.written, m.size);
    forall i | 0 <= i < |segs| ensures Objects.Numbered(segs[i]) {
      assert segs[i].file in s.written;
    }
  }

  lemma {:induction false} PlanFiles(segs: seq<Segment>, start: int, end: int, step: nat, files: set<nat>)
    requires forall i | 0 <= i < |segs| :: segs[i].file in files
    ensures forall p <- Plan(segs, start, end, step) :: p.file in files
  {
    if segs != [] {
      PlanFiles(segs[1..], start, end, step, files);
    }
  }

  lemma {:induction false} BytesRemembered(segs: seq<Segment>, w: map<nat, seq<Byte>>, x: map<nat, seq<Byte>>)
    requires forall s <- segs :: s.file in w && s.file in x && x[s.file] == w[s.file]
    ensures Content(segs, x) == Content(segs, w)
  {
    if segs != [] {
      assert segs[|segs| - 1] in segs;
      BytesRemembered(segs[..|segs| - 1], w, x);
    }
  }

  // ---- a plan's queries in a window of instants ----

  // Answers to the pieces' queries, piece i's at instant when[i].
  ghost predicate Asked(run: seq<Db>, low: nat, high: nat, ps: seq<Piece>, answers: seq<seq<Event>>, when: seq<nat>) {
    && |ps| == |answers| == |when| && low <= high < |run|
    && forall i | 0 <= i < |ps| :: AskedAt(run, low, high, ps, answers, when, i)
  }

  ghost predicate AskedAt(
    run: seq<Db>, low: nat, high: nat, ps: seq<Piece>, answers: seq<seq<Event>>, when: seq<nat>, i: nat)
    requires i < |ps| == |answers| == |when| && low <= high < |run|
  {
    low <= when[i] <= high && Query(run[when[i]].chunks, ps[i], answers[i])
  }

  // Rows of a version's files, seen at a later instant, are its own, and it is live then.
  lemma QueryAnswers(run: seq<Db>, i: nat, j: nat, k: ObjKey, m: Meta, p: Piece, events: seq<Event>)
    requires Run(run) && i <= j < |run| && Live(run[i], k, m) && p.file in FilesOf(m)
    requires Query(run[j].chunks, p, events)
    ensures p.file in run[i].written && Answers(p, events, run[i].written[p.file])
    ensures Nos(events) != {} ==> Live(run[j], k, m)
  {
    FileWritten(run, i, k, m, p.file);
    forall n | 0 <= n < |events| && events[n].Row?
      ensures 0 <= events[n].no < RowCount(|run[i].written[p.file]|)
           && events[n].data == RowAt(run[i].written[p.file], events[n].no)
      ensures Live(run[j], k, m)
    {
      RowShowsLive(run, i, j, k, m, RowId(p.file, events[n].no));
    }
    if Nos(events) != {} {
      NosFrom(events, |events|);
    }
  }

  lemma FileWritten(run: seq<Db>, i: nat, k: ObjKey, m: Meta, f: nat)
    requires Run(run) && i < |run| && Live(run[i], k, m) && f in FilesOf(m)
    ensures f in run[i].written
  {
    RunKeepsInv(run, i);
    assert Owns(run[i], OfObject(k), f);
  }

  lemma {:induction false} NosFrom(events: seq<Event>, n: nat)
    requires n <= |events|
    ensures NosTo(events, n) != {} ==> exists i :: 0 <= i < n && events[i].Row?
  {
    if n > 0 {
      NosFrom(events, n - 1);
    }
  }

  // Whatever happens in the window, the queries for a once-live version answer
  // with rows of that version, and its first row shows it live.
  lemma PlanAnswers(
    run: seq<Db>, i: nat, low: nat, high: nat, k: ObjKey, m: Meta, start: int, end: int,
    answers: seq<seq<Event>>, when: seq<nat>)
    requires Run(run) && i <= low && 0 <= start <= end < m.size
    requires Asked(run, low, high, PlanOf(m, start, end), answers, when) && Live(run[i], k, m)
    ensures Stored(m, run[i].written) && Fetched(PlanOf(m, start, end), answers, run[i].written)
    ensures PlanOf(m, start, end) != [] && low <= when[0] <= high
    ensures PlanOf(m, start, end)[0].lo in Nos(answers[0]) ==> Live(run[when[0]], k, m)
  {
    var ps := PlanOf(m, start, end);
    RunKeepsInv(run, i);
    MetaIsStored(run[i], k, m);
    PlanReads(m, run[i].written, start, end);
    PlanFiles(Segments(m), start, end, PART_ROWS, FilesOf(m));
    forall n | 0 <= n < |ps| ensures Shown(run, i, k, m, ps, answers, when, n) {
      assert AskedAt(run, low, high, ps, answers, when, n) && ps[n] in ps;
      QueryAnswers(run, i, when[n], k, m, ps[n], answers[n]);
    }
    assert Shown(run, i, k, m, ps, answers, when, 0) && AskedAt(run, low, high, ps, answers, when, 0);
    forall n | 0 <= n < |ps| ensures FetchedAt(ps, n, answers, run[i].written) {
      assert Shown(run, i, k, m, ps, answers, when, n);
    }
  }

  // Piece n's rows are the version's own, and if there are any it was live.
  ghost predicate Shown(
    run: seq<Db>, i: nat, k: ObjKey, m: Meta, ps: seq<Piece>, answers: seq<seq<Event>>, when: seq<nat>, n: nat)
    requires n < |ps| == |answers| == |when| && i < |run|
  {
    && FetchedAt(ps, n, answers, run[i].written) && when[n] < |run|
    && (Nos(answers[n]) != {} ==> Live(run[when[n]], k, m))
  }

  // ---- a window in which nobody changes the key ----

  ghost predicate Quiet(run: seq<Db>, low: nat, high: nat, k: ObjKey) {
    low <= high < |run| && forall j | low <= j <= high :: Lookup(run[j].objects, k) == Lookup(run[low].objects, k)
  }

  // While a version stays, its rows do.
  lemma {:induction false} RowsThrough(run: seq<Db>, low: nat, j: nat, k: ObjKey, m: Meta)
    requires Run(run) && low <= j < |run| && forall i | low <= i <= j :: Live(run[i], k, m)
    ensures RowsIn(run[j].chunks, FilesOf(m)) == RowsIn(run[low].chunks, FilesOf(m))
    decreases j - low
  {
    if low < j {
      RowsThrough(run, low, j - 1, k, m);
      RunKeepsInv(run, j - 1);
      assert NextAt(run, j - 1);
      if run[j] != run[j - 1] {
        var a: Action :| Apply(run[j - 1], a) == Some(run[j]);
        VersionRowsStay(run[j - 1], run[j], a, k);
      }
    }
  }

  // A version replaced before the window shows no row in it.
  lemma ReplacedIsMissing(
    run: seq<Db>, i: nat, low: nat, high: nat, k: ObjKey, m: Meta, start: int, end: int,
    answers: seq<seq<Event>>, when: seq<nat>)
    requires Run(run) && i <= low && 0 <= start <= end < m.size && Quiet(run, low, high, k)
    requires Asked(run, low, high, PlanOf(m, start, end), answers, when) && Live(run[i], k, m)
    requires !Live(run[low], k, m)
    ensures PlanOf(m, start, end) != [] && PlanOf(m, start, end)[0].lo !in Nos(answers[0])
  {
    PlanAnswers(run, i, low, high, k, m, start, end, answers, when);
    assert AskedAt(run, low, high, PlanOf(m, start, end), answers, when, 0);
  }

  // All rows the pieces ask for are there.
  ghost predicate RowsThere(s: Db, ps: seq<Piece>) { forall i | 0 <= i < |ps| :: PieceThere(s, ps[i]) }

  ghost predicate PieceThere(s: Db, p: Piece) { forall no | p.lo <= no <= p.hi :: RowId(p.file, no) in s.chunks }

  // A live version answers in full exactly if its requested rows are there,
  // when no query fails.
  lemma LiveAnswers(
    run: seq<Db>, low: nat, high: nat, k: ObjKey, m: Meta, start: int, end: int,
    answers: seq<seq<Event>>, when: seq<nat>)
    requires Run(run) && 0 <= start <= end < m.size && Quiet(run, low, high, k) && Live(run[low], k, m)
    requires Asked(run, low, high, PlanOf(m, start, end), answers, when)
    requires forall i | 0 <= i < |answers| :: Fault !in answers[i]
    ensures AllWhole(PlanOf(m, start, end), answers) <==> RowsThere(run[low], PlanOf(m, start, end))
  {
    var ps := PlanOf(m, start, end);
    RunKeepsInv(run, low);
    MetaIsStored(run[low], k, m);
    PlanFiles(Segments(m), start, end, PART_ROWS, FilesOf(m));
    forall n | 0 <= n < |ps| ensures WholeAt(ps, n, answers) <==> PieceThere(run[low], ps[n]) {
      assert AskedAt(run, low, high, ps, answers, when, n) && ps[n] in ps;
      RowsThrough(run, low, when[n], k, m);
      SameRows(run[low], run[when[n]], FilesOf(m), ps[n]);
      WholeIffThere(run[when[n]], ps[n], answers[n]);
    }
  }

  lemma SameRows(s: Db, t: Db, files: set<nat>, p: Piece)
    requires RowsIn(t.chunks, files) == RowsIn(s.chunks, files) && p.file in files
    ensures PieceThere(t, p) <==> PieceThere(s, p)
  {
    forall no: int ensures RowId(p.file, no) in t.chunks <==> RowId(p.file, no) in s.chunks {
      assert RowId(p.file, no) in RowsIn(t.chunks, files) <==> RowId(p.file, no) in RowsIn(s.chunks, files);
    }
  }

  lemma WholeIffThere(s: Db, p: Piece, events: seq<Event>)
    requires Query(s.chunks, p, events) && Fault !in events
    ensures Whole(p, events) <==> PieceThere(s, p)
  {
    forall no | no in Nos(events) ensures RowId(p.file, no) in s.chunks {
      NoFrom(events, |events|, no);
    }
  }

  lemma {:induction false} NoFrom(events: seq<Event>, n: nat, no: int)
    requires n <= |events| && no in NosTo(events, n)
    ensures exists i :: 0 <= i < n && events[i].Row? && events[i].no == no
  {
    if !(events[n - 1].Row? && events[n - 1].no == no) {
      NoFrom(events, n - 1, no);
    }
  }

  // A whole object has whatever rows are asked for.
  lemma WholeIsThere(s: Db, k: ObjKey, m: Meta, start: int, end: int)
    requires Inv(s) && Live(s, k, m) && WholeObject(s, m) && 0 <= start <= end < m.size
    ensures RowsThere(s, PlanOf(m, start, end))
  {
    var ps := PlanOf(m, start, end);
    MetaIsStored(s, k, m);
    PlanReads(m, s.written, start, end);
    PlanFiles(Segments(m), start, end, PART_ROWS, FilesOf(m));
    CoversPlaced(ps, s.written, start, end, start);
    forall n | 0 <= n < |ps| ensures PieceThere(s, ps[n]) {
      assert ps[n] in ps && PlacedAt(ps, n, s.written, start, end) && AllRows(s, ps[n].file);
    }
  }

  // ---- what writers put in the cache ----

  // The metadata a writer publishes to its gateway's cache after its commit is
  // what it committed.
  lemma CommittedWasLive(run: seq<Db>, i: nat, a: Action)
    requires Run(run) && i + 1 < |run| && Apply(run[i], a) == Some(run[i + 1]) && (a.Put? || a.Complete?)
    ensures a.Put? ==> WasLive(run, i + 1, a.key, Meta(a.file, |a.data|, a.etag, None, None))
    ensures a.Complete? ==> PartRows(run[i].parts, a.upload) != []
    ensures a.Complete? ==>
      WasLive(run, i + 1, a.key, Published(PartRows(run[i].parts, a.upload), a.etag))
  {
    if a.Complete? {
      RunKeepsInv(run, i);
      CompleteIs(run[i], a.upload, a.key, a.listed, a.etag);
    }
    assert Live(run[i + 1], a.key, run[i + 1].objects[a.key]);
  }
}
