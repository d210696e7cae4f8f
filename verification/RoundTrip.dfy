// The data path end to end: request bytes are framed, copied in, planned and
// streamed back, as one file or as the parts of a multipart object.
module RoundTrips {
  import opened Base
  import opened CopyFormat
  import opened Framing
  import opened Objects
  import opened Streaming
  import opened Store
  import opened Reads
  import Completion

  type Table = map<RowId, seq<Byte>>

  // The table holds exactly the rows of the files written.
  ghost predicate Holds(chunks: Table, written: map<nat, seq<Byte>>) {
    forall r: RowId ::
      && (r in chunks <==> r.file in written && 0 <= r.no < RowCount(|written[r.file]|))
      && (r in chunks ==> chunks[r] == RowAt(written[r.file], r.no))
  }

  // The rows a query that does not fail finds, in whatever order they arrive.
  ghost predicate Finds(chunks: Table, p: Piece, events: seq<Event>) { Query(chunks, p, events) && Fault !in events }

  ghost function FirstRows(file: nat, data: seq<Byte>, n: nat): Table
    requires n <= RowCount(|data|)
  {
    map no | 0 <= no < n :: RowId(file, no) := RowAt(data, no)
  }

  lemma OneMoreRow(chunks: Table, file: nat, data: seq<Byte>, n: nat)
    requires n < RowCount(|data|)
    ensures (chunks + FirstRows(file, data, n))[RowId(file, n) := RowAt(data, n)] == chunks + FirstRows(file, data, n + 1)
  {
    assert FirstRows(file, data, n)[RowId(file, n) := RowAt(data, n)] == FirstRows(file, data, n + 1);
  }

  // COPY: every tuple of the stream becomes a row.
  method CopyIn(chunks0: Table, stream: seq<Byte>, ghost file: nat, ghost data: seq<Byte>) returns (chunks: Table)
    requires Parse(stream) == Some(Tuples(file, 0, data))
    ensures chunks == chunks0 + FileRows(file, data)
  {
    var ts := Parse(stream).value;
    chunks := chunks0;
    TuplesAre(file, data);
    NoRows(chunks0, file, data);
    for i := 0 to |ts|
      invariant chunks == chunks0 + FirstRows(file, data, i)
    {
      OneMoreRow(chunks0, file, data, i);
      chunks := chunks[RowId(ts[i].file, ts[i].no) := ts[i].data];
    }
  }

  lemma NoRows(chunks: Table, file: nat, data: seq<Byte>)
    ensures chunks + FirstRows(file, data, 0) == chunks
  {
  }

  lemma TuplesAre(file: nat, data: seq<Byte>)
    ensures var ts := Tuples(file, 0, data);
      |ts| == RowCount(|data|) && forall i | 0 <= i < |ts| :: ts[i] == Tuple(file, i, RowAt(data, i))
    ensures FirstRows(file, data, RowCount(|data|)) == FileRows(file, data)
  {
  }

  lemma HoldsMore(chunks: Table, written: map<nat, seq<Byte>>, file: nat, data: seq<Byte>)
    requires Holds(chunks, written) && file !in written
    ensures Holds(chunks + FileRows(file, data), written[file := data])
  {
  }

  // A file through a writer: any cut of its bytes into messages.
  method WriteFile(
    chunks0: Table, file: nat, msgs: seq<Msg>, digest: seq<Byte> -> seq<Byte>, ghost written: map<nat, seq<Byte>>)
    returns (chunks: Table, size: nat, sum: seq<Byte>)
    requires Holds(chunks0, written) && file !in written
    requires Storable(file, 0, |Payload(msgs)|) && Msg.Abort !in msgs
    ensures Holds(chunks, written[file := Payload(msgs)])
    ensures size == |Payload(msgs)| && sum == digest(Payload(msgs))
  {
    var r, stream := Ingest(file, msgs, digest);
    chunks := CopyIn(chunks0, stream, file, Payload(msgs));
    HoldsMore(chunks0, written, file, Payload(msgs));
    size, sum := r.value.size, r.value.sum;
  }

  // Any range of a stored object, read back in any arrival order.
  method ReadBack(
    m: Meta, start: int, end: int, chunks: Table, arrive: (Table, Piece) -> seq<Event>,
    ghost written: map<nat, seq<Byte>>)
    returns (got: seq<Byte>)
    requires Stored(m, written) && 0 <= start <= end < m.size && Holds(chunks, written)
    requires forall p: Piece :: Finds(chunks, p, arrive(chunks, p))
    ensures |Bytes(m, written)| == m.size && got == Bytes(m, written)[start..end + 1]
  {
    var ps := PlanOf(m, start, end);
    var answers := seq(|ps|, i requires 0 <= i < |ps| => arrive(chunks, ps[i]));
    PlanReads(m, written, start, end);
    CoversPlaced(ps, written, start, end, start);
    forall i | 0 <= i < |ps| ensures FetchedAt(ps, i, answers, written) && WholeAt(ps, i, answers) {
      assert PlacedAt(ps, i, written, start, end) && Finds(chunks, ps[i], answers[i]);
      FoundIsWhole(chunks, written, ps[i], answers[i]);
    }
    var sent, ok := StreamSpan(m, start, end, answers, None, written);
    got := Flatten(sent);
  }

  lemma FoundIsWhole(chunks: Table, written: map<nat, seq<Byte>>, p: Piece, events: seq<Event>)
    requires Holds(chunks, written) && Finds(chunks, p, events)
    requires p.file in written && 0 <= p.lo <= p.hi < RowCount(|written[p.file]|)
    ensures Answers(p, events, written[p.file]) && Whole(p, events)
  {
    forall i | 0 <= i < |events| && events[i].Row?
      ensures 0 <= events[i].no < RowCount(|written[p.file]|)
           && events[i].data == RowAt(written[p.file], events[i].no)
    {
      assert RowId(p.file, events[i].no) in chunks;
    }
    forall no | p.lo <= no <= p.hi ensures no in Nos(events) {
      assert RowId(p.file, no) in chunks;
    }
  }

  // PUT then GET: any bytes, any cut, any range, any arrival order.
  method PutThenGet(
    file: nat, msgs: seq<Msg>, digest: seq<Byte> -> seq<Byte>, start: int, end: int,
    arrive: (Table, Piece) -> seq<Event>)
    returns (m: Meta, got: seq<Byte>)
    requires Storable(file, 0, |Payload(msgs)|) && Msg.Abort !in msgs
    requires forall chunks: Table, p: Piece :: Finds(chunks, p, arrive(chunks, p))
    requires 0 <= start <= end < |Payload(msgs)|
    ensures m.size == |Payload(msgs)| && m.etag == digest(Payload(msgs))
    ensures got == Payload(msgs)[start..end + 1]
  {
    var chunks, size, sum := WriteFile(map[], file, msgs, digest, map[]);
    ghost var written: map<nat, seq<Byte>> := map[file := Payload(msgs)];
    m := Meta(file, size, sum, None, None);
    assert Segments(m) == [Segment(file, 0, size)];
    assert Content(Segments(m)[..0], written) == [];
    assert Bytes(m, written) == Payload(msgs);
    got := ReadBack(m, start, end, chunks, arrive, written);
  }

  // ---- multipart ----

  function Payloads(parts: seq<seq<Msg>>): seq<seq<Byte>> {
    seq(|parts|, i requires 0 <= i < |parts| => Payload(parts[i]))
  }

  // The part's row is recorded with its file, size and digest.
  ghost predicate Recorded(r: Completion.PartRow, no: int, file: nat, data: seq<Byte>, digest: seq<Byte> -> seq<Byte>) {
    r == Completion.PartRow(no, file, |data|, digest(data))
  }

  method WriteParts(files: seq<nat>, nos: seq<int>, parts: seq<seq<Msg>>, digest: seq<Byte> -> seq<Byte>)
    returns (chunks: Table, rows: seq<Completion.PartRow>, ghost written: map<nat, seq<Byte>>)
    requires |files| == |nos| == |parts| && forall i, j | 0 <= i < j < |files| :: files[i] != files[j]
    requires forall i | 0 <= i < |parts| :: Storable(files[i], 0, |Payload(parts[i])|) && Msg.Abort !in parts[i]
    ensures Holds(chunks, written) && |rows| == |parts|
    ensures forall i | 0 <= i < |parts| ::
      files[i] in written && written[files[i]] == Payload(parts[i])
      && Recorded(rows[i], nos[i], files[i], Payload(parts[i]), digest)
  {
    chunks, rows, written := map[], [], map[];
    for n := 0 to |parts|
      invariant Holds(chunks, written) && |rows| == n
      invariant forall f <- written :: exists i :: 0 <= i < n && files[i] == f
      invariant forall i | 0 <= i < n ::
        files[i] in written && written[files[i]] == Payload(parts[i])
        && Recorded(rows[i], nos[i], files[i], Payload(parts[i]), digest)
    {
      var size, sum;
      chunks, size, sum := WriteFile(chunks, files[n], parts[n], digest, written);
      written := written[files[n] := Payload(parts[n])];
      rows := rows + [Completion.PartRow(nos[n], files[n], size, sum)];
    }
  }

  // Multipart upload, Complete, GET: any parts, empty ones included, each cut
  // any way; any listing order, any range, any arrival order.
  method UploadThenGet(
    files: seq<nat>, nos: seq<int>, parts: seq<seq<Msg>>, listed: seq<Completion.Listed>,
    digest: seq<Byte> -> seq<Byte>, start: int, end: int, arrive: (Table, Piece) -> seq<Event>)
    returns (got: Option<seq<Byte>>)
    requires |files| == |nos| == |parts| && forall i, j | 0 <= i < j < |files| :: files[i] != files[j]
    requires forall i, j | 0 <= i < j < |nos| :: nos[i] < nos[j]
    requires forall i | 0 <= i < |parts| :: Storable(files[i], 0, |Payload(parts[i])|) && Msg.Abort !in parts[i]
    requires forall chunks: Table, p: Piece :: Finds(chunks, p, arrive(chunks, p))
    requires 0 <= start <= end < |Flatten(Payloads(parts))|
    requires multiset(listed) == multiset(Tags(nos, Payloads(parts), digest))
    ensures got == Some(Flatten(Payloads(parts))[start..end + 1])
  {
    var chunks, rows;
    ghost var written;
    chunks, rows, written := WriteParts(files, nos, parts, digest);
    assert parts != [];
    assert Completion.AllListed(rows) == Tags(nos, Payloads(parts), digest);
    assert |multiset(listed)| == |listed|;
    var m := Completion.ValidateParts(listed, rows, digest);
    Completion.PublishedTiles(rows, m.value.etag, written);
    ContentIsParts(Segments(m.value), written, Payloads(parts));
    TiledContent(Segments(m.value), written, m.value.size);
    var bytes := ReadBack(m.value, start, end, chunks, arrive, written);
    got := Some(bytes);
  }

  // What the client lists: each part's number and digest.
  function Tags(nos: seq<int>, datas: seq<seq<Byte>>, digest: seq<Byte> -> seq<Byte>): seq<Completion.Listed>
    requires |nos| == |datas|
  {
    seq(|nos|, i requires 0 <= i < |nos| => Completion.Listed(nos[i], Completion.Hex(digest(datas[i]))))
  }
}
