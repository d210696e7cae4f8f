// The write path's framing: arbitrarily cut request chunks become numbered
// 8120-byte rows inside one binary COPY stream (ingest.rs, and the message
// loop of ingest_writer in db.rs).
module Framing {
  import opened Base
  import opened CopyFormat

  // Framed bytes are handed over once there are this many.
  const SEND_BATCH: nat := 4 * 1024 * 1024

  // The tuples of `data` as rows first, first + 1, ... of `file`.
  function Tuples(file: nat, first: nat, data: seq<Byte>): (ts: seq<Tuple>) {
    seq(RowCount(|data|), i requires 0 <= i < RowCount(|data|) => Tuple(file, first + i, RowAt(data, i)))
  }

  ghost predicate Storable(file: nat, first: nat, len: nat) {
    InWidth(8, file) && first * ROW_BYTES + len <= MAX_FILE
  }

  lemma TuplesFit(file: nat, first: nat, data: seq<Byte>)
    requires Storable(file, first, |data|)
    ensures forall t <- Tuples(file, first, data) :: Fits(t)
  {
    Widths();
  }

  lemma TuplesAppend(file: nat, first: nat, x: seq<Byte>, y: seq<Byte>, n: nat)
    requires |x| == n * ROW_BYTES
    ensures Tuples(file, first, x + y) == Tuples(file, first, x) + Tuples(file, first + n, y)
  {
    CountAppend(n, |y|);
    forall i | 0 <= i < n + RowCount(|y|)
      ensures RowAt(x + y, i) == if i < n then RowAt(x, i) else RowAt(y, i - n)
    {
      if i < n {
        RowOfFront(x, y, i, n);
      } else {
        RowOfBack(x, y, i - n, n);
      }
    }
  }

  lemma CountAppend(n: nat, len: nat)
    ensures RowCount(n * ROW_BYTES) == n && RowCount(n * ROW_BYTES + len) == n + RowCount(len)
  {
  }

  lemma RowOfFront(x: seq<Byte>, y: seq<Byte>, i: nat, n: nat)
    requires i < n && |x| == n * ROW_BYTES
    ensures i < RowCount(|x|) && i < RowCount(|x + y|) && RowAt(x + y, i) == RowAt(x, i)
  {
    CountAppend(n, |y|);
    var a, b := i * ROW_BYTES, (i + 1) * ROW_BYTES;
    assert b <= |x|;
    assert (x + y)[a..b] == x[a..b];
  }

  lemma RowOfBack(x: seq<Byte>, y: seq<Byte>, i: nat, n: nat)
    requires |x| == n * ROW_BYTES && i < RowCount(|y|)
    ensures n + i < RowCount(|x + y|) && RowAt(x + y, n + i) == RowAt(y, i)
  {
    CountAppend(n, |y|);
    var a, b := i * ROW_BYTES, Min((i + 1) * ROW_BYTES, |y|);
    assert (n + i) * ROW_BYTES == |x| + a && Min((n + i + 1) * ROW_BYTES, |x + y|) == |x| + b;
    assert (x + y)[|x| + a..|x| + b] == y[a..b];
  }

  // Frames whole of `data` behind `out`; the last row may be short.
  method FrameRows(file: nat, first: nat, data: seq<Byte>, out: seq<Byte>) returns (grown: seq<Byte>)
    ensures grown == out + Encode(Tuples(file, first, data))
  {
    ghost var ts := Tuples(file, first, data);
    grown := out;
    var nrows := RowCount(|data|);
    assert out == out + Encode(ts[..0]);
    for i := 0 to nrows
      invariant grown == out + Encode(ts[..i])
    {
      var start, end := i * ROW_BYTES, Min((i + 1) * ROW_BYTES, |data|);
      FrameOne(ts, i, out, grown);
      grown := grown + Unsigned(2, 3);
      grown := grown + Unsigned(4, 8);
      grown := grown + Unsigned(8, file);
      grown := grown + Unsigned(4, 4);
      grown := grown + Unsigned(4, first + i);
      grown := grown + Unsigned(4, end - start);
      grown := grown + data[start..end];
    }
    assert ts[..nrows] == ts;
  }

  lemma FrameOne(ts: seq<Tuple>, i: nat, out: seq<Byte>, grown: seq<Byte>)
    requires i < |ts| && grown == out + Encode(ts[..i])
    ensures out + Encode(ts[..i + 1])
         == grown + Unsigned(2, 3) + Unsigned(4, 8) + Unsigned(8, ts[i].file) + Unsigned(4, 4)
            + Unsigned(4, ts[i].no) + Unsigned(4, |ts[i].data|) + ts[i].data
  {
    assert ts[..i + 1] == ts[..i] + [ts[i]];
    EncodeSnoc(ts[..i], ts[i]);
    assert out + (Encode(ts[..i]) + EncodeTuple(ts[i])) == grown + EncodeTuple(ts[i]);
    Regroup(grown, Unsigned(2, 3), Unsigned(4, 8), Unsigned(8, ts[i].file), Unsigned(4, 4),
      Unsigned(4, ts[i].no), Unsigned(4, |ts[i].data|), ts[i].data);
  }

  lemma EncodeSnoc(ts: seq<Tuple>, t: Tuple)
    ensures Encode(ts + [t]) == Encode(ts) + EncodeTuple(t)
  {
    FlatMapAppend(EncodeTuple, ts, [t]);
    assert Encode([t]) == EncodeTuple(t) + Encode([t][1..]);
  }

  lemma Regroup(
    g: seq<Byte>, a: seq<Byte>, b: seq<Byte>, c: seq<Byte>, d: seq<Byte>, e: seq<Byte>, f: seq<Byte>, h: seq<Byte>)
    ensures g + (a + b + c + d + e + f + h) == g + a + b + c + d + e + f + h
  {
  }

  // `fed` bytes in, of which the first `no` rows are in `stream` and the rest pending.
  ghost predicate Framed(file: nat, fed: seq<Byte>, no: nat, pending: seq<Byte>, stream: seq<Byte>) {
    && no * ROW_BYTES <= |fed|
    && pending == fed[no * ROW_BYTES..]
    && stream == Encode(Tuples(file, 0, fed[..no * ROW_BYTES]))
  }

  // Framing the next `len` pending bytes behind what was flushed and framed.
  lemma FramedMore(
    file: nat, fed: seq<Byte>, no: nat, pending: seq<Byte>, len: nat,
    flushed: seq<Byte>, was: seq<Byte>, now: seq<Byte>)
    requires Framed(file, fed, no, pending, flushed + was) && len <= |pending|
    requires now == was + Encode(Tuples(file, no, pending[..len]))
    ensures flushed + now == Encode(Tuples(file, 0, fed[..no * ROW_BYTES + len]))
  {
    var done, more := fed[..no * ROW_BYTES], pending[..len];
    var all := fed[..no * ROW_BYTES + len];
    assert all == done + more;
    TuplesAppend(file, 0, done, more, no);
    EncodeBehind(Tuples(file, 0, done), Tuples(file, no, more), flushed, was);
  }

  lemma EncodeBehind(ts: seq<Tuple>, us: seq<Tuple>, flushed: seq<Byte>, was: seq<Byte>)
    requires flushed + was == Encode(ts)
    ensures flushed + (was + Encode(us)) == Encode(ts + us)
  {
    FlatMapAppend(EncodeTuple, ts, us);
    assert flushed + (was + Encode(us)) == flushed + was + Encode(us);
  }

  // Framing the whole rows that are pending.
  lemma FramedWhole(
    file: nat, fed: seq<Byte>, no: nat, pending: seq<Byte>, whole: nat,
    flushed: seq<Byte>, was: seq<Byte>, now: seq<Byte>)
    requires Framed(file, fed, no, pending, flushed + was) && whole == |pending| - |pending| % ROW_BYTES
    requires now == was + Encode(Tuples(file, no, pending[..whole]))
    ensures Framed(file, fed, no + whole / ROW_BYTES, pending[whole..], flushed + now)
    ensures |pending[whole..]| < ROW_BYTES
  {
    FramedMore(file, fed, no, pending, whole, flushed, was, now);
    assert (no + whole / ROW_BYTES) * ROW_BYTES == no * ROW_BYTES + whole;
  }

  // New bytes only wait.
  lemma FramedWaits(file: nat, fed: seq<Byte>, no: nat, pending: seq<Byte>, stream: seq<Byte>, chunk: seq<Byte>)
    requires Framed(file, fed, no, pending, stream)
    ensures Framed(file, fed + chunk, no, pending + chunk, stream)
  {
    assert (fed + chunk)[..no * ROW_BYTES] == fed[..no * ROW_BYTES];
  }

  // Accumulates request bytes into COPY rows, hashing them as they pass.
  class RowFramer {
    const file: nat
    var hashed: seq<Byte>   // the hasher's input so far
    var pending: seq<Byte>  // bytes not yet framed
    var frame: seq<Byte>    // framed, not yet flushed
    var nextNo: nat
    var total: int
    ghost var fed: seq<Byte>      // everything pushed
    ghost var flushed: seq<Byte>  // everything returned

    ghost predicate Valid() reads this { Filled() && |pending| < ROW_BYTES }

    // Valid but for whole rows that are pending.
    ghost predicate Filled() reads this {
      && hashed == fed && total == |fed|
      && |frame| < SEND_BATCH
      && Framed(file, fed, nextNo, pending, flushed + frame)
    }

    constructor (file: nat)
      ensures Valid() && this.file == file && fed == [] && flushed == []
    {
      this.file := file;
      hashed, pending, frame, nextNo, total := [], [], [], 0, 0;
      fed, flushed := [], [];
    }

    method Push(chunk: seq<Byte>) returns (out: Option<seq<Byte>>)
      requires Valid()
      modifies this
      ensures Valid() && fed == old(fed) + chunk
      ensures flushed == old(flushed) + (if out.Some? then out.value else [])
      ensures out.Some? ==> |out.value| >= SEND_BATCH
    {
      hashed := hashed + chunk;
      total := total + |chunk|;
      FramedWaits(file, fed, nextNo, pending, flushed + frame, chunk);
      pending := pending + chunk;
      fed := fed + chunk;
      out := FrameWhole();
    }

    // Frames the whole rows that are pending.
    method FrameWhole() returns (out: Option<seq<Byte>>)
      requires Filled()
      modifies this`pending, this`frame, this`nextNo, this`flushed
      ensures Valid()
      ensures flushed == old(flushed) + (if out.Some? then out.value else [])
      ensures out.Some? ==> |out.value| >= SEND_BATCH
    {
      var whole := |pending| - |pending| % ROW_BYTES;
      if whole == 0 {
        return None;
      }
      ghost var was := frame;
      frame := FrameRows(file, nextNo, pending[..whole], frame);
      FramedWhole(file, fed, nextNo, pending, whole, flushed, was, frame);
      nextNo := nextNo + whole / ROW_BYTES;
      pending := pending[whole..];
      out := FlushIfFull();
    }

    // Hands the frame over once it is worth a round trip.
    method FlushIfFull() returns (out: Option<seq<Byte>>)
      modifies this`frame, this`flushed
      ensures flushed + frame == old(flushed + frame) && |frame| < SEND_BATCH
      ensures flushed == old(flushed) + (if out.Some? then out.value else [])
      ensures out.Some? ==> |out.value| >= SEND_BATCH
    {
      out := None;
      if |frame| >= SEND_BATCH {
        out := Some(frame);
        flushed := flushed + frame;
        frame := [];
      }
    }

    // The last buffer, the size and the digest of everything streamed.
    method Finish(digest: seq<Byte> -> seq<Byte>) returns (out: seq<Byte>, size: int, sum: seq<Byte>)
      requires Valid()
      modifies this
      ensures size == |old(fed)| && sum == digest(old(fed))
      ensures old(flushed) + out == Encode(Tuples(file, 0, old(fed))) + COPY_TRAILER
    {
      ghost var was := frame;
      assert fed[..nextNo * ROW_BYTES + |pending|] == fed;
      if pending != [] {
        frame := FrameRows(file, nextNo, pending, frame);
        assert pending[..|pending|] == pending;
        FramedMore(file, fed, nextNo, pending, |pending|, flushed, was, frame);
      }
      assert flushed + (frame + COPY_TRAILER) == flushed + frame + COPY_TRAILER;
      out := frame + COPY_TRAILER;
      frame := [];
      size, sum := total, digest(hashed);
    }
  }

  datatype Msg = Data(bytes: seq<Byte>) | Abort

  // The bytes a writer was given.
  function Payload(msgs: seq<Msg>): seq<Byte> {
    if msgs == [] then [] else
    Payload(msgs[..|msgs| - 1]) + match msgs[|msgs| - 1] { case Data(b) => b case Abort => [] }
  }

  datatype Ingested = Ingested(size: int, sum: seq<Byte>)

  lemma PayloadSnoc(msgs: seq<Msg>, i: nat)
    requires i < |msgs|
    ensures Payload(msgs[..i + 1]) == Payload(msgs[..i]) + match msgs[i] { case Data(b) => b case Abort => [] }
  {
    assert msgs[..i + 1][..i] == msgs[..i];
  }

  // Frames messages until an abort; `sent` is what goes to the COPY.
  method Receive(framer: RowFramer, msgs: seq<Msg>) returns (sent: seq<Byte>, aborted: bool)
    requires framer.Valid() && framer.fed == [] && framer.flushed == []
    modifies framer
    ensures framer.Valid() && sent == framer.flushed
    ensures aborted <==> exists i | 0 <= i < |msgs| :: msgs[i] == Abort
    ensures !aborted ==> framer.fed == Payload(msgs)
  {
    sent := [];
    for i := 0 to |msgs|
      invariant framer.Valid() && sent == framer.flushed
      invariant framer.fed == Payload(msgs[..i])
      invariant forall j | 0 <= j < i :: msgs[j] != Abort
    {
      PayloadSnoc(msgs, i);
      match msgs[i]
      case Data(b) =>
        var buf := framer.Push(b);
        if buf.Some? {
          sent := sent + buf.value;
        }
      case Abort =>
        return sent, true;
    }
    assert msgs[..|msgs|] == msgs;
    aborted := false;
  }

  // One ingest: everything received is framed into `stream`, which the server
  // parses back into the rows of the payload, however the payload was cut. An
  // abort ends the ingest without a result; its transaction rolls back.
  method Ingest(file: nat, msgs: seq<Msg>, digest: seq<Byte> -> seq<Byte>)
    returns (r: Option<Ingested>, stream: seq<Byte>)
    requires Storable(file, 0, |Payload(msgs)|)
    ensures r.None? <==> exists i | 0 <= i < |msgs| :: msgs[i] == Abort
    ensures r.Some? ==> r.value == Ingested(|Payload(msgs)|, digest(Payload(msgs)))
    ensures r.Some? ==> Parse(stream) == Some(Tuples(file, 0, Payload(msgs)))
  {
    var framer := new RowFramer(file);
    var sent, aborted := Receive(framer, msgs);
    if aborted {
      return None, COPY_HEADER + sent;
    }
    var last, total, sum := framer.Finish(digest);
    StreamParses(file, Payload(msgs), sent, last);
    stream := COPY_HEADER + (sent + last);
    r := Some(Ingested(total, sum));
  }

  lemma StreamParses(file: nat, data: seq<Byte>, flushed: seq<Byte>, last: seq<Byte>)
    requires Storable(file, 0, |data|)
    requires flushed + last == Encode(Tuples(file, 0, data)) + COPY_TRAILER
    ensures Parse(COPY_HEADER + (flushed + last)) == Some(Tuples(file, 0, data))
  {
    var ts := Tuples(file, 0, data);
    TuplesFit(file, 0, data);
    ParseReadsEncode(ts);
    assert COPY_HEADER + (flushed + last) == COPY_HEADER + Encode(ts) + COPY_TRAILER;
  }

  // What a finished COPY leaves in the table: rows 0, 1, ... of the file, all
  // full but the last, which rebuild the payload.
  lemma CopiedRows(file: nat, data: seq<Byte>)
    ensures var ts := Tuples(file, 0, data);
      && |ts| == RowCount(|data|)
      && (forall i | 0 <= i < |ts| :: ts[i].file == file && ts[i].no == i && 0 < |ts[i].data| <= ROW_BYTES)
      && (forall i | 0 <= i < |ts| - 1 :: |ts[i].data| == ROW_BYTES)
      && Flatten(seq(|ts|, i requires 0 <= i < |ts| => ts[i].data)) == data
  {
    var ts := Tuples(file, 0, data);
    RowsRebuild(data);
    assert seq(|ts|, i requires 0 <= i < |ts| => ts[i].data) == RowsOf(data);
  }
}
