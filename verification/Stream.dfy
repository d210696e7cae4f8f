// The cut-through read: rows of a span arrive out of order, piece by piece,
// and leave in order (stream_span and row_slice in db.rs).
module Streaming {
  import opened Base
  import opened Objects

  // How many pieces of one span are fetched at a time, and the fill at which
  // merged bytes are passed on.
  const PARTS_INFLIGHT: nat := 8
  const CHUNK: nat := 256 * 1024

  // What a piece's query yields: a row, or the failure that ends it.
  datatype Event = Row(no: int, data: seq<Byte>) | Fault

  // The part of row `no` of a segment at `base` inside object bytes [start, end].
  function RowSlice(base: int, no: int, data: seq<Byte>, start: int, end: int): Option<seq<Byte>> {
    var rowStart := base + no * ROW_BYTES;
    var lo := Max(start, rowStart) - rowStart;
    var hi := Min(end, rowStart + |data| - 1) - rowStart;
    if hi >= lo then Some(data[lo..hi + 1]) else None
  }

  // Numbers of the rows among the first `k` events.
  function NosTo(events: seq<Event>, k: nat): set<int>
    requires k <= |events|
  {
    if k == 0 then {} else
    NosTo(events, k - 1) + if events[k - 1].Row? then {events[k - 1].no} else {}
  }

  function Nos(events: seq<Event>): set<int> { NosTo(events, |events|) }

  // Rows the piece asked for, no row twice, each as it was written.
  ghost predicate Answers(p: Piece, events: seq<Event>, file: seq<Byte>) {
    && Distinct(p, events)
    && forall i | 0 <= i < |events| && events[i].Row? ::
         0 <= events[i].no < RowCount(|file|) && events[i].data == RowAt(file, events[i].no)
  }

  ghost predicate Distinct(p: Piece, events: seq<Event>) {
    && (forall i | 0 <= i < |events| && events[i].Row? :: p.lo <= events[i].no <= p.hi)
    && (forall i, j | 0 <= i < j < |events| && events[i].Row? && events[j].Row? :: events[i].no != events[j].no)
  }

  // The query ran to its end and found every row.
  ghost predicate Whole(p: Piece, events: seq<Event>) {
    Fault !in events && forall no | p.lo <= no <= p.hi :: no in Nos(events)
  }

  // The next byte to deliver before row `no` of a segment.
  function At(base: int, len: int, no: int, start: int, end: int): int {
    Max(start, Min(end + 1, base + Min(no * ROW_BYTES, len)))
  }

  // The piece's rows exist in a file of `len` bytes, and each meets the range.
  ghost predicate Placed(p: Piece, len: int, start: int, end: int) {
    && 0 <= start <= end && 0 <= p.base && 0 <= len
    && 0 <= p.lo <= p.hi < RowCount(len)
    && p.base + p.hi * ROW_BYTES <= end && start < p.base + Min((p.lo + 1) * ROW_BYTES, len)
  }

  // Read in order, the pieces deliver bytes `pos` to `end` of the object.
  ghost predicate Covers(ps: seq<Piece>, written: map<nat, seq<Byte>>, start: int, end: int, pos: int) {
    if ps == [] then pos == end + 1 else
    var p := ps[0];
    && p.file in written
    && Placed(p, |written[p.file]|, start, end)
    && pos == At(p.base, |written[p.file]|, p.lo, start, end)
    && Covers(ps[1..], written, start, end, At(p.base, |written[p.file]|, p.hi + 1, start, end))
  }

  // The files of all pieces lie in the object.
  ghost predicate AllLie(ps: seq<Piece>, written: map<nat, seq<Byte>>, v: seq<Byte>) {
    forall i | 0 <= i < |ps| :: LiesAt(ps, i, written, v)
  }

  ghost predicate LiesAt(ps: seq<Piece>, i: nat, written: map<nat, seq<Byte>>, v: seq<Byte>)
    requires i < |ps|
  {
    ps[i].file in written && Lies(ps[i].base, written[ps[i].file], v)
  }

  // Segment j lies in the object `v` where its base says, and its successor follows.
  ghost predicate Laid(segs: seq<Segment>, j: nat, written: map<nat, seq<Byte>>, v: seq<Byte>)
    requires j < |segs|
  {
    var seg := segs[j];
    && seg.file in written && seg.len == |written[seg.file]| && Numbered(seg)
    && seg.base + seg.len == BaseOf(segs, j + 1, v)
    && Lies(seg.base, written[seg.file], v)
  }

  ghost function BaseOf(segs: seq<Segment>, j: nat, v: seq<Byte>): int
    requires j <= |segs|
  {
    if j == |segs| then |v| else segs[j].base
  }

  // The pieces of rows first..last, and the rest of a plan behind them.
  function PiecesThen(seg: Segment, first: int, last: int, rest: seq<Piece>): seq<Piece>
    decreases last - first
  {
    if last - first < PART_ROWS then [Piece(seg.file, seg.base, first, last)] + rest
    else [Piece(seg.file, seg.base, first, first + PART_ROWS - 1)] + PiecesThen(seg, first + PART_ROWS, last, rest)
  }

  lemma {:induction false} PiecesAre(seg: Segment, first: int, last: int, rest: seq<Piece>)
    requires first <= last <= I32_MAX
    ensures ToPieces(seg, PartRanges(first, last, PART_ROWS)) + rest == PiecesThen(seg, first, last, rest)
    decreases last - first
  {
    var next := first + PART_ROWS;
    var tail := PartRanges(next, last, PART_ROWS);
    if last < next {
      assert PartRanges(first, last, PART_ROWS) == [(first, last)] + tail && tail == [];
      ToPiecesHead(seg, (first, last), tail, rest);
    } else {
      assert PartRanges(first, last, PART_ROWS) == [(first, next - 1)] + tail;
      ToPiecesHead(seg, (first, next - 1), tail, rest);
      PiecesAre(seg, next, last, rest);
    }
  }

  lemma ToPiecesHead(seg: Segment, r: (int, int), tail: seq<(int, int)>, rest: seq<Piece>)
    ensures ToPieces(seg, [r] + tail) + rest == [Piece(seg.file, seg.base, r.0, r.1)] + (ToPieces(seg, tail) + rest)
    ensures ToPieces(seg, []) + rest == rest
  {
    assert ToPieces(seg, [r] + tail) == [Piece(seg.file, seg.base, r.0, r.1)] + ToPieces(seg, tail);
  }

  lemma {:induction false} RangesCover(
    seg: Segment, first: int, last: int, rest: seq<Piece>, ps: seq<Piece>,
    written: map<nat, seq<Byte>>, len: int, start: int, end: int)
    requires seg.file in written && len == |written[seg.file]| && ps == PiecesThen(seg, first, last, rest)
    requires Placed(Piece(seg.file, seg.base, first, last), len, start, end)
    requires Covers(rest, written, start, end, At(seg.base, len, last + 1, start, end))
    ensures Covers(ps, written, start, end, At(seg.base, len, first, start, end))
    decreases last - first
  {
    if last - first < PART_ROWS {
      CoversCons(seg, first, last, last, rest, ps, written, len, start, end);
    } else {
      var next := first + PART_ROWS;
      var tail := PiecesThen(seg, next, last, rest);
      StillPlaced(seg, first, next, last, last, len, start, end);
      RangesCover(seg, next, last, rest, tail, written, len, start, end);
      CoversCons(seg, first, next - 1, last, tail, ps, written, len, start, end);
    }
  }

  lemma CoversCons(
    seg: Segment, first: int, hi: int, last: int, tail: seq<Piece>, ps: seq<Piece>,
    written: map<nat, seq<Byte>>, len: int, start: int, end: int)
    requires seg.file in written && len == |written[seg.file]| && first <= hi <= last
    requires Placed(Piece(seg.file, seg.base, first, last), len, start, end)
    requires Covers(tail, written, start, end, At(seg.base, len, hi + 1, start, end))
    requires ps == [Piece(seg.file, seg.base, first, hi)] + tail
    ensures Covers(ps, written, start, end, At(seg.base, len, first, start, end))
  {
    StillPlaced(seg, first, first, hi, last, len, start, end);
    assert ps[1..] == tail;
  }

  // A later or shorter run of the same rows.
  lemma StillPlaced(seg: Segment, first: int, lo: int, hi: int, last: int,
    len: int, start: int, end: int)
    requires Placed(Piece(seg.file, seg.base, first, last), len, start, end)
    requires first <= lo <= hi <= last
    ensures Placed(Piece(seg.file, seg.base, lo, hi), len, start, end)
  {
  }

  lemma {:induction false} PlanCovers(
    segs: seq<Segment>, i: nat, written: map<nat, seq<Byte>>, v: seq<Byte>, start: int, end: int)
    requires i <= |segs| && 0 <= start <= end < |v|
    requires forall j | 0 <= j < |segs| :: Laid(segs, j, written, v)
    ensures Covers(Plan(segs[i..], start, end, PART_ROWS), written, start, end,
      Max(start, Min(end + 1, BaseOf(segs, i, v))))
    ensures AllLie(Plan(segs[i..], start, end, PART_ROWS), written, v)
    decreases |segs| - i
  {
    if i < |segs| {
      PlanCovers(segs, i + 1, written, v, start, end);
      assert Laid(segs, i, written, v);
      assert segs[i..][1..] == segs[i + 1..];
      var rest := Plan(segs[i + 1..], start, end, PART_ROWS);
      SegmentCovers(segs[i], rest, written, start, end);
      var ps := Plan(segs[i..], start, end, PART_ROWS);
      forall k | 0 <= k < |ps| ensures LiesAt(ps, k, written, v) {
        var n := |ps| - |rest|;
        if k >= n {
          assert LiesAt(rest, k - n, written, v) && ps[k] == rest[k - n];
        }
      }
    }
  }

  lemma SegmentCovers(
    seg: Segment, rest: seq<Piece>, written: map<nat, seq<Byte>>, start: int, end: int)
    requires seg.file in written && seg.len == |written[seg.file]| && Numbered(seg)
    requires 0 <= start <= end
    requires Covers(rest, written, start, end, Max(start, Min(end + 1, seg.base + seg.len)))
    ensures Covers(PiecesOf(seg, start, end, PART_ROWS) + rest, written, start, end,
      Max(start, Min(end + 1, seg.base)))
  {
    if seg.len <= 0 || seg.base + seg.len - 1 < start || seg.base > end {
      assert [] + rest == rest;
    } else {
      var first, last := FirstRow(seg, start), LastRow(seg, end);
      RowsReached(seg, start, end);
      PiecesAre(seg, first, last, rest);
      RangesCover(seg, first, last, rest, PiecesThen(seg, first, last, rest), written, seg.len, start, end);
    }
  }

  // The rows a range reaches in a segment it meets.
  lemma RowsReached(seg: Segment, start: int, end: int)
    requires Numbered(seg) && seg.len > 0 && 0 <= start <= end
    requires start < seg.base + seg.len && seg.base <= end
    ensures var first, last := FirstRow(seg, start), LastRow(seg, end);
      && 0 <= first <= last < RowCount(seg.len) && last <= I32_MAX
      && seg.base + last * ROW_BYTES <= end && start < seg.base + Min((first + 1) * ROW_BYTES, seg.len)
      && At(seg.base, seg.len, first, start, end) == Max(start, Min(end + 1, seg.base))
      && At(seg.base, seg.len, last + 1, start, end) == Max(start, Min(end + 1, seg.base + seg.len))
  {
  }

  // A row's slice is the object's bytes from where its predecessor stopped.
  lemma RowDelivers(p: Piece, file: seq<Byte>, v: seq<Byte>, start: int, end: int, no: int)
    requires Placed(p, |file|, start, end) && Lies(p.base, file, v) && end < |v| && p.lo <= no <= p.hi
    ensures 0 <= start <= At(p.base, |file|, no, start, end) <= At(p.base, |file|, no + 1, start, end) <= |v|
    ensures OrEmpty(RowSlice(p.base, no, RowAt(file, no), start, end))
         == v[At(p.base, |file|, no, start, end)..At(p.base, |file|, no + 1, start, end)]
  {
    var a, b := no * ROW_BYTES, Min((no + 1) * ROW_BYTES, |file|);
    assert RowAt(file, no) == file[a..b];
    RowReaches(p.base, |file|, no, start, end);
    CutDelivers(p.base, file, v, no, a, b, start, end,
      At(p.base, |file|, no, start, end), At(p.base, |file|, no + 1, start, end));
  }

  // Where bytes x..y of the object, cut to the range, begin and stop.
  function CutFrom(x: int, start: int, end: int): int { Max(start, Min(end + 1, x)) }

  lemma RowReaches(base: nat, len: nat, no: nat, start: int, end: int)
    requires no < RowCount(len)
    ensures var a, b := no * ROW_BYTES, Min((no + 1) * ROW_BYTES, len);
      && 0 <= a < b <= len
      && At(base, len, no, start, end) == CutFrom(base + a, start, end)
      && At(base, len, no + 1, start, end) == CutFrom(base + b, start, end)
  {
  }

  lemma CutReaches(x: int, y: int, start: int, end: int)
    requires x < y && start <= end
    ensures var from, to := CutFrom(x, start, end), CutFrom(y, start, end);
      var lo, hi := Max(start, x), Min(end, y - 1);
      && start <= from <= to <= end + 1
      && if lo <= hi then from == lo && to == hi + 1 else from == to
  {
  }

  // Bytes a..b of the file, cut to the range.
  lemma CutDelivers(
    base: nat, file: seq<Byte>, v: seq<Byte>, no: int, a: nat, b: nat, start: nat, end: nat, from: int, to: int)
    requires a < b <= |file| && a == no * ROW_BYTES && Lies(base, file, v) && start <= end < |v|
    requires from == CutFrom(base + a, start, end) && to == CutFrom(base + b, start, end)
    ensures start <= from <= to <= |v| && OrEmpty(RowSlice(base, no, file[a..b], start, end)) == v[from..to]
  {
    var x, data := base + a, file[a..b];
    var lo, hi := Max(start, x) - x, Min(end, x + |data| - 1) - x;
    CutReaches(x, base + b, start, end);
    assert RowSlice(base, no, data, start, end) == if hi >= lo then Some(data[lo..hi + 1]) else None;
    if lo <= hi {
      SliceOfSlice(v, file, base, a, b, lo, hi + 1, from, to);
    }
  }

  lemma SliceOfSlice(
    v: seq<Byte>, file: seq<Byte>, base: nat, a: nat, b: nat, x: nat, y: nat, from: nat, to: nat)
    requires Lies(base, file, v) && a <= b <= |file| && x <= y <= b - a
    requires from == base + a + x && to == base + a + y
    ensures file[a..b][x..y] == v[from..to]
  {
    forall k | 0 <= k < y - x ensures file[a..b][x..y][k] == v[from..to][k] {
      assert file[a + x + k] == v[base..base + |file|][a + x + k];
    }
  }

  // What the rows lo..next - 1 contribute, in order.
  ghost function Contributed(slice: int -> seq<Byte>, lo: int, next: int): seq<Byte>
    decreases next - lo
  {
    if next <= lo then [] else Contributed(slice, lo, next - 1) + slice(next - 1)
  }

  // Row `no` contributes v from at(no) to at(no + 1).
  ghost predicate Steps(v: seq<Byte>, slice: int -> seq<Byte>, at: int -> int, no: int) {
    0 <= at(no) <= at(no + 1) <= |v| && slice(no) == v[at(no)..at(no + 1)]
  }

  lemma {:induction false} ContributedIs(v: seq<Byte>, slice: int -> seq<Byte>, at: int -> int, lo: int, next: int)
    requires lo <= next && 0 <= at(lo) <= |v|
    requires forall no | lo <= no < next :: Steps(v, slice, at, no)
    ensures at(lo) <= at(next) <= |v| && Contributed(slice, lo, next) == v[at(lo)..at(next)]
    decreases next - lo
  {
    if next > lo {
      ContributedIs(v, slice, at, lo, next - 1);
      assert Steps(v, slice, at, next - 1);
      Join(v, at(lo), at(next - 1), at(next));
    }
  }

  lemma Join(v: seq<Byte>, a: int, b: int, c: int)
    requires 0 <= a <= b <= c <= |v|
    ensures v[a..b] + v[b..c] == v[a..c]
  {
  }

  function OrEmpty(o: Option<seq<Byte>>): seq<Byte> { if o.Some? then o.value else [] }

  datatype Verdict = Drained | Failed | ClientGone

  // A client with patience takes so many chunks and goes away.
  predicate Accepts(patience: Option<nat>, sent: seq<seq<Byte>>) {
    patience.None? || |sent| < patience.value
  }

  predicate Left(patience: Option<nat>, sent: seq<seq<Byte>>) { patience == Some(|sent|) }

  // What has been sent before the end: full chunks, no more than were taken.
  ghost predicate Passed(patience: Option<nat>, sent: seq<seq<Byte>>) {
    (patience.Some? ==> |sent| <= patience.value) && forall i | 0 <= i < |sent| :: |sent[i]| >= CHUNK
  }

  // All of it: the last chunk is what was left.
  ghost predicate PassedOn(patience: Option<nat>, sent: seq<seq<Byte>>) {
    (patience.Some? ==> |sent| <= patience.value) && forall i | 0 <= i < |sent| - 1 :: |sent[i]| >= CHUNK
  }

  // What rows lo..next - 1 contribute is all that has been put out behind `before`.
  ghost predicate OutSoFar(
    sent: seq<seq<Byte>>, chunk: seq<Byte>, before: seq<Byte>, slice: int -> seq<Byte>, lo: int, next: int)
  {
    Flatten(sent) + chunk == before + Contributed(slice, lo, next)
  }

  // Each waiting row, once cut to the range, is its slice.
  ghost predicate CutAlike(early: map<int, seq<Byte>>, cut: (int, seq<Byte>) -> seq<Byte>, slice: int -> seq<Byte>) {
    forall no <- early :: cut(no, early[no]) == slice(no)
  }

  // Rows waiting in `early` that are next go to `chunk`.
  method TakeEarly(
    p: Piece, cut: (int, seq<Byte>) -> seq<Byte>, early0: map<int, seq<Byte>>, next0: int, chunk0: seq<Byte>,
    ghost got: set<int>, ghost sent: seq<seq<Byte>>, ghost before: seq<Byte>, ghost slice: int -> seq<Byte>)
    returns (early: map<int, seq<Byte>>, next: int, chunk: seq<Byte>)
    requires p.lo <= next0 <= p.hi + 1 && Arrived(p, got, next0, early0.Keys) && CutAlike(early0, cut, slice)
    requires OutSoFar(sent, chunk0, before, slice, p.lo, next0)
    ensures next0 <= next <= p.hi + 1 && Arrived(p, got, next, early.Keys) && next !in early
    ensures CutAlike(early, cut, slice) && OutSoFar(sent, chunk, before, slice, p.lo, next)
  {
    early, next, chunk := early0, next0, chunk0;
    while next in early
      invariant next0 <= next <= p.hi + 1 && Arrived(p, got, next, early.Keys)
      invariant CutAlike(early, cut, slice) && OutSoFar(sent, chunk, before, slice, p.lo, next)
      decreases p.hi - next
    {
      ArrivedNext(p, got, next, early.Keys);
      var row := early[next];
      early := early - {next};
      PutMore(Flatten(sent), chunk, before, Contributed(slice, p.lo, next), cut(next, row));
      chunk := chunk + cut(next, row);
      next := next + 1;
    }
  }

  // Hands a full chunk to the client, who may have gone away.
  method SendIfFull(sent0: seq<seq<Byte>>, chunk0: seq<Byte>, patience: Option<nat>)
    returns (sent: seq<seq<Byte>>, chunk: seq<Byte>, gone: bool)
    requires Passed(patience, sent0)
    ensures Flatten(sent) + chunk == Flatten(sent0) + chunk0
    ensures Passed(patience, sent)
    ensures gone ==> Left(patience, sent)
  {
    sent, chunk, gone := sent0, chunk0, false;
    if |chunk| >= CHUNK {
      if !Accepts(patience, sent) {
        gone := true;
        return;
      }
      FlattenSnoc(sent, chunk);
      sent, chunk := sent + [chunk], [];
      assert Flatten(sent) + chunk == Flatten(sent);
    }
  }

  // The next row and those that waited for it go to `chunk`, and a full one to the client.
  method PutNext(
    p: Piece, cut: (int, seq<Byte>) -> seq<Byte>, no: int, data: seq<Byte>, early0: map<int, seq<Byte>>,
    patience: Option<nat>, sent0: seq<seq<Byte>>, chunk0: seq<Byte>,
    ghost got: set<int>, ghost before: seq<Byte>, ghost slice: int -> seq<Byte>)
    returns (early: map<int, seq<Byte>>, next: int, sent: seq<seq<Byte>>, chunk: seq<Byte>, gone: bool)
    requires p.lo <= no <= p.hi && no !in early0 && Arrived(p, got, no, early0.Keys + {no})
    requires cut(no, data) == slice(no) && CutAlike(early0, cut, slice)
    requires OutSoFar(sent0, chunk0, before, slice, p.lo, no)
    requires Passed(patience, sent0)
    ensures no < next <= p.hi + 1 && Arrived(p, got, next, early.Keys) && next !in early
    ensures CutAlike(early, cut, slice) && OutSoFar(sent, chunk, before, slice, p.lo, next)
    ensures Passed(patience, sent)
    ensures gone ==> Left(patience, sent)
  {
    PutMore(Flatten(sent0), chunk0, before, Contributed(slice, p.lo, no), cut(no, data));
    ArrivedNext(p, got, no, early0.Keys + {no});
    assert early0.Keys + {no} - {no} == early0.Keys;
    early, next, chunk := TakeEarly(p, cut, early0, no + 1, chunk0 + cut(no, data), got, sent0, before, slice);
    sent, chunk, gone := SendIfFull(sent0, chunk, patience);
  }

  // Between two rows of a piece: `got` have come, those before `next` are out
  // and the others wait.
  ghost predicate Merging(
    p: Piece, cut: (int, seq<Byte>) -> seq<Byte>, slice: int -> seq<Byte>, before: seq<Byte>, patience: Option<nat>,
    got: set<int>, early: map<int, seq<Byte>>, next: int, sent: seq<seq<Byte>>, chunk: seq<Byte>)
  {
    && p.lo <= next <= p.hi + 1 && Arrived(p, got, next, early.Keys) && next !in early
    && CutAlike(early, cut, slice) && OutSoFar(sent, chunk, before, slice, p.lo, next)
    && Passed(patience, sent)
  }

  // One row: out if it is next, else into `early`.
  method MergeRow(
    p: Piece, cut: (int, seq<Byte>) -> seq<Byte>, no: int, data: seq<Byte>, early0: map<int, seq<Byte>>, next0: int,
    patience: Option<nat>, sent0: seq<seq<Byte>>, chunk0: seq<Byte>,
    ghost got: set<int>, ghost before: seq<Byte>, ghost slice: int -> seq<Byte>)
    returns (early: map<int, seq<Byte>>, next: int, sent: seq<seq<Byte>>, chunk: seq<Byte>, gone: bool)
    requires Merging(p, cut, slice, before, patience, got, early0, next0, sent0, chunk0)
    requires p.lo <= no <= p.hi && no !in got && cut(no, data) == slice(no)
    ensures Merging(p, cut, slice, before, patience, got + {no}, early, next, sent, chunk)
    ensures next0 <= next && (next == next0 ==> sent == sent0 && chunk == chunk0 && !gone)
    ensures gone ==> Left(patience, sent)
  {
    ArrivedOne(p, got, next0, early0.Keys, no);
    if no != next0 {
      return early0[no := data], next0, sent0, chunk0, false;
    }
    early, next, sent, chunk, gone := PutNext(
      p, cut, no, data, early0, patience, sent0, chunk0, got + {no}, before, slice);
  }

  // One piece: rows in `no` order go to `chunk`, each cut to the range, and on
  // to the client; a row that runs ahead waits in `early`. `slice` is what
  // each row contributes.
  method MergePiece(
    p: Piece, events: seq<Event>, cut: (int, seq<Byte>) -> seq<Byte>, patience: Option<nat>,
    sent0: seq<seq<Byte>>, chunk0: seq<Byte>, ghost slice: int -> seq<Byte>)
    returns (sent: seq<seq<Byte>>, chunk: seq<Byte>, next: int, verdict: Verdict)
    requires p.lo <= p.hi && Distinct(p, events)
    requires forall i | 0 <= i < |events| && events[i].Row? ::
      cut(events[i].no, events[i].data) == slice(events[i].no)
    requires Passed(patience, sent0)
    ensures Merged(p, events, slice, patience, sent0, chunk0, sent, chunk, next, verdict)
  {
    sent, chunk, next := sent0, chunk0, p.lo;
    ghost var before := Flatten(sent0) + chunk0;
    assert before == before + Contributed(slice, p.lo, p.lo);
    var early: map<int, seq<Byte>> := map[];
    for i := 0 to |events|
      invariant Merging(p, cut, slice, before, patience, NosTo(events, i), early, next, sent, chunk)
      invariant forall j | 0 <= j < i :: events[j].Row?
      invariant next == p.lo ==> sent == sent0 && chunk == chunk0
    {
      if events[i].Fault? {
        MergeEnds(p, events, cut, slice, patience, early, i, sent0, chunk0, sent, chunk, next, Failed);
        return sent, chunk, next, Failed;
      }
      NewNo(p, events, i, i);
      var gone;
      early, next, sent, chunk, gone := MergeRow(
        p, cut, events[i].no, events[i].data, early, next, patience, sent, chunk, NosTo(events, i), before, slice);
      if gone {
        MergeEnds(p, events, cut, slice, patience, early, i + 1, sent0, chunk0, sent, chunk, next, ClientGone);
        return sent, chunk, next, ClientGone;
      }
    }
    verdict := Drained;
    MergeEnds(p, events, cut, slice, patience, early, |events|, sent0, chunk0, sent, chunk, next, Drained);
  }

  // What merging a piece comes to: rows lo..next - 1 are out in order; the
  // piece is drained and complete exactly if all its rows came.
  ghost predicate Merged(
    p: Piece, events: seq<Event>, slice: int -> seq<Byte>, patience: Option<nat>,
    sent0: seq<seq<Byte>>, chunk0: seq<Byte>, sent: seq<seq<Byte>>, chunk: seq<Byte>, next: int, verdict: Verdict)
  {
    && p.lo <= next <= p.hi + 1
    && Flatten(sent) + chunk == Flatten(sent0) + chunk0 + Contributed(slice, p.lo, next)
    && Passed(patience, sent)
    && match verdict {
         case ClientGone => Left(patience, sent)
         case Failed => Fault in events
         case Drained => Fault !in events && (next > p.hi <==> Whole(p, events))
       }
    && if next == p.lo then verdict != ClientGone && sent == sent0 && chunk == chunk0 else p.lo in Nos(events)
  }

  lemma MergeEnds(
    p: Piece, events: seq<Event>, cut: (int, seq<Byte>) -> seq<Byte>, slice: int -> seq<Byte>,
    patience: Option<nat>, early: map<int, seq<Byte>>, i: nat,
    sent0: seq<seq<Byte>>, chunk0: seq<Byte>, sent: seq<seq<Byte>>, chunk: seq<Byte>, next: int, verdict: Verdict)
    requires i <= |events| && forall j | 0 <= j < i :: events[j].Row?
    requires Merging(
      p, cut, slice, Flatten(sent0) + chunk0, patience, NosTo(events, i), early, next, sent, chunk)
    requires next == p.lo ==> verdict != ClientGone && sent == sent0 && chunk == chunk0
    requires match verdict
      case ClientGone => Left(patience, sent)
      case Failed => i < |events| && events[i].Fault?
      case Drained => i == |events|
    ensures Merged(p, events, slice, patience, sent0, chunk0, sent, chunk, next, verdict)
  {
    NosGrow(events, i, |events|);
    if verdict == Drained {
      WholeIff(p, events, next, early.Keys);
    }
  }

  // The rows `got` so far: all before `next`, and those waiting.
  ghost predicate Arrived(p: Piece, got: set<int>, next: int, waiting: set<int>) {
    && (forall no <- got :: p.lo <= no <= p.hi)
    && (forall no | p.lo <= no < next :: no in got)
    && (forall no :: no in waiting <==> no in got && no >= next)
  }

  lemma ArrivedOne(p: Piece, got: set<int>, next: int, waiting: set<int>, no: int)
    requires Arrived(p, got, next, waiting) && p.lo <= no <= p.hi && no !in got
    ensures Arrived(p, got + {no}, next, waiting + {no})
  {
  }

  lemma ArrivedNext(p: Piece, got: set<int>, next: int, waiting: set<int>)
    requires Arrived(p, got, next, waiting) && next in waiting
    ensures next <= p.hi && Arrived(p, got, next + 1, waiting - {next})
  {
  }

  lemma WholeIff(p: Piece, events: seq<Event>, next: int, waiting: set<int>)
    requires Arrived(p, Nos(events), next, waiting) && next !in waiting && p.lo <= next <= p.hi + 1
    requires forall i | 0 <= i < |events| :: events[i].Row?
    ensures Fault !in events && (next > p.hi <==> Whole(p, events))
  {
    if next <= p.hi {
      assert next !in Nos(events);
    }
  }

  lemma {:induction false} NosGrow(events: seq<Event>, i: nat, k: nat)
    requires i <= k <= |events|
    ensures NosTo(events, i) <= NosTo(events, k)
  {
    if i < k {
      NosGrow(events, i, k - 1);
    }
  }

  lemma {:induction false} NewNo(p: Piece, events: seq<Event>, i: nat, k: nat)
    requires i <= k < |events| && events[k].Row? && Distinct(p, events)
    ensures events[k].no !in NosTo(events, i)
  {
    if i > 0 {
      NewNo(p, events, i - 1, k);
    }
  }

  lemma PutMore(a: seq<Byte>, b: seq<Byte>, c: seq<Byte>, d: seq<Byte>, more: seq<Byte>)
    requires a + b == c + d
    ensures a + (b + more) == c + (d + more)
  {
    assert a + (b + more) == a + b + more && c + (d + more) == c + d + more;
  }

  // Metadata whose segments are files of the given bytes, end to end.
  ghost predicate Stored(m: Meta, written: map<nat, seq<Byte>>) {
    && Tiled(Segments(m), written, m.size)
    && forall i | 0 <= i < |Segments(m)| :: Numbered(Segments(m)[i])
  }

  ghost function Bytes(m: Meta, written: map<nat, seq<Byte>>): seq<Byte>
    requires Stored(m, written)
  {
    Content(Segments(m), written)
  }

  function PlanOf(m: Meta, start: int, end: int): seq<Piece> { Plan(Segments(m), start, end, PART_ROWS) }

  lemma PlanReads(m: Meta, written: map<nat, seq<Byte>>, start: int, end: int)
    requires Stored(m, written) && 0 <= start <= end < m.size
    ensures |Bytes(m, written)| == m.size && PlanOf(m, start, end) != []
    ensures Covers(PlanOf(m, start, end), written, start, end, start)
    ensures AllLie(PlanOf(m, start, end), written, Bytes(m, written))
  {
    var segs, v := Segments(m), Bytes(m, written);
    TiledContent(segs, written, m.size);
    forall j | 0 <= j < |segs| ensures Laid(segs, j, written, v) {
      assert Numbered(segs[j]);
    }
    PlanCovers(segs, 0, written, v, start, end);
    assert segs[0..] == segs;
    assert segs == [] ==> m.size == 0;
    assert BaseOf(segs, 0, v) == 0;
  }

  ghost predicate PlacedAt(ps: seq<Piece>, n: nat, w: map<nat, seq<Byte>>, start: int, end: int)
    requires n < |ps|
  {
    ps[n].file in w && Placed(ps[n], |w[ps[n].file]|, start, end)
  }

  lemma {:induction false} CoversPlaced(ps: seq<Piece>, w: map<nat, seq<Byte>>, start: int, end: int, pos: int)
    requires Covers(ps, w, start, end, pos)
    ensures forall n | 0 <= n < |ps| :: PlacedAt(ps, n, w, start, end)
  {
    if ps != [] {
      CoversPlaced(ps[1..], w, start, end, At(ps[0].base, |w[ps[0].file]|, ps[0].hi + 1, start, end));
      forall n | 0 <= n < |ps| ensures PlacedAt(ps, n, w, start, end) {
        if n > 0 {
          assert PlacedAt(ps[1..], n - 1, w, start, end) && ps[1..][n - 1] == ps[n];
        }
      }
    }
  }

  // Each piece's answer is rows of its file.
  ghost predicate Fetched(ps: seq<Piece>, answers: seq<seq<Event>>, written: map<nat, seq<Byte>>) {
    |answers| == |ps| && forall i | 0 <= i < |ps| :: FetchedAt(ps, i, answers, written)
  }

  ghost predicate FetchedAt(
    ps: seq<Piece>, i: nat, answers: seq<seq<Event>>, written: map<nat, seq<Byte>>)
    requires i < |ps| == |answers|
  {
    ps[i].file in written && Answers(ps[i], answers[i], written[ps[i].file])
  }

  ghost predicate AllWhole(ps: seq<Piece>, answers: seq<seq<Event>>) {
    |answers| == |ps| && forall i | 0 <= i < |ps| :: WholeAt(ps, i, answers)
  }

  // Some query failed.
  ghost predicate Faulty(answers: seq<seq<Event>>) { exists i :: 0 <= i < |answers| && Fault in answers[i] }

  ghost predicate WholeAt(ps: seq<Piece>, i: nat, answers: seq<seq<Event>>)
    requires i < |ps| == |answers|
  {
    Whole(ps[i], answers[i])
  }

  lemma PieceDelivers(p: Piece, file: seq<Byte>, v: seq<Byte>, start: int, end: int, next: int, slice: int -> seq<Byte>)
    requires Placed(p, |file|, start, end) && Lies(p.base, file, v) && end < |v| && p.lo <= next <= p.hi + 1
    requires slice == SliceOf(p, file, start, end)
    ensures start <= At(p.base, |file|, p.lo, start, end) <= At(p.base, |file|, next, start, end) <= |v|
    ensures v[start..At(p.base, |file|, p.lo, start, end)] + Contributed(slice, p.lo, next)
         == v[start..At(p.base, |file|, next, start, end)]
  {
    var at := Offsets(p, |file|, start, end);
    RowDelivers(p, file, v, start, end, p.lo);
    forall no | p.lo <= no < next ensures Steps(v, slice, at, no) {
      RowSteps(p, file, v, start, end, no);
    }
    ContributedIs(v, slice, at, p.lo, next);
    Join(v, start, at(p.lo), at(next));
  }

  lemma RowSteps(p: Piece, file: seq<Byte>, v: seq<Byte>, start: int, end: int, no: int)
    requires Placed(p, |file|, start, end) && Lies(p.base, file, v) && end < |v| && p.lo <= no <= p.hi
    ensures Steps(v, SliceOf(p, file, start, end), Offsets(p, |file|, start, end), no)
  {
    RowDelivers(p, file, v, start, end, no);
  }

  // What row `no` of the file contributes, and the cut that finds it out.
  ghost function SliceOf(p: Piece, file: seq<Byte>, start: int, end: int): int -> seq<Byte> {
    (no: int) =>
      if 0 <= no < RowCount(|file|) then OrEmpty(RowSlice(p.base, no, RowAt(file, no), start, end)) else []
  }

  function CutOf(p: Piece, start: int, end: int): (int, seq<Byte>) -> seq<Byte> {
    (no, data) => OrEmpty(RowSlice(p.base, no, data, start, end))
  }

  lemma CutIsSlice(p: Piece, events: seq<Event>, file: seq<Byte>, start: int, end: int)
    requires Answers(p, events, file)
    ensures forall i | 0 <= i < |events| && events[i].Row? ::
      CutOf(p, start, end)(events[i].no, events[i].data) == SliceOf(p, file, start, end)(events[i].no)
  {
  }

  ghost function Offsets(p: Piece, len: int, start: int, end: int): int -> int {
    (no: int) => At(p.base, len, no, start, end)
  }

  // What has been delivered of the object before row `next` of piece p.
  ghost predicate Delivered(
    sent: seq<seq<Byte>>, chunk: seq<Byte>, v: seq<Byte>, p: Piece, len: int, next: int, start: int, end: int)
  {
    var to := At(p.base, len, next, start, end);
    0 <= start <= to <= |v| && Flatten(sent) + chunk == v[start..to]
  }

  // The piece's file lies in the object, and the rows are its.
  ghost predicate Deliverable(p: Piece, rows: seq<Event>, start: int, end: int, file: seq<Byte>, v: seq<Byte>) {
    Placed(p, |file|, start, end) && Lies(p.base, file, v) && end < |v| && Answers(p, rows, file)
  }

  // A piece has been delivered, or it stopped the span: `ok` if the client
  // left, else because its query failed or a row was missing.
  ghost predicate PieceDone(
    p: Piece, rows: seq<Event>, patience: Option<nat>, sent0: seq<seq<Byte>>, sent: seq<seq<Byte>>, chunk: seq<Byte>,
    file: seq<Byte>, v: seq<Byte>, start: int, end: int, stop: bool, ok: bool)
    requires 0 <= start <= end < |v|
  {
    && Passed(patience, sent) && Flatten(sent) <= v[start..end + 1]
    && (!stop ==> Whole(p, rows) && Delivered(sent, chunk, v, p, |file|, p.hi + 1, start, end))
    && (stop ==> if ok then Left(patience, sent) else !Whole(p, rows))
    && (stop && !ok ==> Fault in rows || |Flatten(sent)| <= end - start)
    && (p.lo !in Nos(rows) ==> stop && !ok && sent == sent0)
  }

  // One piece of the span, which stops it (`ok` telling how) unless every row was delivered.
  method DeliverPiece(
    p: Piece, rows: seq<Event>, start: int, end: int, patience: Option<nat>,
    sent0: seq<seq<Byte>>, chunk0: seq<Byte>, ghost file: seq<Byte>, ghost v: seq<Byte>)
    returns (sent: seq<seq<Byte>>, chunk: seq<Byte>, stop: bool, ok: bool)
    requires Deliverable(p, rows, start, end, file, v)
    requires Delivered(sent0, chunk0, v, p, |file|, p.lo, start, end)
    requires Passed(patience, sent0)
    ensures PieceDone(p, rows, patience, sent0, sent, chunk, file, v, start, end, stop, ok)
  {
    ghost var slice := SliceOf(p, file, start, end);
    var next, verdict;
    CutIsSlice(p, rows, file, start, end);
    sent, chunk, next, verdict := MergePiece(p, rows, CutOf(p, start, end), patience, sent0, chunk0, slice);
    stop, ok := verdict != Drained || next <= p.hi, verdict == ClientGone;
    PieceEnds(p, rows, patience, sent0, chunk0, sent, chunk, file, v, start, end, next, verdict);
  }

  lemma PieceEnds(
    p: Piece, rows: seq<Event>, patience: Option<nat>, sent0: seq<seq<Byte>>, chunk0: seq<Byte>,
    sent: seq<seq<Byte>>, chunk: seq<Byte>, file: seq<Byte>, v: seq<Byte>, start: int, end: int,
    next: int, verdict: Verdict)
    requires Deliverable(p, rows, start, end, file, v)
    requires Delivered(sent0, chunk0, v, p, |file|, p.lo, start, end)
    requires Merged(p, rows, SliceOf(p, file, start, end), patience, sent0, chunk0, sent, chunk, next, verdict)
    ensures PieceDone(p, rows, patience, sent0, sent, chunk, file, v, start, end,
      verdict != Drained || next <= p.hi, verdict == ClientGone)
  {
    PieceDelivers(p, file, v, start, end, next, SliceOf(p, file, start, end));
    PrefixDelivered(sent, chunk, v, start, end, At(p.base, |file|, next, start, end));
    MissingIsShort(p, |file|, start, end, next);
  }

  // Short of a row that the piece asked for there are bytes to come.
  lemma MissingIsShort(p: Piece, len: int, start: int, end: int, next: int)
    requires Placed(p, len, start, end) && p.lo <= next <= p.hi + 1
    ensures next <= p.hi ==> At(p.base, len, next, start, end) <= end
  {
  }

  // Keeps up to PARTS_INFLIGHT pieces running.
  method StartPieces(
    ps: seq<Piece>, answers: seq<seq<Event>>, ghost done: nat, running0: seq<(Piece, seq<Event>)>, started0: nat)
    returns (running: seq<(Piece, seq<Event>)>, started: nat)
    requires InFlight(ps, answers, done, running0, started0)
    ensures InFlight(ps, answers, done, running, started) && started0 <= started
    ensures |running| <= Max(|running0|, PARTS_INFLIGHT) && (running == [] ==> started == |ps|)
  {
    running, started := running0, started0;
    while |running| < PARTS_INFLIGHT && started < |ps|
      invariant InFlight(ps, answers, done, running, started) && started0 <= started
      invariant |running| <= Max(|running0|, PARTS_INFLIGHT)
    {
      running := running + [(ps[started], answers[started])];
      started := started + 1;
    }
  }

  ghost predicate InFlight(
    ps: seq<Piece>, answers: seq<seq<Event>>, done: nat, running: seq<(Piece, seq<Event>)>, started: nat)
  {
    && done <= started <= |ps| == |answers| && |running| == started - done
    && forall i | 0 <= i < |running| :: running[i] == (ps[done + i], answers[done + i])
  }

  // The head piece is merged next.
  method NextRunning(
    ps: seq<Piece>, answers: seq<seq<Event>>, ghost done: nat, running0: seq<(Piece, seq<Event>)>,
    ghost started: nat)
    returns (p: Piece, rows: seq<Event>, running: seq<(Piece, seq<Event>)>)
    requires InFlight(ps, answers, done, running0, started) && running0 != []
    ensures done < |ps| && p == ps[done] && rows == answers[done]
    ensures InFlight(ps, answers, done + 1, running, started)
  {
    p, rows, running := running0[0].0, running0[0].1, running0[1..];
  }

  // Before piece `done`.
  ghost predicate Midway(
    ps: seq<Piece>, done: nat, sent: seq<seq<Byte>>, chunk: seq<Byte>,
    written: map<nat, seq<Byte>>, v: seq<Byte>, start: int, end: int, pos: int)
  {
    && done <= |ps| && 0 <= start <= pos <= |v| && Flatten(sent) + chunk == v[start..pos]
    && Covers(ps[done..], written, start, end, pos)
  }

  lemma MidwayPiece(
    ps: seq<Piece>, answers: seq<seq<Event>>, done: nat, sent: seq<seq<Byte>>, chunk: seq<Byte>,
    written: map<nat, seq<Byte>>, v: seq<Byte>, start: int, end: int, pos: int)
    requires Midway(ps, done, sent, chunk, written, v, start, end, pos) && done < |ps|
    requires end < |v| && AllLie(ps, written, v) && Fetched(ps, answers, written)
    ensures ps[done].lo <= ps[done].hi
    ensures ps[done].file in written && Deliverable(ps[done], answers[done], start, end, written[ps[done].file], v)
    ensures Delivered(sent, chunk, v, ps[done], |written[ps[done].file]|, ps[done].lo, start, end)
  {
    assert ps[done..][0] == ps[done];
    assert LiesAt(ps, done, written, v) && FetchedAt(ps, done, answers, written);
  }

  lemma MidwayEnd(
    ps: seq<Piece>, sent: seq<seq<Byte>>, chunk: seq<Byte>,
    written: map<nat, seq<Byte>>, v: seq<Byte>, start: int, end: int, pos: int)
    requires Midway(ps, |ps|, sent, chunk, written, v, start, end, pos)
    ensures end < |v| && Flatten(sent) + chunk == v[start..end + 1]
  {
  }

  lemma PrefixDelivered(sent: seq<seq<Byte>>, chunk: seq<Byte>, v: seq<Byte>, start: int, end: int, to: int)
    requires 0 <= start <= to <= end + 1 <= |v| && Flatten(sent) + chunk == v[start..to]
    ensures Flatten(sent) <= v[start..end + 1]
  {
    assert v[start..to] == v[start..end + 1][..to - start];
  }

  // Streams [start, end]: up to PARTS_INFLIGHT pieces run at once and are
  // merged in order. What has been sent is a prefix of the requested bytes at
  // every send, so at the end too; with the client connected, the span ends
  // without error exactly when no query failed and no row was missing, and
  // then everything was sent. If the first row is missing, nothing was.
  method StreamSpan(
    m: Meta, start: int, end: int, answers: seq<seq<Event>>, patience: Option<nat>,
    ghost written: map<nat, seq<Byte>>)
    returns (sent: seq<seq<Byte>>, ok: bool)
    requires Stored(m, written) && 0 <= start <= end < m.size
    requires Fetched(PlanOf(m, start, end), answers, written)
    ensures |Bytes(m, written)| == m.size && Flatten(sent) <= Bytes(m, written)[start..end + 1]
    ensures PassedOn(patience, sent) && (!ok ==> Passed(patience, sent))
    ensures patience.None? ==> (ok <==> AllWhole(PlanOf(m, start, end), answers))
    ensures !ok ==> Faulty(answers) || |Flatten(sent)| <= end - start
    ensures ok ==> Left(patience, sent) || Flatten(sent) == Bytes(m, written)[start..end + 1]
    ensures var ps := PlanOf(m, start, end);
      ps != [] && (ps[0].lo !in Nos(answers[0]) ==> !ok && sent == [])
  {
    var ps := PlanOf(m, start, end);
    PlanReads(m, written, start, end);
    ghost var v := Bytes(m, written);
    sent, ok := StreamPieces(ps, start, end, answers, patience, written, v);
  }

  // A plan for [start, end] of the object `v` and its queries' answers.
  ghost predicate Planned(
    ps: seq<Piece>, answers: seq<seq<Event>>, written: map<nat, seq<Byte>>, v: seq<Byte>, start: int, end: int)
  {
    && ps != [] && 0 <= start <= end < |v|
    && Covers(ps, written, start, end, start) && AllLie(ps, written, v) && Fetched(ps, answers, written)
  }

  // The first `done` pieces were whole; nothing is sent before the first row came.
  ghost predicate SoFar(ps: seq<Piece>, answers: seq<seq<Event>>, done: nat, sent: seq<seq<Byte>>) {
    && done <= |ps| == |answers| && (forall i | 0 <= i < done :: WholeAt(ps, i, answers))
    && if done == 0 then sent == [] else ps[0].lo in Nos(answers[0])
  }

  method StreamPieces(
    ps: seq<Piece>, start: int, end: int, answers: seq<seq<Event>>, patience: Option<nat>,
    ghost written: map<nat, seq<Byte>>, ghost v: seq<Byte>)
    returns (sent: seq<seq<Byte>>, ok: bool)
    requires Planned(ps, answers, written, v, start, end)
    ensures Flatten(sent) <= v[start..end + 1]
    ensures PassedOn(patience, sent) && (!ok ==> Passed(patience, sent))
    ensures patience.None? ==> (ok <==> AllWhole(ps, answers))
    ensures !ok ==> Faulty(answers) || |Flatten(sent)| <= end - start
    ensures ok ==> Left(patience, sent) || Flatten(sent) == v[start..end + 1]
    ensures ps[0].lo !in Nos(answers[0]) ==> !ok && sent == []
  {
    var started, running := 0, [];
    ghost var done, pos := 0, start;
    var chunk;
    sent, chunk := [], [];
    assert ps[0..] == ps;
    while true
      invariant InFlight(ps, answers, done, running, started)
      invariant Midway(ps, done, sent, chunk, written, v, start, end, pos)
      invariant Passed(patience, sent)
      invariant SoFar(ps, answers, done, sent)
      decreases |ps| - done
    {
      running, started := StartPieces(ps, answers, done, running, started);
      if running == [] {
        break;
      }
      var p, rows;
      p, rows, running := NextRunning(ps, answers, done, running, started);
      var stop;
      sent, chunk, stop, ok, pos := MergeNext(
        ps, p, rows, start, end, patience, sent, chunk, answers, done, written, v, pos);
      if stop {
        return;
      }
      done := done + 1;
    }
    MidwayEnd(ps, sent, chunk, written, v, start, end, pos);
    sent, ok := FinishSpan(sent, chunk, v[start..end + 1], start, end, patience);
  }

  method MergeNext(
    ghost ps: seq<Piece>, p: Piece, rows: seq<Event>, start: int, end: int, patience: Option<nat>,
    sent0: seq<seq<Byte>>, chunk0: seq<Byte>, ghost answers: seq<seq<Event>>, ghost done: nat,
    ghost written: map<nat, seq<Byte>>, ghost v: seq<Byte>, ghost pos0: int)
    returns (sent: seq<seq<Byte>>, chunk: seq<Byte>, stop: bool, ok: bool, ghost pos: int)
    requires Planned(ps, answers, written, v, start, end) && Passed(patience, sent0)
    requires done < |ps| && p == ps[done] && rows == answers[done]
    requires Midway(ps, done, sent0, chunk0, written, v, start, end, pos0) && SoFar(ps, answers, done, sent0)
    ensures if stop then Stopped(ps, answers, patience, sent, v, start, end, ok)
      else SoFar(ps, answers, done + 1, sent) && Midway(ps, done + 1, sent, chunk, written, v, start, end, pos)
           && Passed(patience, sent)
  {
    pos := pos0;
    MidwayPiece(ps, answers, done, sent0, chunk0, written, v, start, end, pos0);
    sent, chunk, stop, ok := DeliverPiece(p, rows, start, end, patience, sent0, chunk0, written[p.file], v);
    if stop {
      StoppedAt(ps, answers, done, patience, sent0, sent, chunk, written[p.file], v, start, end, ok);
    } else {
      pos := MidwayNext(
        ps, answers, done, patience, sent0, chunk0, sent, chunk, written, v, start, end, pos0, ok);
    }
  }

  lemma MidwayNext(
    ps: seq<Piece>, answers: seq<seq<Event>>, done: nat, patience: Option<nat>,
    sent0: seq<seq<Byte>>, chunk0: seq<Byte>, sent: seq<seq<Byte>>, chunk: seq<Byte>,
    written: map<nat, seq<Byte>>, v: seq<Byte>, start: int, end: int, pos0: int, ok: bool) returns (pos: int)
    requires Midway(ps, done, sent0, chunk0, written, v, start, end, pos0) && done < |ps| == |answers|
    requires SoFar(ps, answers, done, sent0)
    requires ps[done].file in written && ps[done].lo <= ps[done].hi && 0 <= start <= end < |v|
    requires PieceDone(
      ps[done], answers[done], patience, sent0, sent, chunk, written[ps[done].file], v, start, end, false, ok)
    ensures Midway(ps, done + 1, sent, chunk, written, v, start, end, pos) && SoFar(ps, answers, done + 1, sent)
    ensures Passed(patience, sent)
  {
    assert ps[done..][0] == ps[done] && ps[done..][1..] == ps[done + 1..];
    pos := At(ps[done].base, |written[ps[done].file]|, ps[done].hi + 1, start, end);
    SoFarNext(ps, answers, done, sent0, sent);
  }

  // The span ends here: the client left, or a query failed or a row was missing.
  ghost predicate Stopped(
    ps: seq<Piece>, answers: seq<seq<Event>>, patience: Option<nat>, sent: seq<seq<Byte>>,
    v: seq<Byte>, start: int, end: int, ok: bool)
    requires ps != [] && answers != [] && 0 <= start <= end < |v|
  {
    && Passed(patience, sent) && Flatten(sent) <= v[start..end + 1]
    && (if ok then Left(patience, sent) else !AllWhole(ps, answers))
    && (!ok ==> Faulty(answers) || |Flatten(sent)| <= end - start)
    && (ps[0].lo !in Nos(answers[0]) ==> !ok && sent == [])
  }

  lemma SoFarNext(ps: seq<Piece>, answers: seq<seq<Event>>, done: nat, was: seq<seq<Byte>>, sent: seq<seq<Byte>>)
    requires SoFar(ps, answers, done, was) && done < |ps| && Whole(ps[done], answers[done]) && ps[done].lo <= ps[done].hi
    ensures SoFar(ps, answers, done + 1, sent)
  {
  }

  lemma StoppedAt(
    ps: seq<Piece>, answers: seq<seq<Event>>, done: nat, patience: Option<nat>,
    was: seq<seq<Byte>>, sent: seq<seq<Byte>>, chunk: seq<Byte>,
    file: seq<Byte>, v: seq<Byte>, start: int, end: int, ok: bool)
    requires SoFar(ps, answers, done, was) && done < |ps| && 0 <= start <= end < |v|
    requires PieceDone(ps[done], answers[done], patience, was, sent, chunk, file, v, start, end, true, ok)
    ensures Stopped(ps, answers, patience, sent, v, start, end, ok)
  {
    assert !ok ==> !WholeAt(ps, done, answers);
  }

  // The length check, then what is left in the chunk.
  method FinishSpan(
    sent0: seq<seq<Byte>>, chunk: seq<Byte>, ghost want: seq<Byte>, start: int, end: int, patience: Option<nat>)
    returns (sent: seq<seq<Byte>>, ok: bool)
    requires Flatten(sent0) + chunk == want && |want| == end - start + 1
    requires Passed(patience, sent0)
    ensures ok && Flatten(sent) <= want
    ensures PassedOn(patience, sent)
    ensures Left(patience, sent) || Flatten(sent) == want
  {
    sent, ok := sent0, true;
    if |Flatten(sent)| + |chunk| != end - start + 1 {
      ok := false;
      return;
    }
    if chunk != [] && Accepts(patience, sent) {
      FlattenSnoc(sent, chunk);
      sent := sent + [chunk];
    }
  }
}
