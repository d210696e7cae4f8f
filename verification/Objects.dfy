// Object metadata, its stored segments, and the plan of row ranges that a
// byte range of the object is fetched as.
module Objects {
  import opened Base

  // One row of the objects table. A multipart object lists its part files in
  // order with their cumulative end offsets; otherwise one file holds it all.
  datatype Meta = Meta(
    fileId: nat, size: int, etag: seq<Byte>, parts: Option<seq<nat>>, partEnds: Option<seq<int>>)

  datatype Segment = Segment(file: nat, base: int, len: int)

  // Each stored segment at its offset in the object.
  function Segments(m: Meta): seq<Segment> {
    if m.parts.Some? && m.partEnds.Some? && |m.parts.value| == |m.partEnds.value| then
      var ids, ends := m.parts.value, m.partEnds.value;
      seq(|ids|, i requires 0 <= i < |ids| =>
        var prev := if i == 0 then 0 else ends[i - 1]; Segment(ids[i], prev, ends[i] - prev))
    else
      [Segment(m.fileId, 0, m.size)]
  }

  // The segments lie end to end over [0, size), each the length of its file.
  ghost predicate Tiled(segs: seq<Segment>, written: map<nat, seq<Byte>>, size: int) {
    && (forall i | 0 <= i < |segs| :: segs[i].file in written && segs[i].len == |written[segs[i].file]|)
    && (forall i | 0 <= i < |segs| :: segs[i].base == EndBefore(segs, i))
    && size == EndBefore(segs, |segs|)
  }

  // Where the first `n` segments end.
  function EndBefore(segs: seq<Segment>, n: nat): int
    requires n <= |segs|
  {
    if n == 0 then 0 else segs[n - 1].base + segs[n - 1].len
  }

  // The object's bytes: its files', in order.
  ghost function Content(segs: seq<Segment>, written: map<nat, seq<Byte>>): seq<Byte>
    requires forall s <- segs :: s.file in written
  {
    if segs == [] then [] else Content(segs[..|segs| - 1], written) + written[segs[|segs| - 1].file]
  }

  // The file lies at `base` in the object `v`.
  ghost predicate Lies(base: int, file: seq<Byte>, v: seq<Byte>) {
    0 <= base <= base + |file| <= |v| && v[base..base + |file|] == file
  }

  // Tiled segments' files lie in the object at their bases.
  lemma TiledContent(segs: seq<Segment>, written: map<nat, seq<Byte>>, size: int)
    requires Tiled(segs, written, size)
    ensures |Content(segs, written)| == size
    ensures forall i | 0 <= i < |segs| :: Lies(segs[i].base, written[segs[i].file], Content(segs, written))
  {
    TiledSize(segs, written, size);
    forall i | 0 <= i < |segs| ensures Lies(segs[i].base, written[segs[i].file], Content(segs, written)) {
      TiledAt(segs, written, size, i);
    }
  }

  lemma {:induction false} TiledSize(segs: seq<Segment>, written: map<nat, seq<Byte>>, size: int)
    requires Tiled(segs, written, size)
    ensures |Content(segs, written)| == size
  {
    if segs != [] {
      FrontTiles(segs, segs[..|segs| - 1], written, size);
      TiledSize(segs[..|segs| - 1], written, segs[|segs| - 1].base);
    }
  }

  lemma FrontTiles(segs: seq<Segment>, front: seq<Segment>, written: map<nat, seq<Byte>>, size: int)
    requires Tiled(segs, written, size) && segs != [] && front == segs[..|segs| - 1]
    ensures Tiled(front, written, segs[|front|].base)
    ensures forall s <- front :: s.file in written
    ensures Content(segs, written) == Content(front, written) + written[segs[|front|].file]
  {
    forall i | 0 <= i <= |front| ensures EndBefore(front, i) == EndBefore(segs, i) {
      if i > 0 {
        assert front[i - 1] == segs[i - 1];
      }
    }
    forall s <- front ensures s.file in written {
      assert s in segs;
    }
  }

  lemma {:induction false} TiledAt(segs: seq<Segment>, written: map<nat, seq<Byte>>, size: int, i: nat)
    requires Tiled(segs, written, size) && i < |segs|
    ensures Lies(segs[i].base, written[segs[i].file], Content(segs, written))
  {
    var n := |segs| - 1;
    var front, last := segs[..n], written[segs[n].file];
    FrontTiles(segs, front, written, size);
    var v := Content(front, written);
    if i < n {
      assert front[i] == segs[i];
      TiledAt(front, written, segs[n].base, i);
      LiesFurther(segs[i].base, written[segs[i].file], v, last, Content(segs, written));
    } else {
      TiledSize(front, written, segs[n].base);
      LiesLast(segs[n].base, last, v, Content(segs, written));
    }
  }

  lemma LiesFurther(base: int, file: seq<Byte>, v: seq<Byte>, more: seq<Byte>, all: seq<Byte>)
    requires Lies(base, file, v) && all == v + more
    ensures Lies(base, file, all)
  {
    assert all[base..base + |file|] == v[base..base + |file|];
  }

  lemma LiesLast(base: int, file: seq<Byte>, v: seq<Byte>, all: seq<Byte>)
    requires base == |v| && all == v + file
    ensures Lies(base, file, all)
  {
  }

  // What files hold.
  function FileBytes(file: nat, written: map<nat, seq<Byte>>): seq<Byte> {
    if file in written then written[file] else []
  }

  function FilesBytes(files: seq<nat>, written: map<nat, seq<Byte>>): seq<seq<Byte>> {
    seq(|files|, i requires 0 <= i < |files| => FileBytes(files[i], written))
  }

  // If the segments' files hold `datas`, the object is these end to end.
  lemma {:induction false} ContentIsParts(segs: seq<Segment>, written: map<nat, seq<Byte>>, datas: seq<seq<Byte>>)
    requires |segs| == |datas|
    requires forall i | 0 <= i < |segs| :: segs[i].file in written && written[segs[i].file] == datas[i]
    ensures Content(segs, written) == Flatten(datas)
  {
    if segs != [] {
      ContentIsParts(segs[..|segs| - 1], written, datas[..|segs| - 1]);
    }
  }

  // One fetch unit: rows lo..hi of the segment file at object offset `base`.
  datatype Piece = Piece(file: nat, base: int, lo: int, hi: int)

  // Contiguous ranges of at most `step` rows covering first..last.
  function PartRanges(first: int, last: int, step: nat): seq<(int, int)>
    decreases last - first
  {
    var s := Max(1, Min(step, I32_MAX));
    if first > last then [] else
    [(first, Min(Min(first + s - 1, I32_MAX), last))] + PartRanges(first + s, last, step)
  }

  function ToPieces(seg: Segment, ranges: seq<(int, int)>): seq<Piece> {
    seq(|ranges|, i requires 0 <= i < |ranges| => Piece(seg.file, seg.base, ranges[i].0, ranges[i].1))
  }

  // The first and last rows of a segment that a range reaches.
  function FirstRow(seg: Segment, start: int): int { (Max(start, seg.base) - seg.base) / ROW_BYTES }

  function LastRow(seg: Segment, end: int): int { (Min(end, seg.base + seg.len - 1) - seg.base) / ROW_BYTES }

  function PiecesOf(seg: Segment, start: int, end: int, step: nat): seq<Piece> {
    if seg.len <= 0 || seg.base + seg.len - 1 < start || seg.base > end then [] else
    ToPieces(seg, PartRanges(FirstRow(seg, start), LastRow(seg, end), step))
  }

  // Pieces covering object bytes [start, end], in order.
  function Plan(segs: seq<Segment>, start: int, end: int, step: nat): seq<Piece> {
    if segs == [] then [] else PiecesOf(segs[0], start, end, step) + Plan(segs[1..], start, end, step)
  }

  // ---- exactness: a plan asks for the rows that meet the range, once each, in order ----

  datatype RowRef = RowRef(file: nat, base: int, no: int)

  function RowRefs(file: nat, base: int, lo: int, hi: int): seq<RowRef> {
    seq(Max(0, hi - lo + 1), i => RowRef(file, base, lo + i))
  }

  // All rows the pieces ask for.
  function Requested(ps: seq<Piece>): seq<RowRef> {
    FlatMap((p: Piece) => RowRefs(p.file, p.base, p.lo, p.hi), ps)
  }

  // Row `no` of the segment holds a byte of [start, end].
  predicate Meets(seg: Segment, no: int, start: int, end: int) {
    seg.base + no * ROW_BYTES <= end
    && start < Min(seg.base + (no + 1) * ROW_BYTES, seg.base + seg.len)
  }

  function MeetingFrom(seg: Segment, no: nat, start: int, end: int): seq<RowRef>
    decreases RowCount(Max(0, seg.len)) - no
  {
    if no >= RowCount(Max(0, seg.len)) then [] else
    (if Meets(seg, no, start, end) then [RowRef(seg.file, seg.base, no)] else [])
    + MeetingFrom(seg, no + 1, start, end)
  }

  // Every row of every segment that meets the range, in object order.
  function Meeting(segs: seq<Segment>, start: int, end: int): seq<RowRef>
  {
    if segs == [] then [] else MeetingFrom(segs[0], 0, start, end) + Meeting(segs[1..], start, end)
  }

  // The first range, and where the next starts.
  lemma RangesHead(first: int, last: int, step: nat) returns (hi: int)
    requires first <= last <= I32_MAX
    ensures first <= hi <= last && hi - first < Max(1, step)
    ensures PartRanges(first, last, step) == [(first, hi)] + PartRanges(hi + 1, last, step)
  {
    var s := Max(1, Min(step, I32_MAX));
    hi := Min(first + s - 1, last);
    assert hi < first + s - 1 ==> PartRanges(first + s, last, step) == [] == PartRanges(hi + 1, last, step);
  }

  lemma {:induction false} PartRangesRows(seg: Segment, first: int, last: int, step: nat)
    requires last <= I32_MAX
    ensures Requested(ToPieces(seg, PartRanges(first, last, step))) == RowRefs(seg.file, seg.base, first, last)
    decreases last - first
  {
    if first <= last {
      var hi := RangesHead(first, last, step);
      PartRangesRows(seg, hi + 1, last, step);
      RequestedHead(seg, (first, hi), PartRanges(hi + 1, last, step));
      RefsJoin(seg, first, hi, last);
    }
  }

  lemma RefsJoin(seg: Segment, first: int, hi: int, last: int)
    requires first <= hi <= last
    ensures RowRefs(seg.file, seg.base, first, hi) + RowRefs(seg.file, seg.base, hi + 1, last)
         == RowRefs(seg.file, seg.base, first, last)
  {
  }

  lemma {:induction false} PartRangesFit(first: int, last: int, step: nat)
    requires last <= I32_MAX
    ensures forall r <- PartRanges(first, last, step) :: first <= r.0 <= r.1 <= last && r.1 - r.0 < Max(1, step)
    decreases last - first
  {
    if first <= last {
      var hi := RangesHead(first, last, step);
      PartRangesFit(hi + 1, last, step);
    }
  }

  lemma RequestedHead(seg: Segment, r: (int, int), tail: seq<(int, int)>)
    ensures Requested(ToPieces(seg, [r] + tail))
         == RowRefs(seg.file, seg.base, r.0, r.1) + Requested(ToPieces(seg, tail))
  {
    var p, ps := Piece(seg.file, seg.base, r.0, r.1), ToPieces(seg, tail);
    assert ToPieces(seg, [r] + tail) == [p] + ps;
    assert ([p] + ps)[1..] == ps;
  }

  lemma {:induction false} MeetingRows(seg: Segment, no: nat, start: int, end: int)
    requires 0 <= start <= end && 0 <= seg.base && 0 < seg.len
    requires start < seg.base + seg.len && seg.base <= end
    ensures MeetingFrom(seg, no, start, end)
         == RowRefs(seg.file, seg.base, Max(no, FirstRow(seg, start)), LastRow(seg, end))
    decreases RowCount(seg.len) - no
  {
    if no < RowCount(seg.len) {
      MeetingRows(seg, no + 1, start, end);
      MeetsWithin(seg, no, start, end);
    } else {
      assert LastRow(seg, end) < no;
    }
  }

  lemma MeetsWithin(seg: Segment, no: nat, start: int, end: int)
    requires 0 <= start <= end && 0 <= seg.base && 0 < seg.len && no < RowCount(seg.len)
    requires start < seg.base + seg.len && seg.base <= end
    ensures Meets(seg, no, start, end) <==> FirstRow(seg, start) <= no <= LastRow(seg, end)
  {
  }

  lemma {:induction false} MeetingNone(seg: Segment, no: nat, start: int, end: int)
    requires seg.len >= 0 && (seg.len == 0 || seg.base + seg.len - 1 < start || seg.base > end)
    ensures MeetingFrom(seg, no, start, end) == []
    decreases RowCount(seg.len) - no
  {
    if no < RowCount(seg.len) {
      MeetingNone(seg, no + 1, start, end);
    }
  }

  // A segment short enough for int4 row numbers.
  predicate Numbered(seg: Segment) { 0 <= seg.base && 0 <= seg.len <= MAX_FILE }

  // The pieces ask for exactly the rows that meet the range, each once and in
  // order, at most `step` rows to a piece.
  lemma {:induction false} PlanIsExact(segs: seq<Segment>, start: int, end: int, step: nat)
    requires 0 <= start <= end && forall i | 0 <= i < |segs| :: Numbered(segs[i])
    ensures Requested(Plan(segs, start, end, step)) == Meeting(segs, start, end)
    ensures forall p <- Plan(segs, start, end, step) :: 0 <= p.lo <= p.hi && p.hi - p.lo < Max(1, step)
  {
    if segs != [] {
      var seg := segs[0];
      PlanIsExact(segs[1..], start, end, step);
      var ps := PiecesOf(seg, start, end, step);
      FlatMapAppend((p: Piece) => RowRefs(p.file, p.base, p.lo, p.hi), ps, Plan(segs[1..], start, end, step));
      if seg.len <= 0 || seg.base + seg.len - 1 < start || seg.base > end {
        MeetingNone(seg, 0, start, end);
      } else {
        MeetingRows(seg, 0, start, end);
        PartRangesRows(seg, FirstRow(seg, start), LastRow(seg, end), step);
        PartRangesFit(FirstRow(seg, start), LastRow(seg, end), step);
      }
    }
  }

  // ---- one query per small span ----

  const SMALL_MAX: nat := 8 * 1024 * 1024
  const PART_ROWS: nat := SMALL_MAX / ROW_BYTES + 2

  // The longest span that is one piece wherever in a row it starts.
  const ONE_PIECE_MAX: nat := (PART_ROWS - 1) * ROW_BYTES + 1

  // A span of up to SMALL_MAX bytes inside a segment is a single piece, and so
  // is any span up to ONE_PIECE_MAX; a longer one, started on the last byte
  // of a row, is not. One row less per piece would already split SMALL_MAX.
  lemma SmallSpanIsOnePiece(seg: Segment, start: int, end: int)
    requires Numbered(seg) && seg.base <= start <= end < seg.base + seg.len
    ensures SMALL_MAX <= ONE_PIECE_MAX
    ensures end - start + 1 <= ONE_PIECE_MAX ==> |PiecesOf(seg, start, end, PART_ROWS)| == 1
    ensures end - start + 1 > ONE_PIECE_MAX && start == seg.base + ROW_BYTES - 1
        ==> |PiecesOf(seg, start, end, PART_ROWS)| > 1
    ensures end - start + 1 == SMALL_MAX && start == seg.base + ROW_BYTES - 1
        ==> |PiecesOf(seg, start, end, PART_ROWS - 1)| > 1
  {
    assert PART_ROWS == 1035;
    var first, last := FirstRow(seg, start), LastRow(seg, end);
    PartRangesCount(first, last, PART_ROWS);
    PartRangesCount(first, last, PART_ROWS - 1);
  }

  lemma PartRangesCount(first: int, last: int, step: nat)
    requires first <= last && 1 <= step <= I32_MAX
    ensures last - first < step ==> |PartRanges(first, last, step)| == 1
    ensures last - first >= step ==> |PartRanges(first, last, step)| > 1
  {
    assert PartRanges(first, last, step)[1..] == PartRanges(first + step, last, step);
  }
}
