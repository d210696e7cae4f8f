// PostgreSQL's binary COPY format (PostgreSQL documentation, COPY, "Binary
// Format"), as written by the ingest path for the columns (file_id, no, data).
module CopyFormat {
  import opened Base

  const COPY_HEADER: seq<Byte> :=
    [0x50, 0x47, 0x43, 0x4f, 0x50, 0x59, 0x0a, 0xff, 0x0d, 0x0a, 0x00, 0, 0, 0, 0, 0, 0, 0, 0]
  const COPY_TRAILER: seq<Byte> := [0xff, 0xff]

  // One tuple of the stream.
  datatype Tuple = Tuple(file: nat, no: nat, data: seq<Byte>)

  function Pow256(w: nat): int
    ensures Pow256(w) >= 1
  {
    if w == 0 then 1 else 256 * Pow256(w - 1)
  }

  // Big-endian bytes of a nonnegative value, `w` wide; high bytes are cut.
  function Unsigned(w: nat, v: nat): (bs: seq<Byte>)
    ensures |bs| == w
  {
    seq(w, i requires 0 <= i < w => v / Pow256(w - 1 - i) % 256)
  }

  function UnsignedValue(bs: seq<Byte>): nat {
    if bs == [] then 0 else 256 * UnsignedValue(bs[..|bs| - 1]) + bs[|bs| - 1]
  }

  // The high byte comes first.
  lemma BigEndian(v: nat)
    ensures Unsigned(2, v) == [v / 0x100 % 0x100, v % 0x100]
    ensures Unsigned(4, v) == [v / 0x100_0000 % 0x100, v / 0x1_0000 % 0x100, v / 0x100 % 0x100, v % 0x100]
    ensures Unsigned(8, v)[..4] == Unsigned(4, v / 0x1_0000_0000) && Unsigned(8, v)[4..] == Unsigned(4, v)
  {
    Widths();
    assert Pow256(0) == 1;
    forall i | 0 <= i < 4 ensures Unsigned(8, v)[i] == Unsigned(4, v / 0x1_0000_0000)[i] {
      assert Pow256(7 - i) == 0x1_0000_0000 * Pow256(3 - i);
      DivideAgain(v, 0x1_0000_0000, Pow256(3 - i));
    }
  }

  lemma DivideAgain(v: nat, d: int, p: int)
    requires d >= 1 && p >= 1
    ensures v / (d * p) == v / d / p
  {
    var a, b, c := v / d, v / d / p, v / d % p;
    DivideParts(v, d);
    DivideParts(a, p);
    Distribute(d, p, b, c);
    NotNegative(d, p - 1 - c);
    NotNegative(d, c);
    assert d * (p - 1 - c) == d * p - d - d * c;
    NotNegative(d, p);
    QuotientIs(v, d * p, b, d * c + v % d);
  }

  lemma DivideParts(v: nat, d: int)
    requires d >= 1
    ensures v == d * (v / d) + v % d && 0 <= v % d < d
  {
  }

  lemma Distribute(d: int, p: int, b: int, c: int)
    ensures d * (p * b + c) == (d * p) * b + d * c
  {
  }

  // Two's complement.
  function SignedValue(bs: seq<Byte>): int {
    var u := UnsignedValue(bs);
    if 2 * u < Pow256(|bs|) then u else u - Pow256(|bs|)
  }

  // Values a signed field of `w` bytes can hold.
  ghost predicate InWidth(w: nat, v: nat) { 2 * v < Pow256(w) }

  lemma {:induction false} UnsignedRoundTrip(w: nat, v: nat)
    requires v < Pow256(w)
    ensures UnsignedValue(Unsigned(w, v)) == v
  {
    if w > 0 {
      UnsignedRoundTrip(w - 1, v / 256);
      UnsignedSnoc(w, v);
    }
  }

  lemma UnsignedSnoc(w: nat, v: nat)
    requires w > 0
    ensures Unsigned(w, v) == Unsigned(w - 1, v / 256) + [v % 256]
  {
    forall i | 0 <= i < w - 1 ensures Unsigned(w, v)[i] == Unsigned(w - 1, v / 256)[i] {
      DivideAgain(v, 256, Pow256(w - 2 - i));
      assert Pow256(w - 1 - i) == 256 * Pow256(w - 2 - i);
    }
    assert Pow256(0) == 1;
  }

  lemma QuotientIs(v: int, d: int, q: int, r: int)
    requires d > 0 && v == d * q + r && 0 <= r < d
    ensures v / d == q
  {
    var k := v / d - q;
    assert v == d * (v / d) + v % d;
    assert d * k == d * (v / d) - d * q;
    MultipleIsFar(d, k);
  }

  lemma MultipleIsFar(d: int, k: int)
    requires d > 0
    ensures k > 0 ==> d * k >= d
    ensures k < 0 ==> d * k <= -d
  {
    if k > 0 {
      NotNegative(d, k - 1);
    } else if k < 0 {
      NotNegative(d, -k - 1);
    }
  }

  lemma NotNegative(d: int, k: int)
    requires d > 0 && k >= 0
    ensures d * k >= 0
  {
  }

  lemma SignedRoundTrip(w: nat, v: nat)
    requires InWidth(w, v)
    ensures SignedValue(Unsigned(w, v)) == v
  {
    UnsignedRoundTrip(w, v);
  }

  ghost predicate Fits(t: Tuple) {
    InWidth(8, t.file) && InWidth(4, t.no) && InWidth(4, |t.data|)
  }

  // Field count, then each field behind its length.
  function EncodeTuple(t: Tuple): seq<Byte> {
    Unsigned(2, 3)
    + Unsigned(4, 8) + Unsigned(8, t.file)
    + Unsigned(4, 4) + Unsigned(4, t.no)
    + Unsigned(4, |t.data|) + t.data
  }

  function Encode(ts: seq<Tuple>): seq<Byte> { FlatMap(EncodeTuple, ts) }

  // What the server reads: the field at the front of `bs`, behind a length
  // that must be there; a negative length is a NULL, which no column allows.
  function Field(bs: seq<Byte>): (r: Option<(seq<Byte>, seq<Byte>)>)
    ensures r.Some? ==> |r.value.0| + |r.value.1| + 4 == |bs|
  {
    if |bs| < 4 then None else
    var n := SignedValue(bs[..4]);
    if n < 0 || |bs| < 4 + n then None else Some((bs[4..4 + n], bs[4 + n..]))
  }

  // The three columns behind a field count: int8, int4, bytea. File ids come
  // from a sequence and row numbers count up, so neither is negative.
  function Columns(bs: seq<Byte>): (r: Option<(Tuple, seq<Byte>)>)
    ensures r.Some? ==> |r.value.1| < |bs|
  {
    var f := Field(bs);
    if f.None? || |f.value.0| != 8 then None else
    var n := Field(f.value.1);
    if n.None? || |n.value.0| != 4 then None else
    var d := Field(n.value.1);
    var file, no := SignedValue(f.value.0), SignedValue(n.value.0);
    if d.None? || file < 0 || no < 0 then None else Some((Tuple(file, no, d.value.0), d.value.1))
  }

  // Tuples up to the trailer, which ends the stream.
  function ParseTuples(bs: seq<Byte>): Option<seq<Tuple>>
    decreases |bs|
  {
    if |bs| < 2 then None else
    var fields := SignedValue(bs[..2]);
    if fields == -1 then (if |bs| == 2 then Some([]) else None) else
    if fields != 3 then None else
    var t := Columns(bs[2..]);
    if t.None? then None else
    var rest := ParseTuples(t.value.1);
    if rest.None? then None else Some([t.value.0] + rest.value)
  }

  // The signature is "PGCOPY", a newline, 255, a carriage return, a newline and a
  // zero byte. A flags field follows, whose upper half are critical flags, and the
  // length of a header extension, which is skipped; then come the tuples.
  function Parse(bs: seq<Byte>): Option<seq<Tuple>> {
    if |bs| < 19 || bs[..11] != [80, 71, 67, 79, 80, 89, 10, 255, 13, 10, 0] then None else
    var flags, extension := SignedValue(bs[11..15]), SignedValue(bs[15..19]);
    if !(0 <= flags < 0x1_0000) || extension < 0 || |bs| < 19 + extension then None else
    ParseTuples(bs[19 + extension..])
  }

  // A header without flags or extension is read as such.
  lemma HeaderReads(body: seq<Byte>)
    ensures Parse(COPY_HEADER + body) == ParseTuples(body)
  {
    var bs := COPY_HEADER + body;
    assert bs[..11] == COPY_HEADER[..11] == [80, 71, 67, 79, 80, 89, 10, 255, 13, 10, 0];
    ZeroReads();
    assert bs[11..15] == [0, 0, 0, 0] && bs[15..19] == [0, 0, 0, 0];
    assert bs[19..] == body;
  }

  lemma ZeroReads()
    ensures SignedValue([0, 0, 0, 0]) == 0
  {
    Widths();
    var z: seq<Byte> := [0, 0, 0, 0];
    SignedRoundTrip(4, 0);
    assert Unsigned(4, 0) == z;
  }

  lemma FieldReads(w: nat, payload: seq<Byte>, rest: seq<Byte>)
    requires |payload| == w && InWidth(4, w)
    ensures Field(Unsigned(4, w) + payload + rest) == Some((payload, rest))
  {
    SignedRoundTrip(4, w);
    var bs := Unsigned(4, w) + payload + rest;
    assert bs[..4] == Unsigned(4, w);
    assert bs[4..4 + w] == payload && bs[4 + w..] == rest;
  }

  lemma Widths()
    ensures Pow256(2) == 0x1_0000 && Pow256(4) == 0x1_0000_0000
    ensures Pow256(8) == 0x1_0000_0000_0000_0000
  {
    assert Pow256(1) == 256;
    assert Pow256(2) == 0x1_0000;
    assert Pow256(3) == 0x100_0000;
    assert Pow256(4) == 0x1_0000_0000;
    assert Pow256(5) == 0x100_0000_0000;
    assert Pow256(6) == 0x1_0000_0000_0000;
    assert Pow256(7) == 0x100_0000_0000_0000;
  }

  lemma ColumnsRead(t: Tuple, rest: seq<Byte>)
    requires Fits(t)
    ensures Unsigned(2, 3) + (EncodeTuple(t) + rest)[2..] == EncodeTuple(t) + rest
    ensures Columns((EncodeTuple(t) + rest)[2..]) == Some((t, rest))
  {
    Widths();
    var data := Unsigned(4, |t.data|) + t.data + rest;
    var no := Unsigned(4, 4) + Unsigned(4, t.no) + data;
    var file := Unsigned(4, 8) + Unsigned(8, t.file) + no;
    assert EncodeTuple(t) + rest == Unsigned(2, 3) + file;
    FieldReads(8, Unsigned(8, t.file), no);
    FieldReads(4, Unsigned(4, t.no), data);
    FieldReads(|t.data|, t.data, rest);
    SignedRoundTrip(8, t.file);
    SignedRoundTrip(4, t.no);
  }

  lemma TupleReads(t: Tuple, rest: seq<Byte>)
    requires Fits(t) && ParseTuples(rest).Some?
    ensures ParseTuples(EncodeTuple(t) + rest) == Some([t] + ParseTuples(rest).value)
  {
    Widths();
    var bs := EncodeTuple(t) + rest;
    ColumnsRead(t, rest);
    SignedRoundTrip(2, 3);
    assert bs[..2] == Unsigned(2, 3);
    assert |EncodeTuple(t)| > 2;
  }

  lemma TrailerReads()
    ensures ParseTuples(COPY_TRAILER) == Some([])
  {
    Widths();
    assert COPY_TRAILER[..2] == COPY_TRAILER;
    assert COPY_TRAILER[..1] == [0xff];
    assert UnsignedValue(COPY_TRAILER[..1]) == 0xff;
    assert UnsignedValue(COPY_TRAILER) == 0xffff;
  }

  // The server reads back exactly the tuples that were framed.
  lemma ParseReadsEncode(ts: seq<Tuple>)
    requires forall t <- ts :: Fits(t)
    ensures Parse(COPY_HEADER + Encode(ts) + COPY_TRAILER) == Some(ts)
  {
    ParseTail(ts);
    HeaderReads(Encode(ts) + COPY_TRAILER);
    assert COPY_HEADER + Encode(ts) + COPY_TRAILER == COPY_HEADER + (Encode(ts) + COPY_TRAILER);
  }

  lemma {:induction false} ParseTail(ts: seq<Tuple>)
    requires forall t <- ts :: Fits(t)
    ensures ParseTuples(Encode(ts) + COPY_TRAILER) == Some(ts)
  {
    if ts == [] {
      assert Encode(ts) + COPY_TRAILER == COPY_TRAILER;
      TrailerReads();
    } else {
      var tail := Encode(ts[1..]) + COPY_TRAILER;
      ParseTail(ts[1..]);
      TupleReads(ts[0], tail);
      assert Encode(ts) == EncodeTuple(ts[0]) + Encode(ts[1..]);
      assert Encode(ts) + COPY_TRAILER == EncodeTuple(ts[0]) + tail;
      assert [ts[0]] + ts[1..] == ts;
    }
  }
}
