// Bytes, options, and the fixed-size rows every stored file is cut into.
module Base {
  type Byte = b: int | 0 <= b < 256

  datatype Option<+T> = None | Some(value: T)

  // Row payload in bytes: one row per 8 KB page.
  const ROW_BYTES: int := 8120

  // Row numbers are int4, which bounds the length of one file.
  const I32_MAX: int := 0x7fff_ffff
  const MAX_FILE: int := (I32_MAX + 1) * ROW_BYTES

  function Min(a: int, b: int): int { if a < b then a else b }

  function Max(a: int, b: int): int { if a < b then b else a }

  function Lookup<K, V>(m: map<K, V>, k: K): Option<V> {
    if k in m then Some(m[k]) else None
  }

  function Flatten<T>(ss: seq<seq<T>>): seq<T> {
    if ss == [] then [] else Flatten(ss[..|ss| - 1]) + ss[|ss| - 1]
  }

  lemma FlattenSnoc<T>(ss: seq<seq<T>>, s: seq<T>)
    ensures Flatten(ss + [s]) == Flatten(ss) + s
  {
    assert (ss + [s])[..|ss|] == ss;
  }

  lemma {:induction false} FlattenHead<T>(ss: seq<seq<T>>)
    requires ss != []
    ensures ss[0] <= Flatten(ss)
  {
    var n := |ss| - 1;
    if n > 0 {
      FlattenHead(ss[..n]);
      assert ss[..n][0] == ss[0];
    } else {
      assert Flatten(ss[..n]) == [];
    }
  }

  lemma Element<T>(s: set<T>) returns (x: T)
    requires s != {}
    ensures x in s
  {
    x :| x in s;
  }

  function FlatMap<A, B>(f: A -> seq<B>, s: seq<A>): seq<B> {
    if s == [] then [] else f(s[0]) + FlatMap(f, s[1..])
  }

  lemma {:induction false} FlatMapAppend<A, B>(f: A -> seq<B>, a: seq<A>, b: seq<A>)
    ensures FlatMap(f, a + b) == FlatMap(f, a) + FlatMap(f, b)
  {
    if a == [] {
      assert a + b == b;
    } else {
      FlatMapAppend(f, a[1..], b);
      assert (a + b)[1..] == a[1..] + b;
    }
  }

  // Rows needed for `len` bytes.
  function RowCount(len: nat): nat { (len + ROW_BYTES - 1) / ROW_BYTES }

  // Row `no` of a file holding `data`.
  function RowAt(data: seq<Byte>, no: nat): seq<Byte>
    requires no < RowCount(|data|)
  {
    data[no * ROW_BYTES..Min((no + 1) * ROW_BYTES, |data|)]
  }

  function RowsOf(data: seq<Byte>): seq<seq<Byte>> {
    seq(RowCount(|data|), no requires 0 <= no < RowCount(|data|) => RowAt(data, no))
  }

  // The rows of a file, read in order, are the file.
  lemma RowsRebuild(data: seq<Byte>)
    ensures Flatten(RowsOf(data)) == data
  {
    RowsRebuildTo(data, RowCount(|data|));
    assert RowsOf(data)[..RowCount(|data|)] == RowsOf(data);
  }

  lemma {:induction false} RowsRebuildTo(data: seq<Byte>, k: nat)
    requires k <= RowCount(|data|)
    ensures Flatten(RowsOf(data)[..k]) == data[..Min(k * ROW_BYTES, |data|)]
  {
    if k > 0 {
      RowsRebuildTo(data, k - 1);
      assert RowsOf(data)[..k][..k - 1] == RowsOf(data)[..k - 1];
    }
  }
}
