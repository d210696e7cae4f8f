// From the Range header to a byte interval (range_params and the 416 test in
// server.rs, eff_range in db.rs), against section 14.1.2 of RFC 9110.
module Ranges {
  import opened Base

  const TWO63: int := 0x8000_0000_0000_0000

  type U64 = n: int | 0 <= n < 0x1_0000_0000_0000_0000
  type I64 = n: int | -0x8000_0000_0000_0000 <= n < 0x8000_0000_0000_0000

  datatype Range = Int(first: U64, last: Option<U64>) | Suffix(length: U64)

  // `as i64`: the upper half wraps negative.
  function AsI64(n: U64): I64 { if n < TWO63 then n else n - 2 * TWO63 }

  // (first, last, suffix) as get() takes them.
  function RangeParams(range: Option<Range>): (I64, I64, I64) {
    match range
    case None => (0, -1, -1)
    case Some(Int(first, last)) => (AsI64(first), if last.Some? then AsI64(last.value) else -1, -1)
    case Some(Suffix(length)) => (0, -1, AsI64(length))
  }

  // Inclusive [start, end] of the object for a request.
  function EffRange(size: int, first: I64, last: I64, suffix: I64): (int, int) {
    if suffix >= 0 then (Max(size - suffix, 0), size - 1)
    else (Max(first, 0), if last >= 0 then Min(last, size - 1) else size - 1)
  }

  // get_object answers InvalidRange.
  predicate Unsatisfiable(size: int, start: int, end: int) { size > 0 && (start > end || start >= size) }

  datatype Served = Interval(start: int, end: int) | InvalidRange

  function Serve(size: I64, range: Option<Range>): Served {
    var (first, last, suffix) := RangeParams(range);
    var (start, end) := EffRange(size, first, last, suffix);
    if Unsatisfiable(size, start, end) then InvalidRange else Interval(start, end)
  }

  // RFC 9110, section 14.1.2: byte `b` of a representation of `size` bytes is
  // selected by the range.
  predicate Selects(size: int, range: Option<Range>, b: int) {
    0 <= b < size &&
    match range
    case None => true
    case Some(Int(first, last)) => first <= b && (last.Some? ==> b <= last.value)
    case Some(Suffix(length)) => size - length <= b
  }

  // Likewise: a first position within the representation, or some bytes of its end.
  predicate Satisfiable(size: int, range: Range) {
    match range
    case Int(first, _) => first < size
    case Suffix(length) => length > 0
  }

  // For a non-empty object those are the ranges that select anything.
  lemma SatisfiableIff(size: I64, range: Range)
    requires size > 0 && (range.Int? && range.last.Some? ==> range.first <= range.last.value)
    ensures Satisfiable(size, range) <==> exists b :: Selects(size, Some(range), b)
  {
    if Satisfiable(size, range) {
      assert Selects(size, Some(range), if range.Int? then range.first else size - 1);
    }
  }

  // The answer serves exactly the selected bytes, as an interval that a
  // Content-Range can name (section 14.4) if there is a range; it is
  // InvalidRange exactly when the range is not satisfiable.
  ghost predicate AsSpecified(size: I64, range: Option<Range>) {
    match Serve(size, range)
    case InvalidRange => range.Some? && !Satisfiable(size, range.value) && forall b :: !Selects(size, range, b)
    case Interval(start, end) =>
      && (size > 0 || range.Some? ==> 0 <= start <= end < size)
      && (range.Some? ==> Satisfiable(size, range.value))
      && forall b :: Selects(size, range, b) <==> start <= b <= end
  }

  // The answer is the specified one, wrapped casts included, unless the first
  // position itself wraps, when the whole object is served where nothing was
  // selected; or the object is empty, when any range is.
  lemma RangeIsSpecified(size: I64, range: Option<Range>)
    requires size >= 0
    requires range.Some? && range.value.Int? && range.value.last.Some? ==> range.value.first <= range.value.last.value
    ensures AsSpecified(size, range)
       <==> (range.Some? && range.value.Int? ==> range.value.first < TWO63) && (size > 0 || range.None?)
  {
    var served := Serve(size, range);
    if size == 0 {
      EmptyIsServed(range);
    } else if range.Some? && range.value.Int? && range.value.first >= TWO63 {
      assert served == Interval(0, size - 1);
      assert !Selects(size, range, 0);
    } else if served.Interval? {
      assert Selects(size, range, served.start) && Selects(size, range, served.end);
    }
  }

  // An empty object is served to any range, as an interval that ends before its
  // first byte. Nothing is selected, and all but a suffix of some bytes is
  // unsatisfiable.
  lemma EmptyIsServed(range: Option<Range>)
    ensures Serve(0, range)
         == Interval(if range.Some? && range.value.Int? && range.value.first < TWO63 then range.value.first else 0, -1)
    ensures forall b :: !Selects(0, range, b)
    ensures range.Some? ==> (Satisfiable(0, range.value) <==> range.value.Suffix? && range.value.length > 0)
  {
  }
}
