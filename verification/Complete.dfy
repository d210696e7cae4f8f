// Completing a multipart upload: the listed parts against the recorded ones,
// and the metadata that publishes the part files (complete_upload and hex in
// db.rs).
module Completion {
  import opened Base
  import opened Objects

  // ---- lower-case hexadecimal ----

  function HexDigit(n: nat): char
    requires n < 16
  {
    if n < 10 then '0' + n as char else 'a' + (n - 10) as char
  }

  function Hex(bytes: seq<Byte>): string {
    if bytes == [] then "" else [HexDigit(bytes[0] / 16), HexDigit(bytes[0] % 16)] + Hex(bytes[1..])
  }

  lemma {:induction false} HexInjective(a: seq<Byte>, b: seq<Byte>)
    requires Hex(a) == Hex(b)
    ensures a == b
  {
    if a != [] && b != [] {
      assert Hex(a)[0] == Hex(b)[0] && Hex(a)[1] == Hex(b)[1];
      assert Hex(a)[2..] == Hex(a[1..]) && Hex(b)[2..] == Hex(b[1..]);
      HexInjective(a[1..], b[1..]);
      assert a == [a[0]] + a[1..] && b == [b[0]] + b[1..];
    }
  }

  // Two digits to a byte, the high one first.
  lemma {:induction false} HexIs(bytes: seq<Byte>)
    ensures |Hex(bytes)| == 2 * |bytes|
    ensures forall i | 0 <= i < |bytes| ::
      Hex(bytes)[2 * i] == "0123456789abcdef"[bytes[i] / 16] && Hex(bytes)[2 * i + 1] == "0123456789abcdef"[bytes[i] % 16]
  {
    if bytes != [] {
      HexIs(bytes[1..]);
      DigitIs(bytes[0] / 16);
      DigitIs(bytes[0] % 16);
      forall i | 0 < i < |bytes|
        ensures Hex(bytes)[2 * i] == "0123456789abcdef"[bytes[i] / 16]
             && Hex(bytes)[2 * i + 1] == "0123456789abcdef"[bytes[i] % 16]
      {
        assert Hex(bytes)[2 * i] == Hex(bytes[1..])[2 * (i - 1)];
        assert Hex(bytes)[2 * i + 1] == Hex(bytes[1..])[2 * (i - 1) + 1];
      }
    }
  }

  lemma DigitIs(n: nat)
    requires n < 16
    ensures HexDigit(n) == "0123456789abcdef"[n]
  {
  }

  // ---- validation ----

  // A recorded part, and a part as the client lists it.
  datatype PartRow = PartRow(no: int, file: nat, size: nat, sha: seq<Byte>)
  datatype Listed = Listed(no: int, etag: string)

  function AsListed(r: PartRow): Listed { Listed(r.no, Hex(r.sha)) }

  function AllListed(rows: seq<PartRow>): seq<Listed> {
    seq(|rows|, i requires 0 <= i < |rows| => AsListed(rows[i]))
  }

  // A stable sort by part number.
  function InsertByNo(x: Listed, s: seq<Listed>): seq<Listed> {
    if s == [] || x.no <= s[0].no then [x] + s else [s[0]] + InsertByNo(x, s[1..])
  }

  function SortByNo(s: seq<Listed>): seq<Listed> {
    if s == [] then [] else InsertByNo(s[0], SortByNo(s[1..]))
  }

  ghost predicate Ascending(s: seq<Listed>) { forall i, j | 0 <= i < j < |s| :: s[i].no <= s[j].no }

  // Part numbers are unique within an upload, so ORDER BY part_no is strict.
  ghost predicate Numbered(rows: seq<PartRow>) { forall i, j | 0 <= i < j < |rows| :: rows[i].no < rows[j].no }

  lemma {:induction false} InsertElements(x: Listed, s: seq<Listed>)
    ensures multiset(InsertByNo(x, s)) == multiset{x} + multiset(s)
  {
    if s != [] && x.no > s[0].no {
      InsertElements(x, s[1..]);
      assert s == [s[0]] + s[1..];
    }
  }

  lemma {:induction false} InsertSorts(x: Listed, s: seq<Listed>)
    requires Ascending(s)
    ensures Ascending(InsertByNo(x, s)) && multiset(InsertByNo(x, s)) == multiset{x} + multiset(s)
  {
    InsertElements(x, s);
    if s != [] && x.no > s[0].no {
      InsertSorts(x, s[1..]);
      var rest := InsertByNo(x, s[1..]);
      forall i | 0 <= i < |rest| ensures s[0].no <= rest[i].no {
        assert rest[i] in multiset(rest);
        assert rest[i] == x || rest[i] in s[1..];
      }
      AscendingFrom(s[0], rest);
    }
  }

  lemma AscendingFrom(x: Listed, s: seq<Listed>)
    requires Ascending(s) && forall i | 0 <= i < |s| :: x.no <= s[i].no
    ensures Ascending([x] + s)
  {
  }

  lemma {:induction false} SortSorts(s: seq<Listed>)
    ensures Ascending(SortByNo(s)) && multiset(SortByNo(s)) == multiset(s)
  {
    if s != [] {
      SortSorts(s[1..]);
      InsertSorts(s[0], SortByNo(s[1..]));
      assert s == [s[0]] + s[1..];
    }
  }

  lemma {:induction false} SortedIsUnique(s: seq<Listed>, rows: seq<PartRow>)
    requires Ascending(s) && Numbered(rows) && multiset(s) == multiset(AllListed(rows))
    ensures s == AllListed(rows)
  {
    var t := AllListed(rows);
    assert |s| == |multiset(s)| == |multiset(t)| == |t|;
    if s != [] {
      HeadsAgree(s, rows);
      TailsAgree(s, t);
      assert AllListed(rows[1..]) == t[1..];
      SortedIsUnique(s[1..], rows[1..]);
      assert s == [s[0]] + s[1..] && t == [t[0]] + t[1..];
    }
  }

  lemma TailsAgree(s: seq<Listed>, t: seq<Listed>)
    requires s != [] && t != [] && s[0] == t[0] && multiset(s) == multiset(t)
    ensures multiset(s[1..]) == multiset(t[1..])
  {
    assert s == [s[0]] + s[1..] && t == [t[0]] + t[1..];
    assert multiset(s) == multiset{s[0]} + multiset(s[1..]);
    assert multiset(t) == multiset{t[0]} + multiset(t[1..]);
    assert multiset(s[1..]) == multiset(s) - multiset{s[0]};
  }

  lemma HeadsAgree(s: seq<Listed>, rows: seq<PartRow>)
    requires Ascending(s) && Numbered(rows) && multiset(s) == multiset(AllListed(rows)) && s != [] && rows != []
    ensures s[0] == AllListed(rows)[0]
  {
    var t := AllListed(rows);
    assert s[0] in multiset(t) && t[0] in multiset(s);
    var i :| 0 <= i < |t| && t[i] == s[0];
    var j :| 0 <= j < |s| && s[j] == t[0];
    assert rows[0].no <= rows[i].no;
  }

  // Every recorded part listed exactly once with its ETag, in any order.
  ghost predicate Matches(listed: seq<Listed>, rows: seq<PartRow>) {
    listed != [] && multiset(listed) == multiset(AllListed(rows))
  }

  lemma ValidIffMatches(listed: seq<Listed>, rows: seq<PartRow>)
    requires Numbered(rows)
    ensures listed != [] && SortByNo(listed) == AllListed(rows) <==> Matches(listed, rows)
  {
    SortSorts(listed);
    if Matches(listed, rows) {
      SortedIsUnique(SortByNo(listed), rows);
    }
  }

  // Each recorded part listed, none twice, each under its ETag: that is what
  // passes.
  ghost predicate ListedOnce(listed: seq<Listed>, rows: seq<PartRow>) {
    && listed != []
    && (forall i, j | 0 <= i < j < |listed| :: listed[i].no != listed[j].no)
    && (forall l {:trigger IsRecorded(l, rows)} | l in listed :: IsRecorded(l, rows))
    && (forall r {:trigger IsNamed(r, listed)} | r in rows :: IsNamed(r, listed))
  }

  ghost predicate IsRecorded(l: Listed, rows: seq<PartRow>) { exists r <- rows :: r.no == l.no && Hex(r.sha) == l.etag }

  ghost predicate IsNamed(r: PartRow, listed: seq<Listed>) { exists l <- listed :: l.no == r.no }

  lemma {:induction false} Once<T>(s: seq<T>, x: T)
    requires forall i, j | 0 <= i < j < |s| :: s[i] != s[j]
    ensures multiset(s)[x] == if x in s then 1 else 0
  {
    if s != [] {
      Once(s[1..], x);
      assert s == [s[0]] + s[1..];
      assert s[0] !in s[1..];
    }
  }

  lemma AllListedOnce(rows: seq<PartRow>, x: Listed)
    requires Numbered(rows)
    ensures multiset(AllListed(rows))[x] == if exists r <- rows :: AsListed(r) == x then 1 else 0
  {
    var t := AllListed(rows);
    Once(t, x);
    if exists r <- rows :: AsListed(r) == x {
      var r :| r in rows && AsListed(r) == x;
      var i :| 0 <= i < |rows| && rows[i] == r;
      assert t[i] == x;
    }
  }

  lemma MatchesIff(listed: seq<Listed>, rows: seq<PartRow>)
    requires Numbered(rows)
    ensures Matches(listed, rows) <==> ListedOnce(listed, rows)
  {
    if Matches(listed, rows) {
      MatchesLists(listed, rows);
    }
    if ListedOnce(listed, rows) {
      forall x: Listed ensures multiset(listed)[x] == multiset(AllListed(rows))[x] {
        Once(listed, x);
        AllListedOnce(rows, x);
        ListsAlike(listed, rows, x);
      }
    }
  }

  lemma ListsAlike(listed: seq<Listed>, rows: seq<PartRow>, x: Listed)
    requires ListedOnce(listed, rows) && Numbered(rows)
    ensures x in listed <==> exists r <- rows :: AsListed(r) == x
  {
    if x in listed {
      assert IsRecorded(x, rows);
      var r :| r in rows && r.no == x.no && Hex(r.sha) == x.etag;
      assert AsListed(r) == x;
    } else {
      forall r <- rows ensures AsListed(r) != x {
        IsListed(listed, rows, r);
      }
    }
  }

  lemma IsListed(listed: seq<Listed>, rows: seq<PartRow>, r: PartRow)
    requires ListedOnce(listed, rows) && Numbered(rows) && r in rows
    ensures AsListed(r) in listed
  {
    assert IsNamed(r, listed);
    var l :| l in listed && l.no == r.no;
    assert IsRecorded(l, rows);
    var q :| q in rows && q.no == l.no && Hex(q.sha) == l.etag;
    SameNo(rows, q, r);
  }

  lemma SameNo(rows: seq<PartRow>, q: PartRow, r: PartRow)
    requires Numbered(rows) && q in rows && r in rows && q.no == r.no
    ensures q == r
  {
    var i :| 0 <= i < |rows| && rows[i] == q;
    var j :| 0 <= j < |rows| && rows[j] == r;
  }

  lemma MatchesLists(listed: seq<Listed>, rows: seq<PartRow>)
    requires Numbered(rows) && Matches(listed, rows)
    ensures ListedOnce(listed, rows)
  {
    forall l <- listed ensures IsRecorded(l, rows) {
      assert l in multiset(listed);
      AllListedOnce(rows, l);
      var r :| r in rows && AsListed(r) == l;
    }
    forall r <- rows ensures IsNamed(r, listed) {
      AllListedOnce(rows, AsListed(r));
      assert AsListed(r) in multiset(listed);
    }
    forall i, j | 0 <= i < j < |listed| ensures listed[i].no != listed[j].no {
      if listed[i].no == listed[j].no {
        TwiceListed(listed, rows, i, j);
      }
    }
  }

  lemma TwiceListed(listed: seq<Listed>, rows: seq<PartRow>, i: nat, j: nat)
    requires Numbered(rows) && Matches(listed, rows) && i < j < |listed|
    ensures listed[i].no != listed[j].no
  {
    var x, y := listed[i], listed[j];
    assert x in multiset(listed) && y in multiset(listed);
    AllListedOnce(rows, x);
    AllListedOnce(rows, y);
    var r :| r in rows && AsListed(r) == x;
    var q :| q in rows && AsListed(q) == y;
    if x == y {
      CountTwo(listed, i, j);
    } else if x.no == y.no {
      SameNo(rows, r, q);
    }
  }

  lemma CountTwo<T>(s: seq<T>, i: nat, j: nat)
    requires i < j < |s| && s[i] == s[j]
    ensures multiset(s)[s[i]] >= 2
  {
    var front := s[..j];
    assert s == front + [s[j]] + s[j + 1..] && front[i] == s[i];
    assert multiset(front)[s[i]] >= 1;
  }

  // ---- publication ----

  function Ids(rows: seq<PartRow>): seq<nat> {
    seq(|rows|, i requires 0 <= i < |rows| => rows[i].file)
  }

  function TotalSize(rows: seq<PartRow>): nat {
    if rows == [] then 0 else TotalSize(rows[..|rows| - 1]) + rows[|rows| - 1].size
  }

  function Ends(rows: seq<PartRow>): (ends: seq<int>)
    ensures |ends| == |rows|
  {
    if rows == [] then [] else Ends(rows[..|rows| - 1]) + [TotalSize(rows)]
  }

  // The hasher's input: the part hashes in order.
  function Shas(rows: seq<PartRow>): seq<Byte> {
    if rows == [] then [] else Shas(rows[..|rows| - 1]) + rows[|rows| - 1].sha
  }

  // The object as its ordered part files.
  function Published(rows: seq<PartRow>, etag: seq<Byte>): Meta
    requires rows != []
  {
    Meta(rows[0].file, TotalSize(rows), etag, Some(Ids(rows)), Some(Ends(rows)))
  }

  // Validation and the part list in one pass, as the source makes it.
  method ValidateParts(listed: seq<Listed>, rows: seq<PartRow>, digest: seq<Byte> -> seq<Byte>)
    returns (r: Option<Meta>)
    requires Numbered(rows)
    ensures r.Some? <==> Matches(listed, rows)
    ensures r.Some? ==> rows != [] && r.value == Published(rows, digest(Shas(rows)))
  {
    ValidIffMatches(listed, rows);
    var want := SortByNo(listed);
    SortKeepsLength(listed);
    if |want| == 0 || |want| != |rows| {
      return None;
    }
    var ids: seq<nat>, ends: seq<int>, size: nat, hashed: seq<Byte> := [], [], 0, [];
    for i := 0 to |rows|
      invariant Gathered(rows, i, ids, ends, size, hashed)
      invariant forall j | 0 <= j < i :: want[j] == AsListed(rows[j])
    {
      if want[i].no != rows[i].no || want[i].etag != Hex(rows[i].sha) {
        assert AllListed(rows)[i] == AsListed(rows[i]);
        return None;
      }
      GatherOne(rows, i, ids, ends, size, hashed);
      hashed := hashed + rows[i].sha;
      size := size + rows[i].size;
      ids := ids + [rows[i].file];
      ends := ends + [size];
    }
    assert rows[..|rows|] == rows;
    assert want == AllListed(rows);
    r := Some(Meta(ids[0], size, digest(hashed), Some(ids), Some(ends)));
  }

  lemma SortKeepsLength(s: seq<Listed>)
    ensures |SortByNo(s)| == |s|
  {
    SortSorts(s);
    assert |multiset(SortByNo(s))| == |multiset(s)|;
  }

  // What the pass has gathered from the first `i` parts.
  ghost predicate Gathered(rows: seq<PartRow>, i: nat, ids: seq<nat>, ends: seq<int>, size: nat, hashed: seq<Byte>) {
    && i <= |rows| && ids == Ids(rows[..i]) && ends == Ends(rows[..i])
    && size == TotalSize(rows[..i]) && hashed == Shas(rows[..i])
  }

  lemma GatherOne(rows: seq<PartRow>, i: nat, ids: seq<nat>, ends: seq<int>, size: nat, hashed: seq<Byte>)
    requires Gathered(rows, i, ids, ends, size, hashed) && i < |rows|
    ensures Gathered(
      rows, i + 1, ids + [rows[i].file], ends + [size + rows[i].size], size + rows[i].size, hashed + rows[i].sha)
  {
    OneMore(rows, i);
  }

  lemma OneMore(rows: seq<PartRow>, i: nat)
    requires i < |rows|
    ensures Ids(rows[..i + 1]) == Ids(rows[..i]) + [rows[i].file]
    ensures TotalSize(rows[..i + 1]) == TotalSize(rows[..i]) + rows[i].size
    ensures Ends(rows[..i + 1]) == Ends(rows[..i]) + [TotalSize(rows[..i + 1])]
    ensures Shas(rows[..i + 1]) == Shas(rows[..i]) + rows[i].sha
  {
    assert rows[..i + 1][..i] == rows[..i];
  }

  lemma {:induction false} EndAt(rows: seq<PartRow>, i: nat)
    requires i < |rows|
    ensures Ends(rows)[i] == TotalSize(rows[..i + 1])
    decreases |rows|
  {
    if i == |rows| - 1 {
      assert rows[..i + 1] == rows;
    } else {
      EndAt(rows[..|rows| - 1], i);
      assert rows[..|rows| - 1][..i + 1] == rows[..i + 1];
    }
  }

  // The published segments are the parts in number order, each starting where
  // the parts before it end, and they tile the object whatever their sizes.
  lemma PublishedTiles(rows: seq<PartRow>, etag: seq<Byte>, written: map<nat, seq<Byte>>)
    requires rows != []
    requires forall i | 0 <= i < |rows| :: rows[i].file in written && |written[rows[i].file]| == rows[i].size
    ensures |Segments(Published(rows, etag))| == |rows|
    ensures forall i | 0 <= i < |rows| ::
      Segments(Published(rows, etag))[i] == Segment(rows[i].file, TotalSize(rows[..i]), rows[i].size)
    ensures Tiled(Segments(Published(rows, etag)), written, TotalSize(rows))
    ensures var m := Published(rows, etag); m.fileId == rows[0].file && m.size == TotalSize(rows) && m.etag == etag
  {
    forall i | 0 <= i < |rows|
      ensures Segments(Published(rows, etag))[i] == Segment(rows[i].file, TotalSize(rows[..i]), rows[i].size)
    {
      SegmentIs(rows, etag, i);
    }
    PartsTile(rows, Segments(Published(rows, etag)), written);
  }

  lemma SegmentIs(rows: seq<PartRow>, etag: seq<Byte>, i: nat)
    requires i < |rows|
    ensures Segments(Published(rows, etag))[i] == Segment(rows[i].file, TotalSize(rows[..i]), rows[i].size)
  {
    EndAt(rows, i);
    OneMore(rows, i);
    if i > 0 {
      EndAt(rows, i - 1);
    }
  }

  lemma PartsTile(rows: seq<PartRow>, segs: seq<Segment>, written: map<nat, seq<Byte>>)
    requires |segs| == |rows|
    requires forall i | 0 <= i < |rows| :: rows[i].file in written && |written[rows[i].file]| == rows[i].size
    requires forall i | 0 <= i < |rows| :: segs[i] == Segment(rows[i].file, TotalSize(rows[..i]), rows[i].size)
    ensures Tiled(segs, written, TotalSize(rows))
  {
    forall i | 0 <= i <= |rows| ensures EndBefore(segs, i) == TotalSize(rows[..i]) {
      if i > 0 {
        OneMore(rows, i - 1);
      }
    }
    assert rows[..|rows|] == rows;
  }
}
