// What a page says of the keys: which are on it as objects, which under a
// common prefix, and which are left to the next.
module Pages {
  import opened Base
  import opened KeyOrder
  import opened Listing
  import opened TokenWalks

  // The delimiter is at position `i` of the key, behind the prefix.
  predicate OccursAt(key: string, prefix: string, delimiter: string, i: nat) {
    delimiter != "" && |prefix| <= i && i + |delimiter| <= |key| && key[i..i + |delimiter|] == delimiter
  }

  ghost predicate FirstAt(key: string, prefix: string, delimiter: string, i: nat) {
    OccursAt(key, prefix, delimiter, i) && forall j: nat | j < i :: !OccursAt(key, prefix, delimiter, j)
  }

  ghost predicate Occurs(key: string, prefix: string, delimiter: string) {
    exists i: nat :: OccursAt(key, prefix, delimiter, i)
  }

  lemma FindIs(s: string, d: string, i: nat)
    requires i + |d| <= |s|
    ensures s[i..i + |d|] == d <==> d <= s[i..]
  {
    assert s[i..][..|d|] == s[i..i + |d|];
  }

  // A key with the prefix is listed up to the end of the first delimiter behind
  // it, or else by itself.
  lemma ItemIs(row: Listed, prefix: string, delimiter: string)
    requires prefix <= row.key
    ensures !Occurs(row.key, prefix, delimiter) ==> ItemOf(row, prefix, delimiter) == Object(row)
    ensures forall i: nat | FirstAt(row.key, prefix, delimiter, i) ::
      ItemOf(row, prefix, delimiter) == Common(row.key[..i + |delimiter|])
    ensures Occurs(row.key, prefix, delimiter) ==>
      exists i: nat :: FirstAt(row.key, prefix, delimiter, i)
  {
    ItemOfStarting(row, prefix, delimiter);
    ItemFromIs(row, row.key[|prefix|..], prefix, delimiter, ItemOf(row, prefix, delimiter));
  }

  lemma ItemFromIs(row: Listed, rest: string, prefix: string, delimiter: string, x: Item)
    requires prefix <= row.key && rest == row.key[|prefix|..] && x == ItemFrom(row, rest, prefix, delimiter)
    ensures !Occurs(row.key, prefix, delimiter) ==> x == Object(row)
    ensures forall i: nat | FirstAt(row.key, prefix, delimiter, i) :: x == Common(row.key[..i + |delimiter|])
    ensures Occurs(row.key, prefix, delimiter) ==>
      exists i: nat :: FirstAt(row.key, prefix, delimiter, i)
  {
    var at := Find(rest, delimiter);
    if delimiter == "" {
    } else if at.Some? {
      var n := at.value + |prefix|;
      FoundAt(row.key, rest, prefix, delimiter, n);
      OneFirst(row.key, prefix, delimiter, n);
      CutBehind(row.key, prefix, rest, at.value + |delimiter|);
    } else {
      FoundNowhere(row.key, rest, prefix, delimiter);
    }
  }

  lemma FoundNowhere(key: string, rest: string, prefix: string, delimiter: string)
    requires |prefix| <= |key| && rest == key[|prefix|..] && Find(rest, delimiter).None?
    ensures !Occurs(key, prefix, delimiter)
  {
    forall i: nat ensures !OccursAt(key, prefix, delimiter, i) {
      if OccursAt(key, prefix, delimiter, i) {
        assert rest[i - |prefix|..] == key[i..];
        FindIs(key, delimiter, i);
      }
    }
  }

  lemma OneFirst(key: string, prefix: string, delimiter: string, n: nat)
    requires FirstAt(key, prefix, delimiter, n)
    ensures forall i: nat | FirstAt(key, prefix, delimiter, i) :: i == n
  {
    forall i: nat | FirstAt(key, prefix, delimiter, i) ensures i == n {
      assert !(i < n) && !(n < i);
    }
  }

  lemma CutBehind(key: string, prefix: string, rest: string, n: nat)
    requires prefix <= key && rest == key[|prefix|..] && n <= |rest|
    ensures prefix + rest[..n] == key[..|prefix| + n]
  {
    assert key == prefix + rest;
  }

  lemma FoundAt(key: string, rest: string, prefix: string, delimiter: string, n: nat)
    requires |prefix| <= |key| && rest == key[|prefix|..] && delimiter != "" && |prefix| <= n
    requires Find(rest, delimiter) == Some(n - |prefix|)
    ensures FirstAt(key, prefix, delimiter, n)
  {
    assert rest[n - |prefix|..n - |prefix| + |delimiter|] == key[n..n + |delimiter|];
    forall j: nat | j < n ensures !OccursAt(key, prefix, delimiter, j) {
      if OccursAt(key, prefix, delimiter, j) {
        assert rest[j - |prefix|..] == key[j..];
        FindIs(key, delimiter, j);
      }
    }
  }

  // ---- one page ----

  // The row comes before the one the page breaks off at.
  predicate BeforeCut(page: Page, r: Listed) { page.truncated ==> Less(r.key, page.token) }

  lemma {:induction false} ObjectsIn(items: seq<Item>, r: Listed)
    ensures r in Objects(items) <==> Object(r) in items
  {
    if items != [] {
      ObjectsIn(items[..|items| - 1], r);
      assert items == items[..|items| - 1] + [items[|items| - 1]];
    }
  }

  // What is on the page comes from the rows before the cut.
  lemma OnPageIff(
    rows: seq<Listed>, prefix: string, delimiter: string, max: nat, page: Page, x: Item)
    requires Sorted(rows) && PageOf(rows, prefix, delimiter, max, page)
    ensures (match x case Object(r) => r in page.contents case Common(p) => p in page.common)
       <==> exists r <- rows :: BeforeCut(page, r) && ItemOf(r, prefix, delimiter) == x
  {
    var c := Taken(rows, prefix, delimiter, max, 0);
    var front := rows[..c];
    PageIsPart(rows, prefix, delimiter, max, page);
    ItemsAreFrom(front, prefix, delimiter, x);
    match x {
      case Object(r) => ObjectsIn(Items(front, prefix, delimiter), r);
      case Common(p) => CommonsIn(Items(front, prefix, delimiter), p);
    }
    forall i | 0 <= i < |rows| ensures BeforeCut(page, rows[i]) <==> i < c {
      CutAt(rows, page, c, i);
    }
    if From(front, prefix, delimiter, x) {
      var i :| 0 <= i < |front| && ItemOf(front[i], prefix, delimiter) == x;
      assert front[i] == rows[i];
    }
    if exists r <- rows :: BeforeCut(page, r) && ItemOf(r, prefix, delimiter) == x {
      var r :| r in rows && BeforeCut(page, r) && ItemOf(r, prefix, delimiter) == x;
      var i :| 0 <= i < |rows| && rows[i] == r;
      assert front[i] == r;
    }
  }

  lemma CutAt(rows: seq<Listed>, page: Page, c: nat, i: nat)
    requires Sorted(rows) && i < |rows| && (page.truncated <==> c < |rows|) && c <= |rows|
    requires page.truncated ==> page.token == rows[c].key
    ensures BeforeCut(page, rows[i]) <==> i < c
  {
    if page.truncated && c <= i {
      Asymmetric(Codes(rows[c].key), Codes(rows[i].key));
    }
  }

  // Of the rows with the prefix, exactly those without a delimiter behind it
  // are among the contents, and those with one under their key up to its end;
  // in either case if they come before the cut.
  lemma RowListed(rows: seq<Listed>, prefix: string, delimiter: string, max: nat, page: Page, r: Listed)
    requires Sorted(rows) && PageOf(rows, prefix, delimiter, max, page) && r in rows && prefix <= r.key
    ensures Occurs(r.key, prefix, delimiter) ==> r !in page.contents
    ensures !Occurs(r.key, prefix, delimiter) ==> (r in page.contents <==> BeforeCut(page, r))
    ensures forall i: nat | FirstAt(r.key, prefix, delimiter, i) && BeforeCut(page, r) ::
      r.key[..i + |delimiter|] in page.common
  {
    ItemIs(r, prefix, delimiter);
    OnPageIff(rows, prefix, delimiter, max, page, Object(r));
    OnPageIff(rows, prefix, delimiter, max, page, ItemOf(r, prefix, delimiter));
    if r in page.contents {
      var q :| q in rows && BeforeCut(page, q) && ItemOf(q, prefix, delimiter) == Object(r);
      assert q == r;
    }
  }

  // And nothing else is on it.
  lemma ContentsAre(rows: seq<Listed>, prefix: string, delimiter: string, max: nat, page: Page, r: Listed)
    requires Sorted(rows) && PageOf(rows, prefix, delimiter, max, page) && r in page.contents
    ensures r in rows && BeforeCut(page, r)
  {
    OnPageIff(rows, prefix, delimiter, max, page, Object(r));
    var q :| q in rows && BeforeCut(page, q) && ItemOf(q, prefix, delimiter) == Object(r);
  }

  lemma CommonAre(rows: seq<Listed>, prefix: string, delimiter: string, max: nat, page: Page, p: string)
    returns (r: Listed, i: nat)
    requires Sorted(rows) && AllStart(rows, prefix) && PageOf(rows, prefix, delimiter, max, page) && p in page.common
    ensures r in rows && BeforeCut(page, r) && FirstAt(r.key, prefix, delimiter, i) && p == r.key[..i + |delimiter|]
  {
    OnPageIff(rows, prefix, delimiter, max, page, Common(p));
    r :| r in rows && BeforeCut(page, r) && ItemOf(r, prefix, delimiter) == Common(p);
    var n :| 0 <= n < |rows| && rows[n] == r;
    i := Rolled(r, prefix, delimiter, p);
  }

  lemma Rolled(r: Listed, prefix: string, delimiter: string, p: string) returns (i: nat)
    requires prefix <= r.key && ItemOf(r, prefix, delimiter) == Common(p)
    ensures FirstAt(r.key, prefix, delimiter, i) && p == r.key[..i + |delimiter|]
  {
    ItemIs(r, prefix, delimiter);
    i :| FirstAt(r.key, prefix, delimiter, i);
  }

  // ---- how much is on it, and in which order ----

  lemma {:induction false} ObjectsAscend(items: seq<Item>)
    requires Ascending(items)
    ensures Sorted(Objects(items))
  {
    if items != [] {
      var n := |items| - 1;
      ObjectsAscend(items[..n]);
      forall r <- Objects(items[..n]) ensures Less(r.key, Label(items[n])) {
        ObjectsIn(items[..n], r);
        var i :| 0 <= i < n && items[i] == Object(r);
      }
    }
  }

  lemma {:induction false} CommonsAscend(items: seq<Item>)
    requires Ascending(items)
    ensures forall i, j | 0 <= i < j < |Commons(items)| :: Less(Commons(items)[i], Commons(items)[j])
  {
    if items != [] {
      var n := |items| - 1;
      CommonsAscend(items[..n]);
      forall p <- Commons(items[..n]) ensures Less(p, Label(items[n])) {
        CommonsIn(items[..n], p);
        var i :| 0 <= i < n && items[i] == Common(p);
      }
    }
  }

  lemma {:induction false} Overflows(rows: seq<Listed>, prefix: string, delimiter: string, max: nat, n: nat)
    requires n <= |rows|
    ensures var c := Taken(rows, prefix, delimiter, max, n);
      c < |rows| ==> |ItemsTo(rows, prefix, delimiter, c + 1)| > max
    decreases |rows| - n
  {
    if n < |rows| && |Items(rows[..n + 1], prefix, delimiter)| <= max {
      Overflows(rows, prefix, delimiter, max, n + 1);
    }
  }

  lemma BreaksOff(rows: seq<Listed>, prefix: string, delimiter: string, max: nat)
    requires |Items(rows, prefix, delimiter)| > max
    ensures var c := Taken(rows, prefix, delimiter, max, 0);
      c < |rows| && ItemOf(rows[c], prefix, delimiter) !in ItemsTo(rows, prefix, delimiter, c)
  {
    var c := Taken(rows, prefix, delimiter, max, 0);
    assert rows[..0] == [];
    TakenIs(rows, prefix, delimiter, max, 0);
    Overflows(rows, prefix, delimiter, max, 0);
    assert rows[..c + 1][..c] == rows[..c];
  }

  // Both lists ascend, so that nothing is twice on the page. It holds up to
  // `max` entries, and just `max` if it breaks off.
  lemma PageFills(rows: seq<Listed>, prefix: string, delimiter: string, max: nat, page: Page)
    requires Sorted(rows) && AllStart(rows, prefix) && PageOf(rows, prefix, delimiter, max, page)
    ensures Sorted(page.contents)
    ensures forall i, j | 0 <= i < j < |page.common| :: Less(page.common[i], page.common[j])
    ensures |page.contents| + |page.common| <= max
    ensures page.truncated ==> |page.contents| + |page.common| == max
  {
    var items := Items(rows, prefix, delimiter);
    var first := items[..Min(max, |items|)];
    ItemsAscend(rows, prefix, delimiter);
    ObjectsAscend(first);
    CommonsAscend(first);
    Counted(first);
  }

  // It breaks off at the first row that would make one more.
  lemma TokenIs(rows: seq<Listed>, prefix: string, delimiter: string, max: nat, page: Page)
    returns (r: Listed)
    requires Sorted(rows) && AllStart(rows, prefix) && PageOf(rows, prefix, delimiter, max, page) && page.truncated
    ensures r in rows && r.key == page.token && r !in page.contents
    ensures forall i: nat | FirstAt(r.key, prefix, delimiter, i) :: r.key[..i + |delimiter|] !in page.common
  {
    var c := Taken(rows, prefix, delimiter, max, 0);
    var items := Items(rows[..c], prefix, delimiter);
    r := rows[c];
    PageIsPart(rows, prefix, delimiter, max, page);
    BreaksOff(rows, prefix, delimiter, max);
    NotListedYet(rows, prefix, delimiter, c);
    ObjectsIn(items, r);
    ItemIs(r, prefix, delimiter);
    forall i: nat | FirstAt(r.key, prefix, delimiter, i) ensures r.key[..i + |delimiter|] !in page.common {
      CommonsIn(items, r.key[..i + |delimiter|]);
    }
  }
}
