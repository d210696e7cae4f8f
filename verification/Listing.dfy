// ListObjectsV2: a batched key scan with delimiter roll-up (listing_step and
// list_objects_v2 in server.rs, list in db.rs), and walks along its tokens.
module Listing {
  import opened Base
  import opened KeyOrder

  datatype Listed = Listed(key: string, size: int, etag: seq<Byte>)

  // ---- the scan ----

  ghost predicate Sorted(keys: seq<Listed>) { forall i, j | 0 <= i < j < |keys| :: Less(keys[i].key, keys[j].key) }

  // WHERE key >= prefix AND key < prefix_end AND key > after ORDER BY key.
  function Rows(keys: seq<Listed>, prefix: string, after: string): seq<Listed> {
    if keys == [] then [] else
    (if InRange(keys[0].key, prefix) && Less(after, keys[0].key) then [keys[0]] else []) + Rows(keys[1..], prefix, after)
  }

  lemma {:induction false} Transitive(a: seq<int>, b: seq<int>, c: seq<int>)
    requires Before(a, b) && Before(b, c)
    ensures Before(a, c)
  {
    if a != [] && a[0] == b[0] == c[0] {
      Transitive(a[1..], b[1..], c[1..]);
    }
  }

  lemma {:induction false} RowsAre(keys: seq<Listed>, prefix: string, after: string)
    requires Sorted(keys)
    ensures Sorted(Rows(keys, prefix, after))
    ensures forall r <- Rows(keys, prefix, after) :: r in keys && InRange(r.key, prefix) && Less(after, r.key)
    ensures forall r <- keys :: InRange(r.key, prefix) && Less(after, r.key) ==> r in Rows(keys, prefix, after)
  {
    if keys != [] {
      RowsAre(keys[1..], prefix, after);
      assert keys == [keys[0]] + keys[1..];
      forall r <- keys[1..] ensures Less(keys[0].key, r.key) {
        var i :| 0 <= i < |keys[1..]| && keys[1..][i] == r;
        assert keys[i + 1] == r;
      }
    }
  }

  // What a listing promises: the keys with the prefix, behind the cursor.
  function Starting(keys: seq<Listed>, prefix: string, after: string): seq<Listed> {
    if keys == [] then [] else
    (if prefix <= keys[0].key && Less(after, keys[0].key) then [keys[0]] else []) + Starting(keys[1..], prefix, after)
  }

  lemma {:induction false} StartingAre(keys: seq<Listed>, prefix: string, after: string)
    ensures forall r :: r in Starting(keys, prefix, after) <==> r in keys && prefix <= r.key && Less(after, r.key)
  {
    if keys != [] {
      StartingAre(keys[1..], prefix, after);
      assert keys == [keys[0]] + keys[1..];
    }
  }

  ghost predicate NoneStray(keys: seq<Listed>, prefix: string, after: string) {
    forall r <- keys :: Less(after, r.key) ==> !Stray(r.key, prefix)
  }

  // The scan gives them just when no key behind the cursor is one that it gets wrong.
  lemma ScansStarting(keys: seq<Listed>, prefix: string, after: string)
    requires Sorted(keys)
    ensures Rows(keys, prefix, after) == Starting(keys, prefix, after) <==> NoneStray(keys, prefix, after)
  {
    RowsAre(keys, prefix, after);
    StartingAre(keys, prefix, after);
    if NoneStray(keys, prefix, after) {
      NoneStrayed(keys, prefix, after);
    }
  }

  lemma {:induction false} NoneStrayed(keys: seq<Listed>, prefix: string, after: string)
    requires NoneStray(keys, prefix, after)
    ensures Rows(keys, prefix, after) == Starting(keys, prefix, after)
  {
    if keys != [] {
      NoneStrayed(keys[1..], prefix, after);
    }
  }

  // For most prefixes that is whatever the keys are.
  lemma ScannableStrays(keys: seq<Listed>, prefix: string, after: string)
    requires Scannable(prefix)
    ensures NoneStray(keys, prefix, after)
  {
    forall r <- keys ensures !Stray(r.key, prefix) {
      ScanIsExact(prefix, r.key);
    }
  }

  lemma {:induction false} RowsSame(keys: seq<Listed>, prefix: string, a: string, b: string)
    requires forall r <- keys :: Less(a, r.key) <==> Less(b, r.key)
    ensures Rows(keys, prefix, a) == Rows(keys, prefix, b)
  {
    if keys != [] {
      RowsSame(keys[1..], prefix, a, b);
    }
  }

  lemma RowsSplit(keys: seq<Listed>, prefix: string, after: string)
    requires keys != []
    ensures Rows(keys, prefix, after) == (if InRange(keys[0].key, prefix) && Less(after, keys[0].key) then [keys[0]] else [])
      + Rows(keys[1..], prefix, after)
  {
  }

  lemma HeadIsLeast(keys: seq<Listed>)
    requires Sorted(keys) && keys != []
    ensures Sorted(keys[1..]) && forall r <- keys[1..] :: Less(keys[0].key, r.key)
  {
    forall r <- keys[1..] ensures Less(keys[0].key, r.key) {
      var j :| 0 <= j < |keys[1..]| && keys[1..][j] == r;
      assert keys[j + 1] == r;
    }
  }

  // Resuming after a scanned key gives the rows behind it.
  lemma {:induction false} RowsAfter(keys: seq<Listed>, prefix: string, after: string, i: nat)
    requires Sorted(keys) && i < |Rows(keys, prefix, after)|
    ensures Rows(keys, prefix, Rows(keys, prefix, after)[i].key) == Rows(keys, prefix, after)[i + 1..]
  {
    var head, rest := keys[0], keys[1..];
    var rows, behind := Rows(keys, prefix, after), Rows(rest, prefix, after);
    HeadIsLeast(keys);
    RowsSplit(keys, prefix, after);
    RowsSplit(keys, prefix, rows[i].key);
    if rows == [head] + behind {
      AfterHead(keys, prefix, after, i);
      if i == 0 {
        assert rows[1..] == behind;
      } else {
        RowsAfter(rest, prefix, after, i - 1);
        assert rows[i + 1..] == behind[i..];
      }
    } else {
      AfterRest(keys, prefix, after, i);
      RowsAfter(rest, prefix, after, i);
    }
  }

  lemma AfterHead(keys: seq<Listed>, prefix: string, after: string, i: nat)
    requires Sorted(keys) && keys != [] && Less(after, keys[0].key)
    requires i < |[keys[0]] + Rows(keys[1..], prefix, after)|
    ensures var rows := [keys[0]] + Rows(keys[1..], prefix, after);
      && !Less(rows[i].key, keys[0].key)
      && (i == 0 ==> Rows(keys[1..], prefix, rows[i].key) == Rows(keys[1..], prefix, after))
  {
    var head, rest := keys[0], keys[1..];
    HeadIsLeast(keys);
    RowsAre(rest, prefix, after);
    if i == 0 {
      Asymmetric(Codes(head.key), Codes(head.key));
      forall r <- rest ensures Less(after, r.key) {
        Transitive(Codes(after), Codes(head.key), Codes(r.key));
      }
      RowsSame(rest, prefix, after, head.key);
    } else {
      var r := Rows(rest, prefix, after)[i - 1];
      assert r in Rows(rest, prefix, after);
      Asymmetric(Codes(head.key), Codes(r.key));
    }
  }

  lemma AfterRest(keys: seq<Listed>, prefix: string, after: string, i: nat)
    requires Sorted(keys) && keys != [] && !(InRange(keys[0].key, prefix) && Less(after, keys[0].key))
    requires i < |Rows(keys[1..], prefix, after)|
    ensures !(InRange(keys[0].key, prefix) && Less(Rows(keys[1..], prefix, after)[i].key, keys[0].key))
  {
    var token := Rows(keys[1..], prefix, after)[i];
    HeadIsLeast(keys);
    RowsAre(keys[1..], prefix, after);
    assert token in Rows(keys[1..], prefix, after);
    Asymmetric(Codes(token.key), Codes(keys[0].key));
  }

  // One query.
  function List(keys: seq<Listed>, prefix: string, after: string, limit: nat): seq<Listed> {
    var rows := Rows(keys, prefix, after);
    rows[..Min(limit, |rows|)]
  }

  // ---- the specification: keys rolled up to their common prefix, without repeats ----

  datatype Item = Object(row: Listed) | Common(prefix: string)

  // The first occurrence of `d` in `s`.
  function Find(s: string, d: string): (r: Option<nat>)
    ensures r.Some? ==> r.value + |d| <= |s| && s[r.value..r.value + |d|] == d
    ensures r.Some? ==> forall i: nat | i < r.value :: !(d <= s[i..])
    ensures r.None? ==> forall i: nat | i <= |s| :: !(d <= s[i..])
  {
    if d <= s then Some(0) else
    if s == [] then None else
    var r := Find(s[1..], d);
    assert forall i: nat | 0 < i <= |s| :: s[i..] == s[1..][i - 1..];
    if r.Some? then Some(r.value + 1) else None
  }

  // The item of a row whose key goes on with `rest`.
  function ItemFrom(row: Listed, rest: string, prefix: string, delimiter: string): Item {
    if delimiter == "" || Find(rest, delimiter).None? then Object(row) else
    Common(prefix + rest[..Find(rest, delimiter).value + |delimiter|])
  }

  // The key without its first `n` bytes; None is a panic, past its end or
  // inside a character.
  function Rest(key: string, n: nat): Option<string>
    decreases |key|
  {
    if n == 0 then Some(key) else
    if key == "" || Width(key[0]) > n then None else Rest(key[1..], n - Width(key[0]))
  }

  // It is what the bytes say.
  lemma {:induction false} RestIs(key: string, n: nat)
    ensures var rest := Rest(key, n); rest.Some? ==> n <= |Utf8(key)| && Utf8(key)[n..] == Utf8(rest.value)
    decreases |key|
  {
    if n > 0 && key != "" && Width(key[0]) <= n {
      RestIs(key[1..], n - Width(key[0]));
    }
  }

  // It panics unless the cut is between characters.
  lemma {:induction false} RestIff(key: string, n: nat)
    ensures Rest(key, n).Some? <==> exists i | 0 <= i <= |key| :: |Utf8(key[..i])| == n
    decreases |key|
  {
    assert |Utf8(key[..0])| == 0;
    if n > 0 && key != "" {
      var c := Width(key[0]);
      assert forall i | 0 < i <= |key| :: key[..i][1..] == key[1..][..i - 1];
      if c <= n {
        RestIff(key[1..], n - c);
        if Rest(key, n).Some? {
          var i :| 0 <= i < |key| && |Utf8(key[1..][..i])| == n - c;
          assert |Utf8(key[..i + 1])| == n;
        }
      }
    }
  }

  // Past a prefix it is what follows it.
  lemma {:induction false} RestOfPrefix(key: string, prefix: string)
    requires prefix <= key
    ensures Rest(key, ByteLength(prefix)) == Some(key[|prefix|..])
  {
    if prefix != "" {
      RestOfPrefix(key[1..], prefix[1..]);
      assert key[1..][|prefix| - 1..] == key[|prefix|..];
    }
  }

  // What the listing makes of the row. A key that cannot be cut is an object
  // here; no page gets to it.
  function ItemOf(row: Listed, prefix: string, delimiter: string): Item {
    match Rest(row.key, ByteLength(prefix))
    case Some(rest) => ItemFrom(row, rest, prefix, delimiter)
    case None => Object(row)
  }

  predicate Cuts(row: Listed, prefix: string) { Rest(row.key, ByteLength(prefix)).Some? }

  // With the prefix it is what the prefix leaves.
  lemma ItemOfStarting(row: Listed, prefix: string, delimiter: string)
    requires prefix <= row.key
    ensures Cuts(row, prefix)
    ensures ItemOf(row, prefix, delimiter) == ItemFrom(row, row.key[|prefix|..], prefix, delimiter)
  {
    RestOfPrefix(row.key, prefix);
  }

  predicate AllStart(rows: seq<Listed>, prefix: string) { forall i | 0 <= i < |rows| :: prefix <= rows[i].key }

  function Items(rows: seq<Listed>, prefix: string, delimiter: string): seq<Item>
  {
    if rows == [] then [] else
    var n := |rows| - 1;
    var front, item := Items(rows[..n], prefix, delimiter), ItemOf(rows[n], prefix, delimiter);
    if item in front then front else front + [item]
  }

  // The roll-up of the first `n` rows.
  function ItemsTo(rows: seq<Listed>, prefix: string, delimiter: string, n: nat): seq<Item>
    requires n <= |rows|
  {
    Items(rows[..n], prefix, delimiter)
  }

  // A response gives objects and common prefixes apart.
  function Objects(items: seq<Item>): seq<Listed> {
    if items == [] then [] else
    Objects(items[..|items| - 1]) + match items[|items| - 1] { case Object(r) => [r] case Common(_) => [] }
  }

  function Commons(items: seq<Item>): seq<string> {
    if items == [] then [] else
    Commons(items[..|items| - 1]) + match items[|items| - 1] { case Object(_) => [] case Common(p) => [p] }
  }

  lemma {:induction false} Counted(items: seq<Item>)
    ensures |Objects(items)| + |Commons(items)| == |items|
  {
    if items != [] {
      Counted(items[..|items| - 1]);
    }
  }

  lemma {:induction false} CommonsIn(items: seq<Item>, p: string)
    ensures p in Commons(items) <==> Common(p) in items
  {
    if items != [] {
      CommonsIn(items[..|items| - 1], p);
      assert items == items[..|items| - 1] + [items[|items| - 1]];
    }
  }

  lemma Snoc(items: seq<Item>, x: Item)
    ensures Objects(items + [x]) == Objects(items) + match x { case Object(r) => [r] case Common(_) => [] }
    ensures Commons(items + [x]) == Commons(items) + match x { case Object(_) => [] case Common(p) => [p] }
  {
    assert (items + [x])[..|items|] == items;
  }

  // ---- one page ----

  // Rows taken before the page would overflow.
  function Taken(rows: seq<Listed>, prefix: string, delimiter: string, max: nat, n: nat): (c: nat)
    requires n <= |rows|
    ensures n <= c <= |rows|
    decreases |rows| - n
  {
    if n == |rows| || |Items(rows[..n + 1], prefix, delimiter)| > max then n
    else Taken(rows, prefix, delimiter, max, n + 1)
  }

  lemma {:induction false} ItemsGrow(rows: seq<Listed>, prefix: string, delimiter: string, n: nat)
    requires n <= |rows|
    ensures Items(rows[..n], prefix, delimiter) <= Items(rows, prefix, delimiter)
    decreases |rows|
  {
    if n < |rows| {
      ItemsGrow(rows[..|rows| - 1], prefix, delimiter, n);
      assert rows[..|rows| - 1][..n] == rows[..n];
    } else {
      assert rows[..n] == rows;
    }
  }

  // A page's rows are the first `max` items, and it overflows iff there are more.
  lemma {:induction false} TakenIs(rows: seq<Listed>, prefix: string, delimiter: string, max: nat, n: nat)
    requires n <= |rows| && |Items(rows[..n], prefix, delimiter)| <= max
    ensures var c, items := Taken(rows, prefix, delimiter, max, n), Items(rows, prefix, delimiter);
      && Items(rows[..c], prefix, delimiter) == items[..Min(max, |items|)]
      && (c < |rows| <==> |items| > max)
    decreases |rows| - n
  {
    if n == |rows| {
      assert rows[..n] == rows;
    } else if |Items(rows[..n + 1], prefix, delimiter)| > max {
      assert rows[..n + 1][..n] == rows[..n];
      ItemsGrow(rows, prefix, delimiter, n);
      ItemsGrow(rows, prefix, delimiter, n + 1);
    } else {
      TakenIs(rows, prefix, delimiter, max, n + 1);
    }
  }

  datatype Page = Page(contents: seq<Listed>, common: seq<string>, truncated: bool, token: string)

  // The items on the page so far.
  ghost predicate OnPage(items: seq<Item>, contents: seq<Listed>, common: seq<string>, seen: set<string>) {
    contents == Objects(items) && common == Commons(items) && forall p :: p in seen <==> Common(p) in items
  }

  lemma OneMore(items: seq<Item>, x: Item, contents: seq<Listed>, common: seq<string>, seen: set<string>)
    requires OnPage(items, contents, common, seen)
    ensures |contents| + |common| == |items|
    ensures match x
      case Object(r) => OnPage(items + [x], contents + [r], common, seen)
      case Common(p) => OnPage(items + [x], contents, common + [p], seen + {p})
  {
    Counted(items);
    Snoc(items, x);
  }

  // One row: onto `contents` or, past a delimiter, onto `common`. The key is
  // cut at the prefix's length whether or not it starts with it.
  method ListingStep(
    r: Listed, prefix: string, delimiter: string, max: nat,
    contents0: seq<Listed>, common0: seq<string>, seen0: set<string>, ghost items: seq<Item>)
    returns (ok: bool, contents: seq<Listed>, common: seq<string>, seen: set<string>, cursor: string, full: bool)
    requires OnPage(items, contents0, common0, seen0) && Object(r) !in items
    ensures ok <==> Cuts(r, prefix)
    ensures ok ==>
      var x := ItemOf(r, prefix, delimiter);
      && cursor == r.key && (full <==> x !in items && |items| >= max)
      && if full then contents == contents0 && common == common0
         else OnPage(if x in items then items else items + [x], contents, common, seen)
  {
    contents, common, seen, cursor, full := contents0, common0, seen0, r.key, false;
    var rest := Rest(r.key, ByteLength(prefix));
    ok := rest.Some?;
    if !ok {
      return;
    }
    OneMore(items, ItemFrom(r, rest.value, prefix, delimiter), contents, common, seen);
    if delimiter != "" {
      var idx := Find(rest.value, delimiter);
      if idx.Some? {
        var cp := prefix + rest.value[..idx.value + |delimiter|];
        if cp !in seen {
          seen := seen + {cp};
          if |contents| + |common| >= max {
            full := true;
            return;
          }
          common := common + [cp];
        }
        return;
      }
    }
    if |contents| + |common| >= max {
      full := true;
      return;
    }
    contents := contents + [r];
  }

  // An item comes from a row.
  ghost predicate From(rows: seq<Listed>, prefix: string, delimiter: string, x: Item)
  {
    exists i :: 0 <= i < |rows| && ItemOf(rows[i], prefix, delimiter) == x
  }

  lemma {:induction false} ItemsAreFrom(rows: seq<Listed>, prefix: string, delimiter: string, x: Item)
    ensures x in Items(rows, prefix, delimiter) <==> From(rows, prefix, delimiter, x)
  {
    if rows != [] {
      var n := |rows| - 1;
      var front := rows[..n];
      ItemsAreFrom(front, prefix, delimiter, x);
      assert x in Items(rows, prefix, delimiter)
        <==> x in Items(front, prefix, delimiter) || ItemOf(rows[n], prefix, delimiter) == x;
      if From(front, prefix, delimiter, x) {
        FromFront(rows, front, prefix, delimiter, x);
      } else {
        FromLast(rows, front, prefix, delimiter, x);
      }
    }
  }

  lemma FromFront(rows: seq<Listed>, front: seq<Listed>, prefix: string, delimiter: string, x: Item)
    requires |front| < |rows| && forall i | 0 <= i < |front| :: front[i] == rows[i]
    requires From(front, prefix, delimiter, x)
    ensures From(rows, prefix, delimiter, x)
  {
    var i :| 0 <= i < |front| && ItemOf(front[i], prefix, delimiter) == x;
    assert ItemOf(rows[i], prefix, delimiter) == x;
  }

  lemma FromLast(rows: seq<Listed>, front: seq<Listed>, prefix: string, delimiter: string, x: Item)
    requires |front| + 1 == |rows| && forall i | 0 <= i < |front| :: front[i] == rows[i]
    requires !From(front, prefix, delimiter, x)
    ensures From(rows, prefix, delimiter, x) <==> ItemOf(rows[|front|], prefix, delimiter) == x
  {
    forall i | 0 <= i < |front| ensures ItemOf(rows[i], prefix, delimiter) != x {
      assert front[i] == rows[i];
    }
  }

  lemma NotListedYet(rows: seq<Listed>, prefix: string, delimiter: string, n: nat)
    requires Sorted(rows) && n < |rows|
    ensures Object(rows[n]) !in ItemsTo(rows, prefix, delimiter, n)
  {
    ItemsAreFrom(rows[..n], prefix, delimiter, Object(rows[n]));
    forall i | 0 <= i < n ensures rows[i] != rows[n] {
      Asymmetric(Codes(rows[i].key), Codes(rows[n].key));
    }
  }

  // The first `pos` scanned rows are on the page; none overflowed. (Behind a
  // quantifier, to be unfolded only where ListingAt is named.)
  ghost predicate Listing(
    rows: seq<Listed>, prefix: string, delimiter: string, max: nat, pos: nat,
    contents: seq<Listed>, common: seq<string>, seen: set<string>)
  {
    pos <= |rows| && forall n {:trigger ListingAt(rows, prefix, delimiter, max, n, contents, common, seen)} | n == pos ::
      ListingAt(rows, prefix, delimiter, max, n, contents, common, seen)
  }

  ghost predicate ListingAt(
    rows: seq<Listed>, prefix: string, delimiter: string, max: nat, pos: nat,
    contents: seq<Listed>, common: seq<string>, seen: set<string>)
  {
    && pos <= |rows| && Taken(rows, prefix, delimiter, max, pos) == Taken(rows, prefix, delimiter, max, 0)
    && var items := ItemsTo(rows, prefix, delimiter, pos);
    && |items| <= max && OnPage(items, contents, common, seen) && CutTo(rows, prefix, pos)
  }

  ghost predicate CutTo(rows: seq<Listed>, prefix: string, n: nat) {
    forall i | 0 <= i < n && i < |rows| :: Cuts(rows[i], prefix)
  }

  // The page of the rows, and the key it resumes after: the one that overflowed.
  ghost predicate PageOf(rows: seq<Listed>, prefix: string, delimiter: string, max: nat, page: Page)
  {
    var items := Items(rows, prefix, delimiter);
    var first := items[..Min(max, |items|)];
    var c := Taken(rows, prefix, delimiter, max, 0);
    && page.contents == Objects(first) && page.common == Commons(first)
    && (page.truncated <==> |items| > max)
    && (page.truncated ==> c < |rows| && page.token == rows[c].key)
  }

  // A page; none if a key on it, or the one that overflows it, cannot be cut.
  ghost predicate PageIf(
    rows: seq<Listed>, prefix: string, delimiter: string, max: nat, page: Option<Page>)
  {
    && (page.Some? <==> CutTo(rows, prefix, Taken(rows, prefix, delimiter, max, 0) + 1))
    && (page.Some? ==> PageOf(rows, prefix, delimiter, max, page.value))
  }

  lemma PageEnds(
    rows: seq<Listed>, prefix: string, delimiter: string, max: nat, pos: nat,
    contents: seq<Listed>, common: seq<string>, seen: set<string>, truncated: bool, token: string)
    requires Listing(rows, prefix, delimiter, max, pos, contents, common, seen)
    requires Taken(rows, prefix, delimiter, max, pos) == pos
    requires truncated <==> pos < |rows|
    requires truncated ==> token == rows[pos].key && Cuts(rows[pos], prefix)
    ensures PageIf(rows, prefix, delimiter, max, Some(Page(contents, common, truncated, token)))
  {
    assert ListingAt(rows, prefix, delimiter, max, pos, contents, common, seen);
    TakenIs(rows, prefix, delimiter, max, pos);
  }

  lemma NoPage(
    rows: seq<Listed>, prefix: string, delimiter: string, max: nat, pos: nat,
    contents: seq<Listed>, common: seq<string>, seen: set<string>)
    requires Listing(rows, prefix, delimiter, max, pos, contents, common, seen)
    requires pos < |rows| && !Cuts(rows[pos], prefix)
    ensures PageIf(rows, prefix, delimiter, max, None)
  {
    assert ListingAt(rows, prefix, delimiter, max, pos, contents, common, seen);
  }

  lemma StepTaken(rows: seq<Listed>, prefix: string, delimiter: string, max: nat, pos: nat)
    requires pos < |rows| && |ItemsTo(rows, prefix, delimiter, pos)| <= max
    ensures var items, x := ItemsTo(rows, prefix, delimiter, pos), ItemOf(rows[pos], prefix, delimiter);
      && ItemsTo(rows, prefix, delimiter, pos + 1) == (if x in items then items else items + [x])
      && Taken(rows, prefix, delimiter, max, pos)
         == if x !in items && |items| >= max then pos else Taken(rows, prefix, delimiter, max, pos + 1)
  {
    assert rows[..pos + 1][..pos] == rows[..pos];
  }

  // The next row goes on the page, or overflows it, or cannot be cut.
  method ListRow(
    r: Listed, prefix: string, delimiter: string, max: nat,
    contents0: seq<Listed>, common0: seq<string>, seen0: set<string>, ghost rows: seq<Listed>, ghost pos: nat)
    returns (ok: bool, contents: seq<Listed>, common: seq<string>, seen: set<string>, after: string, full: bool)
    requires Sorted(rows) && pos < |rows| && r == rows[pos]
    requires Listing(rows, prefix, delimiter, max, pos, contents0, common0, seen0)
    ensures !ok ==> PageIf(rows, prefix, delimiter, max, None)
    ensures ok ==> after == r.key
    ensures ok && full ==> PageIf(rows, prefix, delimiter, max, Some(Page(contents, common, true, after)))
    ensures ok && !full ==> Listing(rows, prefix, delimiter, max, pos + 1, contents, common, seen)
  {
    assert ListingAt(rows, prefix, delimiter, max, pos, contents0, common0, seen0);
    NotListedYet(rows, prefix, delimiter, pos);
    StepTaken(rows, prefix, delimiter, max, pos);
    ok, contents, common, seen, after, full := ListingStep(
      r, prefix, delimiter, max, contents0, common0, seen0, ItemsTo(rows, prefix, delimiter, pos));
    if !ok {
      NoPage(rows, prefix, delimiter, max, pos, contents0, common0, seen0);
    } else if full {
      PageEnds(rows, prefix, delimiter, max, pos, contents, common, seen0, true, after);
    }
  }

  // The rows of one query, until the page is full.
  method ListBatch(
    batch: seq<Listed>, prefix: string, delimiter: string, max: nat, after0: string,
    contents0: seq<Listed>, common0: seq<string>, seen0: set<string>, ghost rows: seq<Listed>, ghost pos0: nat)
    returns (
      ok: bool, contents: seq<Listed>, common: seq<string>, seen: set<string>, after: string, full: bool,
      ghost pos: nat)
    requires Sorted(rows)
    requires Listing(rows, prefix, delimiter, max, pos0, contents0, common0, seen0)
    requires pos0 + |batch| <= |rows| && forall i | 0 <= i < |batch| :: batch[i] == rows[pos0 + i]
    ensures !ok ==> PageIf(rows, prefix, delimiter, max, None)
    ensures ok && full ==> PageIf(rows, prefix, delimiter, max, Some(Page(contents, common, true, after)))
    ensures ok && !full ==> pos == pos0 + |batch| && Listing(rows, prefix, delimiter, max, pos, contents, common, seen)
    ensures ok && !full ==> after == if batch == [] then after0 else rows[pos - 1].key
  {
    ok, contents, common, seen, after, full, pos := true, contents0, common0, seen0, after0, false, pos0;
    for i := 0 to |batch|
      invariant pos == pos0 + i && ok && !full
      invariant Listing(rows, prefix, delimiter, max, pos, contents, common, seen)
      invariant after == if i == 0 then after0 else rows[pos - 1].key
    {
      ok, contents, common, seen, after, full := ListRow(
        batch[i], prefix, delimiter, max, contents, common, seen, rows, pos);
      if !ok || full {
        return;
      }
      pos := pos + 1;
    }
  }

  // Every scanned key has the prefix if the prefix does not end in U+D7FF.
  lemma AllScannedStart(keys: seq<Listed>, prefix: string, after: string)
    requires Sorted(keys) && (Stripped(prefix) == [] || Scannable(prefix))
    ensures AllStart(Rows(keys, prefix, after), prefix)
  {
    RowsAre(keys, prefix, after);
    var rows := Rows(keys, prefix, after);
    forall i | 0 <= i < |rows| ensures prefix <= rows[i].key {
      assert rows[i] in rows;
      ScannedStart(prefix, rows[i].key);
    }
  }

  // After the key `after`, the scan goes on at row `pos`.
  ghost predicate Resumes(keys: seq<Listed>, prefix: string, after: string, rows: seq<Listed>, pos: nat) {
    pos <= |rows| && Rows(keys, prefix, after) == rows[pos..]
  }

  lemma ResumesBehind(keys: seq<Listed>, prefix: string, start: string, rows: seq<Listed>, pos: nat)
    requires Sorted(keys) && rows == Rows(keys, prefix, start) && 0 < pos <= |rows|
    ensures Resumes(keys, prefix, rows[pos - 1].key, rows, pos)
  {
    RowsAfter(keys, prefix, start, pos - 1);
  }

  lemma QueryGives(keys: seq<Listed>, prefix: string, after: string, rows: seq<Listed>, pos: nat, limit: nat)
    requires Resumes(keys, prefix, after, rows, pos)
    ensures var got := List(keys, prefix, after, limit);
      && pos + |got| <= |rows| && got == rows[pos..pos + |got|]
      && (|got| < limit ==> pos + |got| == |rows|)
  {
  }

  // One query's rows, from where the page has got to; `done` after the last.
  method ListNext(
    keys: seq<Listed>, prefix: string, delimiter: string, max: nat, batch: nat, after0: string,
    contents0: seq<Listed>, common0: seq<string>, seen0: set<string>,
    ghost start: string, ghost rows: seq<Listed>, ghost pos0: nat)
    returns (
      ok: bool, contents: seq<Listed>, common: seq<string>, seen: set<string>, after: string, full: bool, done: bool,
      ghost pos: nat)
    requires Sorted(keys) && batch >= 1 && rows == Rows(keys, prefix, start)
    requires Sorted(rows) && Resumes(keys, prefix, after0, rows, pos0)
    requires Listing(rows, prefix, delimiter, max, pos0, contents0, common0, seen0)
    ensures !ok ==> PageIf(rows, prefix, delimiter, max, None)
    ensures ok && full ==> PageIf(rows, prefix, delimiter, max, Some(Page(contents, common, true, after)))
    ensures ok && !full ==> Resumes(keys, prefix, after, rows, pos)
    ensures ok && !full ==> Listing(rows, prefix, delimiter, max, pos, contents, common, seen)
    ensures ok && !full ==> if done then pos == |rows| else pos > pos0
  {
    var got := List(keys, prefix, after0, batch);
    QueryGives(keys, prefix, after0, rows, pos0, batch);
    if got == [] {
      return true, contents0, common0, seen0, after0, false, true, pos0;
    }
    ok, contents, common, seen, after, full, pos := ListBatch(
      got, prefix, delimiter, max, after0, contents0, common0, seen0, rows, pos0);
    done := |got| < batch;
    if ok && !full {
      ResumesBehind(keys, prefix, start, rows, pos);
    }
  }

  // One request, whatever the batch size: the first `max` items of what is
  // scanned, truncated exactly when there are more. It fails exactly if a key
  // that it gets to cannot be cut. Where the scan gets no key wrong, the page is
  // that of the keys with the prefix.
  method ListObjects(
    keys: seq<Listed>, prefix: string, delimiter: string, max: nat, start: string, batch: nat)
    returns (page: Option<Page>)
    requires Sorted(keys) && batch >= 1
    ensures PageIf(Rows(keys, prefix, start), prefix, delimiter, max, page)
    ensures AllStart(Rows(keys, prefix, start), prefix) ==> page.Some?
    ensures NoneStray(keys, prefix, start) ==>
      page.Some? && PageOf(Starting(keys, prefix, start), prefix, delimiter, max, page.value)
  {
    ghost var rows, pos: nat := Rows(keys, prefix, start), 0;
    ListsStarting(keys, prefix, start);
    assert rows[0..] == rows && rows[..0] == [];
    assert ListingAt(rows, prefix, delimiter, max, 0, [], [], {});
    var after, ok, done, truncated := start, true, false, false;
    var contents: seq<Listed>, common: seq<string>, seen: set<string> := [], [], {};
    while !done
      invariant !truncated && Resumes(keys, prefix, after, rows, pos)
      invariant Listing(rows, prefix, delimiter, max, pos, contents, common, seen)
      invariant done ==> pos == |rows|
      decreases |rows| - pos, !done
    {
      ok, contents, common, seen, after, truncated, done, pos := ListNext(
        keys, prefix, delimiter, max, batch, after, contents, common, seen, start, rows, pos);
      if !ok {
        return None;
      }
      if truncated {
        return Some(Page(contents, common, true, after));
      }
    }
    PageEnds(rows, prefix, delimiter, max, pos, contents, common, seen, false, "");
    page := Some(Page(contents, common, false, ""));
  }

  // Keys with the prefix can all be cut, and are what is scanned if the scan
  // gets none wrong.
  lemma ListsStarting(keys: seq<Listed>, prefix: string, start: string)
    requires Sorted(keys)
    ensures var rows := Rows(keys, prefix, start);
      && Sorted(rows)
      && (AllStart(rows, prefix) ==> CutTo(rows, prefix, |rows|))
      && (NoneStray(keys, prefix, start) ==> rows == Starting(keys, prefix, start) && AllStart(rows, prefix))
  {
    var rows := Rows(keys, prefix, start);
    RowsAre(keys, prefix, start);
    ScansStarting(keys, prefix, start);
    StartingAre(keys, prefix, start);
    if AllStart(rows, prefix) {
      forall i | 0 <= i < |rows| ensures Cuts(rows[i], prefix) {
        RestOfPrefix(rows[i].key, prefix);
      }
    }
    if NoneStray(keys, prefix, start) {
      forall i | 0 <= i < |rows| ensures prefix <= rows[i].key {
        assert rows[i] in Starting(keys, prefix, start);
      }
    }
  }
}
