// Following continuation tokens to the end: what the pages report together,
// what they skip, and what they would report if the token were the last key
// consumed instead of the first one left out.
module TokenWalks {
  import opened Base
  import opened KeyOrder
  import opened Listing

  // ---- keys that share a prefix are contiguous ----

  lemma Between(p: string, a: string, b: string, c: string)
    requires p <= a && p <= c && Less(a, b) && Less(b, c)
    ensures p <= b
  {
    var i := FirstDifference(b, p);
    if i < |p| {
      if i == |b| {
        ShorterIsLess(b, a);
        Asymmetric(Codes(a), Codes(b));
      } else {
        DiffersAt(a, b, i);
        DiffersAt(b, c, i);
      }
    }
  }

  // A string with the same start up to the end of the first delimiter has it there too.
  lemma FindInside(s: string, t: string, d: string)
    requires Find(s, d).Some? && s[..Find(s, d).value + |d|] <= t
    ensures Find(t, d) == Find(s, d)
  {
    var n := Find(s, d).value;
    var q := s[..n + |d|];
    assert t[n..n + |d|] == q[n..n + |d|] == d;
    assert d <= t[n..];
    forall m: nat | m < n ensures !(d <= t[m..]) {
      OccursAlike(s, t, q, d, m);
    }
    FirstIsFound(t, d, n);
  }

  lemma FirstIsFound(t: string, d: string, n: nat)
    requires n <= |t| && d <= t[n..] && forall m: nat | m < n :: !(d <= t[m..])
    ensures Find(t, d) == Some(n)
  {
    var r := Find(t, d);
    assert d <= t[n..] && (r.Some? ==> r.value <= n && d <= t[r.value..]);
  }

  lemma OccursAlike(s: string, t: string, q: string, d: string, m: nat)
    requires q <= s && q <= t && m + |d| <= |q|
    ensures d <= s[m..] <==> d <= t[m..]
  {
    assert s[m..][..|d|] == q[m..m + |d|] == t[m..][..|d|];
  }

  lemma SameCommon(r: Listed, t: Listed, prefix: string, delimiter: string)
    requires prefix <= r.key && prefix <= t.key
    requires ItemOf(r, prefix, delimiter).Common? && ItemOf(r, prefix, delimiter).prefix <= t.key
    ensures ItemOf(t, prefix, delimiter) == ItemOf(r, prefix, delimiter)
  {
    var a, b := r.key[|prefix|..], t.key[|prefix|..];
    ItemOfStarting(r, prefix, delimiter);
    ItemOfStarting(t, prefix, delimiter);
    var n := Find(a, delimiter).value + |delimiter|;
    RestStarts(prefix, a[..n], t.key);
    FindInside(a, b, delimiter);
  }

  lemma RestStarts(prefix: string, q: string, key: string)
    requires prefix <= key && prefix + q <= key
    ensures q <= key[|prefix|..]
  {
    assert key[..|prefix + q|] == prefix + q;
    assert key[|prefix|..][..|q|] == (prefix + q)[|prefix|..];
  }

  lemma ItemInKey(r: Listed, prefix: string, delimiter: string)
    requires prefix <= r.key
    ensures Label(ItemOf(r, prefix, delimiter)) <= r.key
  {
    var rest := r.key[|prefix|..];
    ItemOfStarting(r, prefix, delimiter);
    if ItemOf(r, prefix, delimiter).Common? {
      var n := Find(rest, delimiter).value + |delimiter|;
      assert prefix + rest[..n] == r.key[..|prefix| + n];
    }
  }

  // How an item reads in a listing.
  function Label(x: Item): string { match x { case Object(r) => r.key case Common(p) => p } }

  lemma Contiguous(rows: seq<Listed>, prefix: string, delimiter: string, a: nat, c: nat, b: nat)
    requires Sorted(rows) && AllStart(rows, prefix) && a < c < b < |rows|
    requires ItemOf(rows[a], prefix, delimiter) == ItemOf(rows[b], prefix, delimiter)
    ensures ItemOf(rows[c], prefix, delimiter) == ItemOf(rows[a], prefix, delimiter)
  {
    var x := ItemOf(rows[a], prefix, delimiter);
    if x.Common? {
      ItemInKey(rows[a], prefix, delimiter);
      ItemInKey(rows[b], prefix, delimiter);
      Between(x.prefix, rows[a].key, rows[c].key, rows[b].key);
      SameCommon(rows[a], rows[c], prefix, delimiter);
    } else {
      Asymmetric(Codes(rows[a].key), Codes(rows[b].key));
    }
  }

  // ---- the walk ----

  // The pages' items, following the tokens as they are returned.
  function Walk(rows: seq<Listed>, prefix: string, delimiter: string, max: nat): seq<Item>
    decreases |rows|
  {
    var c := Taken(rows, prefix, delimiter, max, 0);
    if c == |rows| then Items(rows, prefix, delimiter)
    else Items(rows[..c], prefix, delimiter) + Walk(rows[c + 1..], prefix, delimiter, max)
  }

  // The rows named by the tokens, and the others.
  function Tokens(rows: seq<Listed>, prefix: string, delimiter: string, max: nat): seq<Listed>
    decreases |rows|
  {
    var c := Taken(rows, prefix, delimiter, max, 0);
    if c == |rows| then [] else [rows[c]] + Tokens(rows[c + 1..], prefix, delimiter, max)
  }

  function Kept(rows: seq<Listed>, prefix: string, delimiter: string, max: nat): (kept: seq<Listed>)
    ensures forall r <- kept :: r in rows
    ensures AllStart(rows, prefix) ==> AllStart(kept, prefix)
    decreases |rows|
  {
    var c := Taken(rows, prefix, delimiter, max, 0);
    if c == |rows| then rows else rows[..c] + Kept(rows[c + 1..], prefix, delimiter, max)
  }

  // With the token at the last row consumed.
  function WalkRepaired(rows: seq<Listed>, prefix: string, delimiter: string, max: nat): seq<Item>
    requires max >= 1
    decreases |rows|
  {
    var c := Taken(rows, prefix, delimiter, max, 0);
    if c == |rows| then Items(rows, prefix, delimiter) else
    TakesOne(rows, prefix, delimiter, max);
    Items(rows[..c], prefix, delimiter) + WalkRepaired(rows[c..], prefix, delimiter, max)
  }

  lemma TakesOne(rows: seq<Listed>, prefix: string, delimiter: string, max: nat)
    requires max >= 1 && rows != []
    ensures Taken(rows, prefix, delimiter, max, 0) >= 1
    ensures ItemOf(rows[0], prefix, delimiter) in Items(rows[..Taken(rows, prefix, delimiter, max, 0)], prefix, delimiter)
  {
    assert rows[..0] == [] && rows[..1][..0] == [];
    assert Items(rows[..1], prefix, delimiter) == [ItemOf(rows[0], prefix, delimiter)];
    var c := Taken(rows, prefix, delimiter, max, 0);
    assert c == Taken(rows, prefix, delimiter, max, 1);
    assert rows[..c][..1] == rows[..1];
    ItemsGrow(rows[..c], prefix, delimiter, 1);
    assert Items(rows[..c], prefix, delimiter)[0] == ItemOf(rows[0], prefix, delimiter);
  }

  // The row at the cut brings an item the page has not got.
  lemma CutIsNew(rows: seq<Listed>, prefix: string, delimiter: string, max: nat, n: nat)
    requires n <= |rows| && |Items(rows[..n], prefix, delimiter)| <= max
    ensures var c := Taken(rows, prefix, delimiter, max, n);
      c < |rows| ==> ItemOf(rows[c], prefix, delimiter) !in Items(rows[..c], prefix, delimiter)
    decreases |rows| - n
  {
    if n < |rows| {
      StepTaken(rows, prefix, delimiter, max, n);
      if |ItemsTo(rows, prefix, delimiter, n + 1)| <= max {
        CutIsNew(rows, prefix, delimiter, max, n + 1);
      } else {
        assert Taken(rows, prefix, delimiter, max, n) == n;
      }
    }
  }

  // Nothing on a page comes again behind its cut.
  lemma PagesApart(rows: seq<Listed>, prefix: string, delimiter: string, max: nat, x: Item)
    requires Sorted(rows) && AllStart(rows, prefix)
    ensures var c := Taken(rows, prefix, delimiter, max, 0);
      x in Items(rows[..c], prefix, delimiter) ==> forall b | c <= b < |rows| :: ItemOf(rows[b], prefix, delimiter) != x
  {
    var c := Taken(rows, prefix, delimiter, max, 0);
    assert rows[..0] == [];
    CutIsNew(rows, prefix, delimiter, max, 0);
    if c < |rows| && x in Items(rows[..c], prefix, delimiter) {
      CutParts(rows, rows[..c], prefix, delimiter, x, c);
    }
  }

  lemma CutParts(rows: seq<Listed>, front: seq<Listed>, prefix: string, delimiter: string, x: Item, c: nat)
    requires Sorted(rows) && AllStart(rows, prefix) && c < |rows| && front == rows[..c]
    requires x in Items(front, prefix, delimiter) && ItemOf(rows[c], prefix, delimiter) != x
    ensures forall b | c <= b < |rows| :: ItemOf(rows[b], prefix, delimiter) != x
  {
    ItemsAreFrom(front, prefix, delimiter, x);
    var a :| 0 <= a < c && ItemOf(front[a], prefix, delimiter) == x;
    assert rows[a] == front[a];
    forall b | c <= b < |rows| ensures ItemOf(rows[b], prefix, delimiter) != x {
      if c < b && ItemOf(rows[b], prefix, delimiter) == x {
        Contiguous(rows, prefix, delimiter, a, c, b);
      }
    }
  }

  lemma {:induction false} ItemsAppend(a: seq<Listed>, b: seq<Listed>, prefix: string, delimiter: string)
    requires forall i | 0 <= i < |b| :: ItemOf(b[i], prefix, delimiter) !in Items(a, prefix, delimiter)
    ensures Items(a + b, prefix, delimiter) == Items(a, prefix, delimiter) + Items(b, prefix, delimiter)
    decreases |b|
  {
    if b == [] {
      assert a + b == a;
    } else {
      var n := |b| - 1;
      var y, front := b[n], b[..n];
      ItemsAppend(a, front, prefix, delimiter);
      assert a + b == a + front + [y] && b == front + [y];
      OneBehind(Items(a, prefix, delimiter), front, a + front, y, prefix, delimiter);
    }
  }

  lemma OneBehind(
    before: seq<Item>, front: seq<Listed>, all: seq<Listed>, y: Listed, prefix: string, delimiter: string)
    requires Items(all, prefix, delimiter) == before + Items(front, prefix, delimiter)
    requires ItemOf(y, prefix, delimiter) !in before
    ensures Items(all + [y], prefix, delimiter) == before + Items(front + [y], prefix, delimiter)
  {
    ItemsSnoc(all, y, prefix, delimiter);
    ItemsSnoc(front, y, prefix, delimiter);
  }

  lemma ItemsSnoc(rows: seq<Listed>, r: Listed, prefix: string, delimiter: string)
    ensures var items, x := Items(rows, prefix, delimiter), ItemOf(r, prefix, delimiter);
      Items(rows + [r], prefix, delimiter) == if x in items then items else items + [x]
  {
    assert (rows + [r])[..|rows|] == rows;
  }

  // The walk reports the roll-up of all rows but the tokens'.
  lemma {:induction false} WalkIs(rows: seq<Listed>, prefix: string, delimiter: string, max: nat)
    requires Sorted(rows) && AllStart(rows, prefix)
    ensures Walk(rows, prefix, delimiter, max) == Items(Kept(rows, prefix, delimiter, max), prefix, delimiter)
    decreases |rows|
  {
    var c := Taken(rows, prefix, delimiter, max, 0);
    if c < |rows| {
      var rest := rows[c + 1..];
      WalkIs(rest, prefix, delimiter, max);
      var kept := Kept(rest, prefix, delimiter, max);
      KeptIsApart(rows, prefix, delimiter, max, kept);
      ItemsAppend(rows[..c], kept, prefix, delimiter);
    }
  }

  lemma KeptIsApart(rows: seq<Listed>, prefix: string, delimiter: string, max: nat, kept: seq<Listed>)
    requires Sorted(rows) && AllStart(rows, prefix) && AllStart(kept, prefix)
    requires Taken(rows, prefix, delimiter, max, 0) < |rows|
    requires forall r <- kept :: r in rows[Taken(rows, prefix, delimiter, max, 0) + 1..]
    ensures var c := Taken(rows, prefix, delimiter, max, 0);
      forall i | 0 <= i < |kept| :: ItemOf(kept[i], prefix, delimiter) !in Items(rows[..c], prefix, delimiter)
  {
    var c := Taken(rows, prefix, delimiter, max, 0);
    forall i | 0 <= i < |kept| ensures ItemOf(kept[i], prefix, delimiter) !in Items(rows[..c], prefix, delimiter) {
      assert kept[i] in kept;
      BehindIsApart(rows, prefix, delimiter, max, kept[i]);
    }
  }

  lemma BehindIsApart(rows: seq<Listed>, prefix: string, delimiter: string, max: nat, r: Listed)
    requires Sorted(rows) && AllStart(rows, prefix) && Taken(rows, prefix, delimiter, max, 0) < |rows|
    requires r in rows[Taken(rows, prefix, delimiter, max, 0) + 1..] && prefix <= r.key
    ensures ItemOf(r, prefix, delimiter) !in Items(rows[..Taken(rows, prefix, delimiter, max, 0)], prefix, delimiter)
  {
    var c := Taken(rows, prefix, delimiter, max, 0);
    var j :| 0 <= j < |rows[c + 1..]| && rows[c + 1..][j] == r;
    assert rows[c + 1 + j] == r;
    PagesApart(rows, prefix, delimiter, max, ItemOf(r, prefix, delimiter));
  }

  // Every row is a token's or kept.
  lemma {:induction false} TokensAndKept(rows: seq<Listed>, prefix: string, delimiter: string, max: nat)
    ensures multiset(rows)
         == multiset(Tokens(rows, prefix, delimiter, max)) + multiset(Kept(rows, prefix, delimiter, max))
    decreases |rows|
  {
    var c := Taken(rows, prefix, delimiter, max, 0);
    if c < |rows| {
      TokensAndKept(rows[c + 1..], prefix, delimiter, max);
      SplitAt(rows, c);
    }
  }

  lemma SplitAt<T>(s: seq<T>, c: nat)
    requires c < |s|
    ensures multiset(s) == multiset(s[..c]) + multiset([s[c]]) + multiset(s[c + 1..])
  {
    assert s == s[..c] + [s[c]] + s[c + 1..];
  }

  lemma CutIsApart(rows: seq<Listed>, prefix: string, delimiter: string, max: nat, i: nat)
    requires Sorted(rows) && AllStart(rows, prefix) && Taken(rows, prefix, delimiter, max, 0) + i < |rows|
    ensures var c := Taken(rows, prefix, delimiter, max, 0);
      ItemOf(rows[c..][i], prefix, delimiter) !in Items(rows[..c], prefix, delimiter)
  {
    var c := Taken(rows, prefix, delimiter, max, 0);
    PagesApart(rows, prefix, delimiter, max, ItemOf(rows[c + i], prefix, delimiter));
  }

  lemma CutRejoins(rows: seq<Listed>, prefix: string, delimiter: string, max: nat)
    requires Sorted(rows) && AllStart(rows, prefix)
    ensures var c := Taken(rows, prefix, delimiter, max, 0);
      Items(rows, prefix, delimiter) == Items(rows[..c], prefix, delimiter) + Items(rows[c..], prefix, delimiter)
  {
    var c := Taken(rows, prefix, delimiter, max, 0);
    var a, b := rows[..c], rows[c..];
    BehindCut(rows, prefix, delimiter, max, a, b);
    assert a + b == rows;
    ItemsAppend(a, b, prefix, delimiter);
  }

  lemma BehindCut(rows: seq<Listed>, prefix: string, delimiter: string, max: nat, a: seq<Listed>, b: seq<Listed>)
    requires Sorted(rows) && AllStart(rows, prefix)
    requires var c := Taken(rows, prefix, delimiter, max, 0); a == rows[..c] && b == rows[c..]
    ensures forall i | 0 <= i < |b| :: prefix <= b[i].key && ItemOf(b[i], prefix, delimiter) !in Items(a, prefix, delimiter)
  {
    forall i | 0 <= i < |b|
      ensures prefix <= b[i].key && ItemOf(b[i], prefix, delimiter) !in Items(a, prefix, delimiter)
    {
      CutIsApart(rows, prefix, delimiter, max, i);
    }
  }

  // With the token repaired, every item comes exactly once, in order.
  lemma {:induction false} RepairedWalkIsWhole(rows: seq<Listed>, prefix: string, delimiter: string, max: nat)
    requires Sorted(rows) && AllStart(rows, prefix) && max >= 1
    ensures WalkRepaired(rows, prefix, delimiter, max) == Items(rows, prefix, delimiter)
    decreases |rows|
  {
    var c := Taken(rows, prefix, delimiter, max, 0);
    if c < |rows| {
      TakesOne(rows, prefix, delimiter, max);
      RepairedWalkIsWhole(rows[c..], prefix, delimiter, max);
      CutRejoins(rows, prefix, delimiter, max);
    }
  }

  // ---- byte order ----

  ghost predicate Ascending(items: seq<Item>) {
    forall i, j | 0 <= i < j < |items| :: Less(Label(items[i]), Label(items[j]))
  }

  lemma AscendsOn(items: seq<Item>, y: Item)
    requires Ascending(items) && forall x <- items :: Less(Label(x), Label(y))
    ensures Ascending(items + [y])
  {
  }

  lemma {:induction false} ItemsAscend(rows: seq<Listed>, prefix: string, delimiter: string)
    requires Sorted(rows) && AllStart(rows, prefix)
    ensures Ascending(Items(rows, prefix, delimiter))
  {
    if rows != [] {
      var n := |rows| - 1;
      var front, y := Items(rows[..n], prefix, delimiter), ItemOf(rows[n], prefix, delimiter);
      ItemsAscend(rows[..n], prefix, delimiter);
      if y !in front {
        forall x <- front ensures Less(Label(x), Label(y)) {
          LabelsAscend(rows, prefix, delimiter, n, x);
        }
        AscendsOn(front, y);
      }
    }
  }

  lemma LabelsAscend(rows: seq<Listed>, prefix: string, delimiter: string, n: nat, x: Item)
    requires Sorted(rows) && AllStart(rows, prefix) && n < |rows|
    requires x in Items(rows[..n], prefix, delimiter)
    requires ItemOf(rows[n], prefix, delimiter) !in Items(rows[..n], prefix, delimiter)
    ensures Less(Label(x), Label(ItemOf(rows[n], prefix, delimiter)))
  {
    var y := ItemOf(rows[n], prefix, delimiter);
    ItemsAreFrom(rows[..n], prefix, delimiter, x);
    ItemsAreFrom(rows[..n], prefix, delimiter, y);
    var i :| 0 <= i < n && ItemOf(rows[..n][i], prefix, delimiter) == x;
    assert ItemOf(rows[..n][i], prefix, delimiter) != y;
    KeyBelowLabel(rows[i], rows[n], prefix, delimiter);
    ItemInKey(rows[i], prefix, delimiter);
    if Label(x) != rows[i].key {
      ShorterIsLess(Label(x), rows[i].key);
      Transitive(Codes(Label(x)), Codes(rows[i].key), Codes(Label(y)));
    }
  }

  // An earlier key with another item is before the whole of the later one's.
  lemma KeyBelowLabel(r: Listed, t: Listed, prefix: string, delimiter: string)
    requires prefix <= r.key && prefix <= t.key && Less(r.key, t.key)
    requires ItemOf(r, prefix, delimiter) != ItemOf(t, prefix, delimiter)
    ensures Less(r.key, Label(ItemOf(t, prefix, delimiter)))
  {
    var y := ItemOf(t, prefix, delimiter);
    if y.Common? {
      ItemInKey(t, prefix, delimiter);
      if y.prefix <= r.key {
        SameCommon(t, r, prefix, delimiter);
      }
      BelowPrefix(r.key, y.prefix, t.key);
    }
  }

  // A key before one with the prefix, and without it, is before the prefix.
  lemma BelowPrefix(a: string, p: string, b: string)
    requires Less(a, b) && p <= b && !(p <= a)
    ensures Less(a, p)
  {
    var i := FirstDifference(a, p);
    if i == |a| {
      ShorterIsLess(a, p);
    } else {
      PrefixAgrees(p, b, i);
      DiffersAt(a, b, i);
      DiffersAt(a, p, i);
    }
  }

  lemma PrefixAgrees(p: string, s: string, i: nat)
    requires p <= s && i < |p|
    ensures i < |s| && s[..i] == p[..i] && s[i] == p[i]
  {
  }

  // The walk is in byte order and so reports nothing twice.
  lemma WalkAscends(rows: seq<Listed>, prefix: string, delimiter: string, max: nat)
    requires Sorted(rows) && AllStart(rows, prefix)
    ensures var items := Walk(rows, prefix, delimiter, max);
      forall i, j | 0 <= i < j < |items| :: Less(Label(items[i]), Label(items[j])) && items[i] != items[j]
  {
    var items := Walk(rows, prefix, delimiter, max);
    WalkIs(rows, prefix, delimiter, max);
    KeptSorted(rows, prefix, delimiter, max);
    ItemsAscend(Kept(rows, prefix, delimiter, max), prefix, delimiter);
    forall i, j | 0 <= i < j < |items| ensures items[i] != items[j] {
      Asymmetric(Codes(Label(items[i])), Codes(Label(items[j])));
    }
  }

  lemma {:induction false} KeptSorted(rows: seq<Listed>, prefix: string, delimiter: string, max: nat)
    requires Sorted(rows)
    ensures Sorted(Kept(rows, prefix, delimiter, max))
    decreases |rows|
  {
    var c := Taken(rows, prefix, delimiter, max, 0);
    if c < |rows| {
      var rest := rows[c + 1..];
      KeptSorted(rest, prefix, delimiter, max);
      SortedBehind(rows, rest, c, Kept(rest, prefix, delimiter, max));
    }
  }

  lemma SortedBehind(rows: seq<Listed>, rest: seq<Listed>, c: nat, kept: seq<Listed>)
    requires Sorted(rows) && c < |rows| && rest == rows[c + 1..] && Sorted(kept) && forall r <- kept :: r in rest
    ensures Sorted(rows[..c] + kept)
  {
    forall i, j | 0 <= i < c && 0 <= j < |kept| ensures Less(rows[i].key, kept[j].key) {
      assert kept[j] in kept;
      var m :| 0 <= m < |rest| && rest[m] == kept[j];
      assert rows[c + 1 + m] == kept[j];
    }
  }

  // ---- what is skipped ----

  // The item's only row is a token's.
  ghost predicate OnlyToken(rows: seq<Listed>, prefix: string, delimiter: string, max: nat, x: Item)
  {
    OnlyIn(rows, prefix, delimiter, Tokens(rows, prefix, delimiter, max), x)
  }

  ghost predicate OnlyIn(rows: seq<Listed>, prefix: string, delimiter: string, tokens: seq<Listed>, x: Item)
  {
    exists i :: 0 <= i < |rows| && OnlyRow(rows, prefix, delimiter, x, i) && rows[i] in tokens
  }

  ghost predicate OnlyRow(rows: seq<Listed>, prefix: string, delimiter: string, x: Item, i: nat)
    requires i < |rows|
  {
    && ItemOf(rows[i], prefix, delimiter) == x
    && forall j | 0 <= j < |rows| && j != i :: ItemOf(rows[j], prefix, delimiter) != x
  }

  ghost predicate OneOf(rows: seq<Listed>, n: nat, t: Listed) { exists i :: n <= i < |rows| && rows[i] == t }

  lemma {:induction false} TokensAreRows(rows: seq<Listed>, prefix: string, delimiter: string, max: nat)
    ensures forall t <- Tokens(rows, prefix, delimiter, max) :: OneOf(rows, Taken(rows, prefix, delimiter, max, 0), t)
    decreases |rows|
  {
    var c := Taken(rows, prefix, delimiter, max, 0);
    if c < |rows| {
      var rest := rows[c + 1..];
      TokensAreRows(rest, prefix, delimiter, max);
      forall t <- Tokens(rest, prefix, delimiter, max) ensures OneOf(rows, c, t) {
        var i :| Taken(rest, prefix, delimiter, max, 0) <= i < |rest| && rest[i] == t;
        assert rows[c + 1 + i] == t;
      }
    }
  }

  lemma {:induction false} WalkIsFrom(rows: seq<Listed>, prefix: string, delimiter: string, max: nat, x: Item)
    requires Sorted(rows) && AllStart(rows, prefix)
    ensures x in Walk(rows, prefix, delimiter, max) <==> From(Kept(rows, prefix, delimiter, max), prefix, delimiter, x)
  {
    WalkIs(rows, prefix, delimiter, max);
    ItemsAreFrom(Kept(rows, prefix, delimiter, max), prefix, delimiter, x);
  }

  // The first item of the rows is reported.
  lemma FirstIsWalked(rows: seq<Listed>, prefix: string, delimiter: string, max: nat)
    requires rows != [] && max >= 1
    ensures ItemOf(rows[0], prefix, delimiter) in Walk(rows, prefix, delimiter, max)
  {
    TakesOne(rows, prefix, delimiter, max);
    assert rows[..|rows|] == rows;
  }

  // An item of the roll-up is skipped exactly when its only row is a token's.
  // Without a delimiter that is each token's key.
  lemma {:induction false} SkippedIff(rows: seq<Listed>, prefix: string, delimiter: string, max: nat, x: Item)
    requires Sorted(rows) && AllStart(rows, prefix) && max >= 1 && x in Items(rows, prefix, delimiter)
    ensures x !in Walk(rows, prefix, delimiter, max) <==> OnlyToken(rows, prefix, delimiter, max, x)
    decreases |rows|
  {
    var c := Taken(rows, prefix, delimiter, max, 0);
    if c == |rows| || x in Items(rows[..c], prefix, delimiter) {
      EarlyIsReported(rows, prefix, delimiter, max, x);
    } else if ItemOf(rows[c], prefix, delimiter) == x {
      CutSkipped(rows, prefix, delimiter, max);
    } else {
      var rest := rows[c + 1..];
      LaterRows(rows, prefix, delimiter, x, c, rest);
      SkippedIff(rest, prefix, delimiter, max, x);
      LaterSkipped(rows, prefix, delimiter, max, x, c, rest);
    }
  }

  lemma EarlyIsReported(rows: seq<Listed>, prefix: string, delimiter: string, max: nat, x: Item)
    requires Sorted(rows) && AllStart(rows, prefix)
    requires x in Items(rows, prefix, delimiter)
    requires var c := Taken(rows, prefix, delimiter, max, 0); c == |rows| || x in Items(rows[..c], prefix, delimiter)
    ensures x in Walk(rows, prefix, delimiter, max) && !OnlyToken(rows, prefix, delimiter, max, x)
  {
    var c := Taken(rows, prefix, delimiter, max, 0);
    assert rows[..|rows|] == rows;
    PagesApart(rows, prefix, delimiter, max, x);
    TokensAreRows(rows, prefix, delimiter, max);
    forall i | 0 <= i < |rows| && rows[i] in Tokens(rows, prefix, delimiter, max)
      ensures ItemOf(rows[i], prefix, delimiter) != x
    {
      var j :| c <= j < |rows| && rows[j] == rows[i];
    }
  }

  // The token's item comes on the next page if it has another row.
  lemma CutSkipped(rows: seq<Listed>, prefix: string, delimiter: string, max: nat)
    requires Sorted(rows) && AllStart(rows, prefix) && max >= 1 && Taken(rows, prefix, delimiter, max, 0) < |rows|
    ensures var x := ItemOf(rows[Taken(rows, prefix, delimiter, max, 0)], prefix, delimiter);
      x !in Walk(rows, prefix, delimiter, max) <==> OnlyToken(rows, prefix, delimiter, max, x)
  {
    var c := Taken(rows, prefix, delimiter, max, 0);
    var x, rest := ItemOf(rows[c], prefix, delimiter), rows[c + 1..];
    assert rows[..0] == [];
    CutIsNew(rows, prefix, delimiter, max, 0);
    if rest != [] && ItemOf(rest[0], prefix, delimiter) == x {
      CutTwice(rows, prefix, delimiter, max, x, c, rest);
    } else {
      CutAlone(rows, prefix, delimiter, max, x, c, rest);
    }
  }

  lemma CutTwice(rows: seq<Listed>, prefix: string, delimiter: string, max: nat, x: Item, c: nat, rest: seq<Listed>)
    requires max >= 1 && c == Taken(rows, prefix, delimiter, max, 0) < |rows|
    requires rest == rows[c + 1..] && x !in Items(rows[..c], prefix, delimiter) && ItemOf(rows[c], prefix, delimiter) == x
    requires rest != [] && ItemOf(rest[0], prefix, delimiter) == x
    ensures x in Walk(rows, prefix, delimiter, max) && !OnlyToken(rows, prefix, delimiter, max, x)
  {
    LaterWalked(rows, prefix, delimiter, max, x, c, rest);
    FirstIsWalked(rest, prefix, delimiter, max);
    TwiceIsNotOnly(rows, prefix, delimiter, x, c, Tokens(rows, prefix, delimiter, max));
  }

  lemma CutAlone(rows: seq<Listed>, prefix: string, delimiter: string, max: nat, x: Item, c: nat, rest: seq<Listed>)
    requires Sorted(rows) && AllStart(rows, prefix) && c == Taken(rows, prefix, delimiter, max, 0) < |rows|
    requires rest == rows[c + 1..] && x !in Items(rows[..c], prefix, delimiter) && ItemOf(rows[c], prefix, delimiter) == x
    requires rest != [] ==> ItemOf(rest[0], prefix, delimiter) != x
    ensures x !in Walk(rows, prefix, delimiter, max) && OnlyToken(rows, prefix, delimiter, max, x)
  {
    LaterWalked(rows, prefix, delimiter, max, x, c, rest);
    LaterTokens(rows, prefix, delimiter, max, c, rest);
    AloneIsOnly(rows, prefix, delimiter, x, c);
    NotWalked(rest, prefix, delimiter, max, x);
  }

  lemma TwiceIsNotOnly(
    rows: seq<Listed>, prefix: string, delimiter: string, x: Item, c: nat, tokens: seq<Listed>)
    requires c + 1 < |rows|
    requires ItemOf(rows[c], prefix, delimiter) == x == ItemOf(rows[c + 1], prefix, delimiter)
    ensures !OnlyIn(rows, prefix, delimiter, tokens, x)
  {
    forall i | 0 <= i < |rows| ensures !OnlyRow(rows, prefix, delimiter, x, i) {
      var other := if i == c then c + 1 else c;
      assert ItemOf(rows[other], prefix, delimiter) == x;
    }
  }

  // Rows of one item are contiguous, so one that neither its predecessors nor
  // its successor share is its only row.
  lemma AloneIsOnly(rows: seq<Listed>, prefix: string, delimiter: string, x: Item, c: nat)
    requires Sorted(rows) && AllStart(rows, prefix) && c < |rows| && ItemOf(rows[c], prefix, delimiter) == x
    requires x !in Items(rows[..c], prefix, delimiter)
    requires c + 1 < |rows| ==> ItemOf(rows[c + 1], prefix, delimiter) != x
    ensures OnlyRow(rows, prefix, delimiter, x, c)
    ensures forall r <- rows[c + 1..] :: prefix <= r.key && ItemOf(r, prefix, delimiter) != x
  {
    NotEarlier(rows, prefix, delimiter, x, c);
    forall j | 0 <= j < |rows| && j != c ensures ItemOf(rows[j], prefix, delimiter) != x {
      if j > c + 1 && ItemOf(rows[j], prefix, delimiter) == x {
        Contiguous(rows, prefix, delimiter, c, c + 1, j);
      }
    }
    var rest := rows[c + 1..];
    forall i | 0 <= i < |rest| ensures prefix <= rest[i].key && ItemOf(rest[i], prefix, delimiter) != x {
      assert rest[i] == rows[c + 1 + i];
    }
  }

  lemma NotWalked(rows: seq<Listed>, prefix: string, delimiter: string, max: nat, x: Item)
    requires Sorted(rows) && AllStart(rows, prefix)
    requires forall r <- rows :: prefix <= r.key && ItemOf(r, prefix, delimiter) != x
    ensures x !in Walk(rows, prefix, delimiter, max)
  {
    WalkIsFrom(rows, prefix, delimiter, max, x);
    assert forall r <- Kept(rows, prefix, delimiter, max) :: r in rows;
  }

  // Of items that come later, the rest of the walk decides.
  lemma LaterSkipped(rows: seq<Listed>, prefix: string, delimiter: string, max: nat, x: Item, c: nat, rest: seq<Listed>)
    requires c == Taken(rows, prefix, delimiter, max, 0) < |rows| && rest == rows[c + 1..]
    requires x !in Items(rows[..c], prefix, delimiter) && forall j | 0 <= j <= c :: ItemOf(rows[j], prefix, delimiter) != x
    requires x !in Walk(rest, prefix, delimiter, max) <==> OnlyToken(rest, prefix, delimiter, max, x)
    ensures x !in Walk(rows, prefix, delimiter, max) <==> OnlyToken(rows, prefix, delimiter, max, x)
  {
    LaterWalked(rows, prefix, delimiter, max, x, c, rest);
    LaterTokens(rows, prefix, delimiter, max, c, rest);
    OnlyInBehind(rows, rest, prefix, delimiter,
      Tokens(rows, prefix, delimiter, max), Tokens(rest, prefix, delimiter, max), x, c);
  }

  lemma LaterTokens(rows: seq<Listed>, prefix: string, delimiter: string, max: nat, c: nat, rest: seq<Listed>)
    requires c == Taken(rows, prefix, delimiter, max, 0) < |rows| && rest == rows[c + 1..]
    ensures Tokens(rows, prefix, delimiter, max) == [rows[c]] + Tokens(rest, prefix, delimiter, max)
  {
  }

  lemma NotEarlier(rows: seq<Listed>, prefix: string, delimiter: string, x: Item, n: nat)
    requires n <= |rows| && x !in Items(rows[..n], prefix, delimiter)
    ensures forall j | 0 <= j < n :: ItemOf(rows[j], prefix, delimiter) != x
  {
    ItemsAreFrom(rows[..n], prefix, delimiter, x);
    forall j | 0 <= j < n ensures ItemOf(rows[j], prefix, delimiter) != x {
      assert rows[..n][j] == rows[j];
    }
  }

  lemma LaterRows(rows: seq<Listed>, prefix: string, delimiter: string, x: Item, c: nat, rest: seq<Listed>)
    requires c < |rows| && rest == rows[c + 1..]
    requires x in Items(rows, prefix, delimiter) && x !in Items(rows[..c], prefix, delimiter)
    requires ItemOf(rows[c], prefix, delimiter) != x
    ensures forall j | 0 <= j <= c :: ItemOf(rows[j], prefix, delimiter) != x
    ensures x in Items(rest, prefix, delimiter)
  {
    ItemsAreFrom(rows, prefix, delimiter, x);
    ItemsAreFrom(rest, prefix, delimiter, x);
    NotEarlier(rows, prefix, delimiter, x, c);
    var i :| 0 <= i < |rows| && ItemOf(rows[i], prefix, delimiter) == x;
    assert rest[i - c - 1] == rows[i];
  }

  lemma LaterWalked(rows: seq<Listed>, prefix: string, delimiter: string, max: nat, x: Item, c: nat, rest: seq<Listed>)
    requires c == Taken(rows, prefix, delimiter, max, 0) < |rows| && rest == rows[c + 1..]
    requires x !in Items(rows[..c], prefix, delimiter)
    ensures x in Walk(rows, prefix, delimiter, max) <==> x in Walk(rest, prefix, delimiter, max)
  {
    assert Walk(rows, prefix, delimiter, max)
        == Items(rows[..c], prefix, delimiter) + Walk(rest, prefix, delimiter, max);
  }

  lemma OnlyInBehind(
    rows: seq<Listed>, rest: seq<Listed>, prefix: string, delimiter: string,
    tokens: seq<Listed>, others: seq<Listed>, x: Item, c: nat)
    requires c < |rows| && rest == rows[c + 1..] && tokens == [rows[c]] + others
    requires forall j | 0 <= j <= c :: ItemOf(rows[j], prefix, delimiter) != x
    ensures OnlyIn(rows, prefix, delimiter, tokens, x) <==> OnlyIn(rest, prefix, delimiter, others, x)
  {
    if OnlyIn(rows, prefix, delimiter, tokens, x) {
      var i :| 0 <= i < |rows| && OnlyRow(rows, prefix, delimiter, x, i) && rows[i] in tokens;
      OnlyRowBehind(rows, prefix, delimiter, x, c + 1, i - c - 1);
      assert OnlyRow(rest, prefix, delimiter, x, i - c - 1);
    }
    if OnlyIn(rest, prefix, delimiter, others, x) {
      var i :| 0 <= i < |rest| && OnlyRow(rest, prefix, delimiter, x, i) && rest[i] in others;
      OnlyRowBehind(rows, prefix, delimiter, x, c + 1, i);
      assert OnlyRow(rows, prefix, delimiter, x, c + 1 + i);
    }
  }

  lemma OnlyRowBehind(rows: seq<Listed>, prefix: string, delimiter: string, x: Item, n: nat, j: nat)
    requires n + j < |rows|
    requires forall i | 0 <= i < n :: ItemOf(rows[i], prefix, delimiter) != x
    ensures OnlyRow(rows[n..], prefix, delimiter, x, j) <==> OnlyRow(rows, prefix, delimiter, x, n + j)
  {
    var rest := rows[n..];
    if OnlyRow(rest, prefix, delimiter, x, j) {
      forall i | 0 <= i < |rows| && i != n + j ensures ItemOf(rows[i], prefix, delimiter) != x {
        if i >= n {
          assert rest[i - n] == rows[i];
        }
      }
    }
    if OnlyRow(rows, prefix, delimiter, x, n + j) {
      forall i | 0 <= i < |rest| && i != j ensures ItemOf(rest[i], prefix, delimiter) != x {
        assert rest[i] == rows[n + i];
      }
    }
  }

  // Without a delimiter the skipped keys are exactly the tokens returned.
  lemma SkippedKeys(rows: seq<Listed>, prefix: string, max: nat, i: nat)
    requires Sorted(rows) && AllStart(rows, prefix) && max >= 1 && i < |rows|
    ensures Object(rows[i]) !in Walk(rows, prefix, "", max) <==> rows[i] in Tokens(rows, prefix, "", max)
  {
    var x := Object(rows[i]);
    ItemsAreFrom(rows, prefix, "", x);
    assert ItemOf(rows[i], prefix, "") == x;
    SkippedIff(rows, prefix, "", max, x);
    forall j | 0 <= j < |rows| && j != i ensures ItemOf(rows[j], prefix, "") != x {
      Asymmetric(Codes(rows[i].key), Codes(rows[j].key));
    }
    assert OnlyRow(rows, prefix, "", x, i);
  }

  // Three keys, one to a page: the second is never reported.
  lemma SecondOfThreeSkipped(a: Listed, b: Listed, c: Listed)
    requires a.key == "a" && b.key == "b" && c.key == "c"
    ensures Sorted([a, b, c]) && Walk([a, b, c], "", "", 1) == [Object(a), Object(c)]
    ensures WalkRepaired([a, b, c], "", "", 1) == [Object(a), Object(b), Object(c)]
  {
    var rows := [a, b, c];
    ThreeSorted(rows);
    assert rows[..1] == [a] && rows[..2] == [a, b] && rows[2..] == [c] && rows[..0] == [];
    assert [a][..0] == [] && [a, b][..1] == [a] && rows[..2][..1] == [a] && [c][..0] == [] && [c][..1] == [c];
    assert Items([a], "", "") == [Object(a)];
    assert Items([a, b], "", "") == [Object(a), Object(b)];
    assert Items([c], "", "") == [Object(c)];
    assert Taken(rows, "", "", 1, 1) == 1;
    assert Taken([c], "", "", 1, 1) == 1;
    RepairedWalkIsWhole(rows, "", "", 1);
    assert Items(rows, "", "") == [Object(a), Object(b), Object(c)];
  }

  lemma ThreeSorted(rows: seq<Listed>)
    requires |rows| == 3 && rows[0].key == "a" && rows[1].key == "b" && rows[2].key == "c"
    ensures Sorted(rows)
  {
    DiffersAt("a", "b", 0);
    DiffersAt("b", "c", 0);
    DiffersAt("a", "c", 0);
  }

  lemma {:induction false} Rejoin(x: seq<Item>, y: seq<Item>)
    ensures Objects(x + y) == Objects(x) + Objects(y) && Commons(x + y) == Commons(x) + Commons(y)
    decreases |y|
  {
    if y == [] {
      assert x + y == x;
    } else {
      Rejoin(x, y[..|y| - 1]);
      assert (x + y)[..|x + y| - 1] == x + y[..|y| - 1];
    }
  }

  // The pages of a walk put together, and its tokens.
  ghost predicate Walked(
    rows: seq<Listed>, prefix: string, delimiter: string, max: nat,
    contents: seq<Listed>, common: seq<string>, tokens: seq<string>)
  {
    var items, named := Walk(rows, prefix, delimiter, max), Tokens(rows, prefix, delimiter, max);
    && contents == Objects(items) && common == Commons(items)
    && |tokens| == |named| && forall i | 0 <= i < |tokens| :: tokens[i] == named[i].key
  }

  // The walk; none if a key cannot be cut, as its pages look at every row.
  ghost predicate WalkedIf(
    rows: seq<Listed>, prefix: string, delimiter: string, max: nat,
    ok: bool, contents: seq<Listed>, common: seq<string>, tokens: seq<string>)
  {
    && (ok <==> CutTo(rows, prefix, |rows|))
    && (ok ==> Walked(rows, prefix, delimiter, max, contents, common, tokens))
  }

  lemma WalkedOn(
    rows: seq<Listed>, rest: seq<Listed>, c: nat, prefix: string, delimiter: string, max: nat, page: Page,
    ok: bool, contents: seq<Listed>, common: seq<string>, tokens: seq<string>)
    requires c == Taken(rows, prefix, delimiter, max, 0) < |rows| && rest == rows[c + 1..]
    requires PageIf(rows, prefix, delimiter, max, Some(page)) && page.truncated
    requires WalkedIf(rest, prefix, delimiter, max, ok, contents, common, tokens)
    ensures WalkedIf(rows, prefix, delimiter, max, ok,
      page.contents + contents, page.common + common, [page.token] + tokens)
  {
    var first, items := Items(rows[..c], prefix, delimiter), Walk(rest, prefix, delimiter, max);
    PageIsPart(rows, prefix, delimiter, max, page);
    CutBehind(rows, rest, prefix, c);
    assert Walk(rows, prefix, delimiter, max) == first + items;
    Rejoin(first, items);
    LaterTokens(rows, prefix, delimiter, max, c, rest);
  }

  lemma OnePageWalk(rows: seq<Listed>, prefix: string, delimiter: string, max: nat, page: Page)
    requires PageIf(rows, prefix, delimiter, max, Some(page)) && !page.truncated
    ensures WalkedIf(rows, prefix, delimiter, max, true, page.contents, page.common, [])
  {
    PageIsPart(rows, prefix, delimiter, max, page);
  }

  // A client that follows the tokens until a page is not truncated, or fails.
  method FollowTokens(
    keys: seq<Listed>, prefix: string, delimiter: string, max: nat, start: string, batch: nat)
    returns (ok: bool, contents: seq<Listed>, common: seq<string>, tokens: seq<string>)
    requires Sorted(keys) && batch >= 1
    ensures WalkedIf(Rows(keys, prefix, start), prefix, delimiter, max, ok, contents, common, tokens)
    decreases |Rows(keys, prefix, start)|
  {
    ghost var rows := Rows(keys, prefix, start);
    var page := ListObjects(keys, prefix, delimiter, max, start, batch);
    if page.None? {
      return false, [], [], [];
    }
    if !page.value.truncated {
      OnePageWalk(rows, prefix, delimiter, max, page.value);
      return true, page.value.contents, page.value.common, [];
    }
    ghost var c := Taken(rows, prefix, delimiter, max, 0);
    RowsAfter(keys, prefix, start, c);
    var more, others, later;
    ok, more, others, later := FollowTokens(keys, prefix, delimiter, max, page.value.token, batch);
    WalkedOn(rows, rows[c + 1..], c, prefix, delimiter, max, page.value, ok, more, others, later);
    contents, common := page.value.contents + more, page.value.common + others;
    tokens := [page.value.token] + later;
  }

  // It does not fail if all scanned keys have the prefix, and it walks the keys
  // with the prefix if the scan gets none wrong.
  lemma WalkOfStarting(
    keys: seq<Listed>, prefix: string, delimiter: string, max: nat, start: string,
    ok: bool, contents: seq<Listed>, common: seq<string>, tokens: seq<string>)
    requires Sorted(keys)
    requires WalkedIf(Rows(keys, prefix, start), prefix, delimiter, max, ok, contents, common, tokens)
    ensures AllStart(Rows(keys, prefix, start), prefix) ==> ok
    ensures NoneStray(keys, prefix, start) ==>
      ok && Walked(Starting(keys, prefix, start), prefix, delimiter, max, contents, common, tokens)
  {
    ListsStarting(keys, prefix, start);
  }

  lemma CutBehind(rows: seq<Listed>, rest: seq<Listed>, prefix: string, c: nat)
    requires c < |rows| && rest == rows[c + 1..] && CutTo(rows, prefix, c + 1)
    ensures CutTo(rows, prefix, |rows|) <==> CutTo(rest, prefix, |rest|)
  {
    if CutTo(rest, prefix, |rest|) {
      forall i | 0 <= i < |rows| ensures Cuts(rows[i], prefix) {
        if i > c {
          assert rows[i] == rest[i - c - 1];
        }
      }
    }
  }

  lemma PageIsPart(rows: seq<Listed>, prefix: string, delimiter: string, max: nat, page: Page)
    requires PageOf(rows, prefix, delimiter, max, page)
    ensures var c := Taken(rows, prefix, delimiter, max, 0);
      && page.contents == Objects(Items(rows[..c], prefix, delimiter))
      && page.common == Commons(Items(rows[..c], prefix, delimiter))
      && (page.truncated <==> c < |rows|)
      && (c == |rows| ==> Items(rows[..c], prefix, delimiter) == Walk(rows, prefix, delimiter, max))
  {
    assert rows[..0] == [] && rows[..|rows|] == rows;
    TakenIs(rows, prefix, delimiter, max, 0);
  }
}
