// Key order, and the range scan that stands for a prefix (prefix_end in
// server.rs). PostgreSQL's "C" collation compares the UTF-8 bytes.
module KeyOrder {
  import opened Base

  // ---- lexicographic order ----

  // a comes strictly before b.
  predicate Before(a: seq<int>, b: seq<int>) {
    b != [] && (a == [] || a[0] < b[0] || (a[0] == b[0] && Before(a[1..], b[1..])))
  }

  function Codes(s: string): seq<int> { seq(|s|, i requires 0 <= i < |s| => s[i] as int) }

  // Keys by code points.
  predicate Less(a: string, b: string) { Before(Codes(a), Codes(b)) }

  // ---- UTF-8 (RFC 3629, section 3) ----

  function Utf8Char(c: char): seq<int> {
    var v := c as int;
    if v < 0x80 then [v]
    else if v < 0x800 then [0xC0 + v / 0x40, 0x80 + v % 0x40]
    else if v < 0x1_0000 then [0xE0 + v / 0x1000, 0x80 + v / 0x40 % 0x40, 0x80 + v % 0x40]
    else [0xF0 + v / 0x4_0000, 0x80 + v / 0x1000 % 0x40, 0x80 + v / 0x40 % 0x40, 0x80 + v % 0x40]
  }

  function Utf8(s: string): seq<int> {
    if s == [] then [] else Utf8Char(s[0]) + Utf8(s[1..])
  }

  // How many bytes that is.
  function Width(c: char): nat {
    var v := c as int;
    if v < 0x80 then 1 else if v < 0x800 then 2 else if v < 0x1_0000 then 3 else 4
  }

  function ByteLength(s: string): nat { if s == [] then 0 else Width(s[0]) + ByteLength(s[1..]) }

  lemma {:induction false} ByteLengthIs(s: string)
    ensures ByteLength(s) == |Utf8(s)|
  {
    if s != [] {
      ByteLengthIs(s[1..]);
    }
  }

  lemma {:induction false} SamePrefix(p: seq<int>, a: seq<int>, b: seq<int>)
    ensures Before(p + a, p + b) <==> Before(a, b)
  {
    if p == [] {
      assert p + a == a && p + b == b;
    } else {
      SamePrefix(p[1..], a, b);
      assert (p + a)[1..] == p[1..] + a && (p + b)[1..] == p[1..] + b;
    }
  }

  lemma FirstBefore(a: seq<int>, b: seq<int>, i: nat)
    requires i < |a| && i < |b| && a[..i] == b[..i] && a[i] < b[i]
    ensures Before(a, b)
  {
    assert a == a[..i] + a[i..] && b == a[..i] + b[i..];
    SamePrefix(a[..i], a[i..], b[i..]);
  }

  lemma Digits(v: nat, w: nat)
    requires v < w
    ensures v / 0x40 < w / 0x40 || (v / 0x40 == w / 0x40 && v % 0x40 < w % 0x40)
  {
  }

  lemma Shifts(v: nat)
    ensures v / 0x1000 == v / 0x40 / 0x40 && v / 0x4_0000 == v / 0x1000 / 0x40
  {
  }

  // The first base-64 digit in which v and w differ, of `n` below the lead digit.
  function Digit(v: nat, n: nat): nat
    decreases n
  {
    if n == 0 then v else Digit(v / 0x40, n - 1)
  }

  lemma {:induction false} DigitsDiffer(v: nat, w: nat, n: nat) returns (i: nat)
    requires v < w
    ensures i <= n && forall j | i < j <= n :: Digit(v, j) == Digit(w, j)
    ensures if i == n then Digit(v, n) < Digit(w, n) else Digit(v, i) % 0x40 < Digit(w, i) % 0x40
  {
    Digits(v, w);
    if n == 0 {
      i := 0;
    } else if v / 0x40 < w / 0x40 {
      var k := DigitsDiffer(v / 0x40, w / 0x40, n - 1);
      i := k + 1;
      forall j | i < j <= n ensures Digit(v, j) == Digit(w, j) {
        assert Digit(v / 0x40, j - 1) == Digit(w / 0x40, j - 1);
      }
    } else {
      i := 0;
      forall j | 0 < j <= n ensures Digit(v, j) == Digit(w, j) {
      }
    }
  }

  predicate SameLength(v: nat, w: nat) {
    (v < 0x80 <==> w < 0x80) && (v < 0x800 <==> w < 0x800) && (v < 0x1_0000 <==> w < 0x1_0000)
  }

  lemma DigitsAre(v: nat)
    ensures Digit(v, 0) == v && Digit(v, 1) == v / 0x40 && Digit(v, 2) == v / 0x1000 && Digit(v, 3) == v / 0x4_0000
  {
    Shifts(v);
    assert Digit(v / 0x40, 0) == v / 0x40;
    assert Digit(v / 0x40, 1) == Digit(v / 0x40 / 0x40, 0);
    assert Digit(v / 0x40, 2) == Digit(v / 0x40 / 0x40, 1);
  }

  // The bytes of v: its lead digit and then its other digits.
  ghost predicate Spells(bs: seq<int>, v: nat, n: nat, lead: int) {
    |bs| == n + 1 && bs[0] == lead + Digit(v, n)
    && forall j | 1 <= j <= n :: bs[j] == 0x80 + Digit(v, n - j) % 0x40
  }

  lemma CharSpells(c: char)
    ensures var v := c as int;
      Spells(Utf8Char(c), v, |Utf8Char(c)| - 1,
        if v < 0x80 then 0 else if v < 0x800 then 0xC0 else if v < 0x1_0000 then 0xE0 else 0xF0)
  {
    DigitsAre(c as int);
  }

  lemma SpellsDiffer(a: seq<int>, b: seq<int>, v: nat, w: nat, n: nat, lead: int) returns (i: nat)
    requires v < w && Spells(a, v, n, lead) && Spells(b, w, n, lead)
    ensures i <= n && a[i] < b[i] && a[..i] == b[..i]
  {
    var k := DigitsDiffer(v, w, n);
    i := n - k;
    forall j | 0 <= j < i ensures a[j] == b[j] {
      assert Digit(v, n - j) == Digit(w, n - j);
    }
  }

  // A smaller code point has a smaller byte where the encodings first differ.
  lemma CharDiffers(x: char, y: char) returns (i: nat)
    requires x < y
    ensures i < |Utf8Char(x)| && i < |Utf8Char(y)| && Utf8Char(x)[i] < Utf8Char(y)[i]
    ensures Utf8Char(x)[..i] == Utf8Char(y)[..i]
  {
    var v, w := x as int, y as int;
    if SameLength(v, w) {
      CharSpells(x);
      CharSpells(y);
      i := SpellsDiffer(Utf8Char(x), Utf8Char(y), v, w, |Utf8Char(x)| - 1,
        if v < 0x80 then 0 else if v < 0x800 then 0xC0 else if v < 0x1_0000 then 0xE0 else 0xF0);
    } else {
      i := 0;
    }
  }

  // So it encodes to earlier bytes, whatever follows.
  lemma CharOrder(x: char, y: char, r: seq<int>, t: seq<int>)
    requires x < y
    ensures Before(Utf8Char(x) + r, Utf8Char(y) + t)
  {
    var i := CharDiffers(x, y);
    var a, b := Utf8Char(x) + r, Utf8Char(y) + t;
    assert a[..i] == Utf8Char(x)[..i] && b[..i] == Utf8Char(y)[..i];
    FirstBefore(a, b, i);
  }

  lemma {:induction false} Asymmetric(a: seq<int>, b: seq<int>)
    ensures !(Before(a, b) && Before(b, a))
  {
    if a != [] && b != [] && a[0] == b[0] {
      Asymmetric(a[1..], b[1..]);
    }
  }

  // Byte order is code point order (RFC 3629, section 1).
  lemma {:induction false} ByteOrderIsCodeOrder(a: string, b: string)
    ensures Before(Utf8(a), Utf8(b)) <==> Less(a, b)
  {
    if a != [] && b != [] {
      var x, y := Utf8Char(a[0]), Utf8Char(b[0]);
      assert Codes(a)[1..] == Codes(a[1..]) && Codes(b)[1..] == Codes(b[1..]);
      if a[0] == b[0] {
        ByteOrderIsCodeOrder(a[1..], b[1..]);
        SamePrefix(x, Utf8(a[1..]), Utf8(b[1..]));
      } else if a[0] < b[0] {
        CharOrder(a[0], b[0], Utf8(a[1..]), Utf8(b[1..]));
      } else {
        CharOrder(b[0], a[0], Utf8(b[1..]), Utf8(a[1..]));
        Asymmetric(Utf8(a), Utf8(b));
      }
    }
  }

  // ---- the end of a prefix range ----

  const LAST: char := '\U{10FFFF}'
  const BEFORE_SURROGATES: char := '\U{D7FF}'

  // char::from_u32(c + 1): surrogates and what lies past U+10FFFF are no characters.
  function Successor(c: char): Option<char> {
    var n := c as int + 1;
    if n < 0xD800 || 0xE000 <= n < 0x11_0000 then Some(n as char) else None
  }

  function EndOf(prefix: string): string {
    if prefix == [] then [LAST] else
    var n := |prefix| - 1;
    if Successor(prefix[n]).Some? then prefix[..n] + [Successor(prefix[n]).value] else EndOf(prefix[..n])
  }

  method PrefixEnd(prefix: string) returns (s: string)
    ensures s == EndOf(prefix)
  {
    s := prefix;
    while s != []
      invariant EndOf(s) == EndOf(prefix)
      decreases |s|
    {
      var last := s[|s| - 1];
      s := s[..|s| - 1];
      var next := Successor(last);
      if next.Some? {
        return s + [next.value];
      }
    }
    s := [LAST];
  }

  // In the scanned range [prefix, end).
  predicate InRange(key: string, prefix: string) { !Less(key, prefix) && Less(key, EndOf(prefix)) }

  // Without trailing U+10FFFF.
  function Stripped(prefix: string): string {
    if prefix != [] && prefix[|prefix| - 1] == LAST then Stripped(prefix[..|prefix| - 1]) else prefix
  }

  // What decides the comparison is the first difference.
  lemma {:induction false} DiffersAt(a: string, b: string, i: nat)
    requires i < |a| && i < |b| && a[..i] == b[..i] && a[i] != b[i]
    ensures Less(a, b) <==> a[i] < b[i]
  {
    var p := Codes(a[..i]);
    assert Codes(a) == p + Codes(a[i..]) && Codes(b) == p + Codes(b[i..]);
    SamePrefix(p, Codes(a[i..]), Codes(b[i..]));
  }

  lemma LongerIsNotLess(a: string, b: string)
    requires b <= a
    ensures !Less(a, b)
  {
    assert Codes(a) == Codes(b) + Codes(a[|b|..]) && Codes(b) == Codes(b) + [];
    SamePrefix(Codes(b), Codes(a[|b|..]), []);
  }

  // Equal up to where one ends, or differing somewhere before.
  lemma {:induction false} FirstDifference(a: string, b: string) returns (i: nat)
    ensures i <= |a| && i <= |b| && a[..i] == b[..i]
    ensures i < |a| && i < |b| ==> a[i] != b[i]
  {
    i := 0;
    while i < |a| && i < |b| && a[i] == b[i]
      invariant i <= |a| && i <= |b| && a[..i] == b[..i]
    {
      i := i + 1;
    }
  }

  // How the end comes about: the last character with a successor gives way to
  // it; without one, the end is U+10FFFF alone.
  lemma {:induction false} EndShape(p: string) returns (i: int)
    ensures -1 <= i < |p| && forall j | i < j < |p| :: Successor(p[j]).None?
    ensures if i < 0 then EndOf(p) == [LAST]
      else Successor(p[i]).Some? && EndOf(p) == p[..i] + [Successor(p[i]).value]
  {
    if p == [] {
      i := -1;
    } else if Successor(p[|p| - 1]).Some? {
      i := |p| - 1;
    } else {
      i := EndShape(p[..|p| - 1]);
      assert i >= 0 ==> p[..|p| - 1][..i] == p[..i];
    }
  }

  lemma {:induction false} StrippedIs(p: string)
    ensures |Stripped(p)| <= |p| && p[..|Stripped(p)|] == Stripped(p)
    ensures forall j | |Stripped(p)| <= j < |p| :: p[j] == LAST
    ensures Stripped(p) == [] || Stripped(p)[|Stripped(p)| - 1] != LAST
  {
    if p != [] && p[|p| - 1] == LAST {
      StrippedIs(p[..|p| - 1]);
    }
  }

  // The end is past the prefix, and past every key that first differs from
  // the prefix beyond the character that was raised.
  lemma BelowEnd(p: string, key: string, i: nat)
    requires i < |p| && Successor(p[i]).Some? && EndOf(p) == p[..i] + [Successor(p[i]).value]
    requires i < |key| && key[..i] == p[..i] && key[i] == p[i]
    ensures Less(key, EndOf(p))
  {
    DiffersAt(key, EndOf(p), i);
  }

  // A key that first differs from the prefix no later than there, and upwards,
  // is not below the end.
  lemma NotBelowEnd(p: string, key: string, i: nat, d: nat)
    requires i < |p| && Successor(p[i]).Some? && EndOf(p) == p[..i] + [Successor(p[i]).value]
    requires d <= i && d < |key| && key[..d] == p[..d] && p[d] < key[d]
    ensures !Less(key, EndOf(p))
  {
    var e := EndOf(p);
    SameStart(e, p, i, d);
    if d == i && key[d] == e[d] {
      assert e <= key;
      LongerIsNotLess(key, e);
    } else {
      DiffersAt(key, e, d);
    }
  }

  lemma BelowLast(key: string)
    ensures Less(key, [LAST]) <==> !([LAST] <= key)
  {
    if key == [] {
      ShorterIsLess(key, [LAST]);
    } else if key[0] == LAST {
      LongerIsNotLess(key, [LAST]);
    } else {
      DiffersAt(key, [LAST], 0);
    }
  }

  lemma SameStart(a: string, b: string, n: nat, i: nat)
    requires n <= |a| && n <= |b| && a[..n] == b[..n] && i <= n
    ensures a[..i] == b[..i] && (i < n ==> a[i] == b[i])
  {
    assert a[..n][..i] == a[..i] && b[..n][..i] == b[..i];
    assert i < n ==> a[..n][i] == a[i] && b[..n][i] == b[i];
  }

  lemma ShorterIsLess(a: string, b: string)
    requires a <= b && a != b
    ensures Less(a, b)
  {
    assert Codes(b) == Codes(a) + Codes(b[|a|..]) && Codes(a) == Codes(a) + [];
    SamePrefix(Codes(a), [], Codes(b[|a|..]));
  }

  // ---- the keys that a scan gets wrong ----

  // Scanned without the prefix, or with it and not scanned.
  predicate Stray(key: string, prefix: string) { InRange(key, prefix) != (prefix <= key) }

  // The end is U+10FFFF, for want of a character to raise, and the key is not before it.
  predicate PastLast(key: string, prefix: string) { EndOf(prefix) == [LAST] && [LAST] <= key }

  // The key is the prefix up to a U+D7FF that the end leaves out, and goes on
  // with a later character.
  predicate SlipsAt(key: string, prefix: string, d: nat) {
    && d < |prefix| && d < |key| && key[..d] == prefix[..d]
    && prefix[d] == BEFORE_SURROGATES < key[d]
    && forall j | d <= j < |prefix| :: Successor(prefix[j]).None?
  }

  predicate Slips(key: string, prefix: string) { exists d: nat | d < |prefix| :: SlipsAt(key, prefix, d) }

  // Exactly which keys those are, for any prefix.
  lemma StrayIff(key: string, prefix: string)
    ensures Stray(key, prefix)
       <==> if PastLast(key, prefix) then prefix <= key else Slips(key, prefix)
  {
    var i := EndShape(prefix);
    BelowLast(key);
    if prefix <= key {
      LongerIsNotLess(key, prefix);
      if i >= 0 {
        BelowEnd(prefix, key, i);
      }
    } else if !PastLast(key, prefix) {
      WithoutPrefix(key, prefix, i);
    }
  }

  lemma FirstUnlike(key: string, prefix: string) returns (d: nat)
    requires !(prefix <= key)
    ensures d <= |key| && d < |prefix| && key[..d] == prefix[..d] && (d < |key| ==> key[d] != prefix[d])
    ensures Less(key, prefix) <==> d == |key| || key[d] < prefix[d]
  {
    d := FirstDifference(key, prefix);
    if d == |key| {
      ShorterIsLess(key, prefix);
    } else {
      DiffersAt(key, prefix, d);
    }
  }

  lemma WithoutPrefix(key: string, prefix: string, i: int)
    requires -1 <= i < |prefix| && forall j | i < j < |prefix| :: Successor(prefix[j]).None?
    requires if i < 0 then EndOf(prefix) == [LAST] && Less(key, [LAST])
      else Successor(prefix[i]).Some? && EndOf(prefix) == prefix[..i] + [Successor(prefix[i]).value]
    requires !(prefix <= key)
    ensures InRange(key, prefix) <==> Slips(key, prefix)
  {
    var d := FirstUnlike(key, prefix);
    if d == |key| || key[d] < prefix[d] {
      NoSlip(key, prefix, d);
    } else if d <= i {
      NotBelowEnd(prefix, key, i, d);
      NoSlip(key, prefix, d);
    } else {
      DroppedSlips(key, prefix, i, d);
    }
  }

  // Beyond the character raised, only U+D7FF can give way to a later one.
  lemma DroppedSlips(key: string, prefix: string, i: int, d: nat)
    requires -1 <= i < d < |prefix| && forall j | i < j < |prefix| :: Successor(prefix[j]).None?
    requires if i < 0 then EndOf(prefix) == [LAST] && Less(key, [LAST])
      else Successor(prefix[i]).Some? && EndOf(prefix) == prefix[..i] + [Successor(prefix[i]).value]
    requires d < |key| && key[..d] == prefix[..d] && prefix[d] < key[d] && !Less(key, prefix)
    ensures InRange(key, prefix) && Slips(key, prefix)
  {
    if i >= 0 {
      SameStart(key, prefix, d, i);
      BelowEnd(prefix, key, i);
    }
    assert SlipsAt(key, prefix, d);
  }

  // A slip is at the first difference.
  lemma NoSlip(key: string, prefix: string, d: nat)
    requires d <= |key| && d < |prefix| && key[..d] == prefix[..d] && (d < |key| ==> key[d] != prefix[d])
    requires !SlipsAt(key, prefix, d)
    ensures !Slips(key, prefix)
  {
    forall e: nat | e < |prefix| && SlipsAt(key, prefix, e) ensures false {
      if e > d {
        SameStart(key, prefix, e, d);
      } else if e < d {
        SameStart(key, prefix, d, e);
      }
    }
  }

  // What a prefix may be for its scan to be exact.
  predicate Scannable(prefix: string) {
    Stripped(prefix) != [] && Stripped(prefix)[|Stripped(prefix)| - 1] != BEFORE_SURROGATES
  }

  lemma NoSlips(key: string, prefix: string)
    requires Stripped(prefix) == [] || Scannable(prefix)
    ensures !Slips(key, prefix)
  {
    StrippedIs(prefix);
    var n := |Stripped(prefix)| - 1;
    assert n >= 0 ==> prefix[n] == Stripped(prefix)[n] && Successor(prefix[n]).Some?;
  }

  // With such a prefix, the scan finds exactly the keys that start with it.
  lemma ScanIsExact(prefix: string, key: string)
    requires Scannable(prefix)
    ensures InRange(key, prefix) <==> prefix <= key
  {
    StrippedIs(prefix);
    var i := EndShape(prefix);
    StrayIff(key, prefix);
    NoSlips(key, prefix);
  }

  // Any other prefix misses a key or finds a wrong one.
  lemma ScanIsInexact(prefix: string) returns (key: string)
    requires !Scannable(prefix)
    ensures InRange(key, prefix) != (prefix <= key)
  {
    StrippedIs(prefix);
    var i := EndShape(prefix);
    var n := |Stripped(prefix)|;
    if n == 0 {
      // Only U+10FFFF: the end is not past the prefix.
      assert i == -1;
      key := prefix + [LAST];
      LongerIsNotLess(key, EndOf(prefix));
    } else if i < 0 && prefix[0] == LAST {
      key := prefix;
      LongerIsNotLess(key, EndOf(prefix));
    } else {
      // U+D7FF has no successor: keys with a later character there slip in.
      key := prefix[..n - 1] + ['\U{E000}'];
      DiffersAt(key, prefix, n - 1);
      if i < 0 {
        DiffersAt(key, EndOf(prefix), 0);
      } else {
        DiffersAt(key, EndOf(prefix), i);
      }
    }
  }

  // The scan of a prefix is exact just when the prefix is not empty and does
  // not end in U+D7FF, trailing U+10FFFF aside.
  lemma ScanExactIff(prefix: string)
    ensures Scannable(prefix) <==> forall key :: InRange(key, prefix) <==> prefix <= key
  {
    if Scannable(prefix) {
      forall key: string ensures InRange(key, prefix) <==> prefix <= key {
        ScanIsExact(prefix, key);
      }
    } else {
      var key := ScanIsInexact(prefix);
    }
  }

  // Nothing is found that does not start with the prefix, unless it ends in
  // U+D7FF so.
  lemma ScannedStart(prefix: string, key: string)
    requires Stripped(prefix) == [] || Scannable(prefix)
    requires InRange(key, prefix)
    ensures prefix <= key
  {
    StrayIff(key, prefix);
    NoSlips(key, prefix);
  }
}
