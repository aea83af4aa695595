/** Segment file names: `segment-{id:06}.seg` from the log, `segment-{id:03}.seg` from compaction.
    Replay sorts names, everything else works on ids; this module relates the two. */
module SegmentNames {
  import opened ByteCodec

  function Digit(d: nat): (c: char)
    requires d < 10
  {
    (48 + d) as char
  }

  /** `n` in decimal, padded with zeros to at least `width` digits. */
  function Decimal(n: nat, width: nat): (s: string)
    ensures |s| > 0
    decreases n + width
  {
    if n < 10 && width <= 1 then [Digit(n)]
    else Decimal(n / 10, if width == 0 then 0 else width - 1) + [Digit(n % 10)]
  }

  function Name(id: nat, width: nat): (s: string) {
    "segment-" + Decimal(id, width) + ".seg"
  }

  function Pow10(n: nat): (r: nat)
    ensures r > 0
  {
    if n == 0 then 1 else 10 * Pow10(n - 1)
  }

  /** `str::parse::<u64>` on a string of digits. */
  function ParseDigits(s: string): (r: Option<nat>)
  {
    if s == [] then None
    else
      var c := s[|s| - 1] as int - 48;
      if c < 0 || c > 9 then None
      else if |s| == 1 then Some(c)
      else
        var front := ParseDigits(s[..|s| - 1]);
        if front.None? then None else Some(front.value * 10 + c)
  }

  /** The id is recovered from the digits of a name, whatever the padding. */
  lemma {:induction false} DigitsParseBack(n: nat, width: nat)
    ensures ParseDigits(Decimal(n, width)) == Some(n)
    decreases n + width
  {
    if !(n < 10 && width <= 1) {
      var w := if width == 0 then 0 else width - 1;
      DigitsParseBack(n / 10, w);
      var s := Decimal(n, width);
      assert s[..|s| - 1] == Decimal(n / 10, w);
    }
  }

  /** Byte-wise order of two strings, as `sort` uses it. */
  ghost predicate LexLess(a: string, b: string) {
    exists k: nat :: DiffersAt(a, b, k)
  }

  ghost predicate DiffersAt(a: string, b: string, k: nat) {
    k < |b| && k <= |a| && a[..k] == b[..k] && (k == |a| || a[k] < b[k])
  }

  lemma {:induction false} DecimalWidth(n: nat, width: nat)
    requires 0 < width && n < Pow10(width)
    ensures |Decimal(n, width)| == width
  {
    if width > 1 {
      DecimalWidth(n / 10, width - 1);
    }
  }

  lemma Extend(x: string, a: string, b: string, y: string, z: string, k: nat)
    requires DiffersAt(a, b, k) && k < |a|
    ensures DiffersAt(x + a + y, x + b + z, |x| + k)
  {
    assert (x + a + y)[..|x| + k] == x + a[..k];
    assert (x + b + z)[..|x| + k] == x + b[..k];
  }

  lemma {:induction false} DecimalOrder(a: nat, b: nat, width: nat) returns (k: nat)
    requires a < b < Pow10(width) && 0 < width
    ensures k < width && |Decimal(a, width)| == width
    ensures DiffersAt(Decimal(a, width), Decimal(b, width), k)
  {
    DecimalWidth(a, width);
    DecimalWidth(b, width);
    var s, t := Decimal(a, width), Decimal(b, width);
    k := width - 1;
    if width > 1 {
      var s', t' := Decimal(a / 10, width - 1), Decimal(b / 10, width - 1);
      assert s[..width - 1] == s' && t[..width - 1] == t';
      if a / 10 < b / 10 {
        k := DecimalOrder(a / 10, b / 10, width - 1);
        assert s[..k] == s'[..k] && t[..k] == t'[..k];
      }
    }
  }

  /** Below a million, names sort as ids do. */
  lemma NamesSortAsIds(a: nat, b: nat)
    requires a < b < 1_000_000
    ensures LexLess(Name(a, 6), Name(b, 6))
  {
    assert Pow10(6) == 1_000_000 by { assert Pow10(3) == 1000; assert Pow10(6) == 10 * (10 * (10 * Pow10(3))); }
    var k := DecimalOrder(a, b, 6);
    Extend("segment-", Decimal(a, 6), Decimal(b, 6), ".seg", ".seg", k);
  }

  // ------------------------------------------------------- the order of names, exactly

  /** How many digits the name of `id` has. */
  function Width(id: nat): (w: nat) {
    |Decimal(id, 6)|
  }

  lemma {:induction false} DecimalLength(n: nat, w: nat)
    requires w > 0
    ensures var len := |Decimal(n, w)|; len >= w && n < Pow10(len) && (len > w ==> n >= Pow10(len - 1))
    decreases n + w
  {
    if n < 10 && w <= 1 {
      assert Pow10(1) == 10;
    } else if w == 1 {
      ShortLength(n / 10);
      assert Decimal(n, 1) == Decimal(n / 10, 0) + [Digit(n % 10)];
    } else {
      DecimalLength(n / 10, w - 1);
    }
  }

  lemma {:induction false} ShortLength(n: nat)
    ensures var len := |Decimal(n, 0)|; n < Pow10(len) && (len > 1 ==> n >= Pow10(len - 1))
    ensures n > 0 ==> n >= Pow10(|Decimal(n, 0)| - 1)
  {
    if n < 10 {
      assert Pow10(1) == 10 && Pow10(0) == 1;
    } else {
      ShortLength(n / 10);
    }
  }

  /** Padding to the length a number has anyway changes nothing. */
  lemma {:induction false} OwnWidth(n: nat, w: nat)
    ensures Decimal(n, |Decimal(n, w)|) == Decimal(n, w)
    decreases n + w
  {
    if !(n < 10 && w <= 1) {
      OwnWidth(n / 10, if w == 0 then 0 else w - 1);
    }
  }

  lemma {:induction false} Pow10Grows(a: nat, b: nat)
    requires a <= b
    ensures Pow10(a) <= Pow10(b)
  {
    if a < b { Pow10Grows(a, b - 1); }
  }

  lemma WidthGrows(a: nat, b: nat)
    requires a < b
    ensures 6 <= Width(a) <= Width(b) && a < Pow10(Width(a)) && b < Pow10(Width(b))
    ensures Decimal(a, Width(a)) == Decimal(a, 6) && Decimal(b, Width(b)) == Decimal(b, 6)
  {
    hide Decimal, Pow10;
    DecimalLength(a, 6);
    DecimalLength(b, 6);
    OwnWidth(a, 6);
    OwnWidth(b, 6);
    if Width(a) > Width(b) { Pow10Grows(Width(b), Width(a) - 1); }
  }

  lemma DivideTwice(b: nat, m: nat)
    requires m > 0
    ensures b / (10 * m) == (b / 10) / m
  {
    var q := (b / 10) / m;
    var r := (b / 10) % m;
    assert b / 10 == m * q + r && b == 10 * (b / 10) + b % 10;
    assert b == (10 * m) * q + (10 * r + b % 10);
    Quotient(b, 10 * m, q, 10 * r + b % 10);
  }

  lemma Quotient(b: nat, m: nat, q: nat, r: nat)
    requires b == m * q + r && r < m
    ensures b / m == q
  {
    var x, t := b / m, b % m;
    Split(b, m);
    Distribute(m, x, q);
    Multiples(m, x - q);
  }

  lemma Split(b: nat, m: nat)
    requires m > 0
    ensures b == m * (b / m) + b % m && 0 <= b % m < m
  {
  }

  lemma Distribute(m: nat, x: int, q: int)
    ensures m * (x - q) == m * x - m * q
  {
  }

  lemma Multiples(m: int, t: int)
    requires m >= 0
    ensures t >= 1 ==> m * t >= m
    ensures t <= -1 ==> m * t <= -m
  {
  }

  /** The first digits of a number are those of its quotient by a power of ten. */
  lemma {:induction false} LeadingDigits(b: nat, w: nat, d: nat)
    requires b < Pow10(w) && d < w
    ensures |Decimal(b, w)| == w && b / Pow10(d) < Pow10(w - d)
    ensures Decimal(b, w)[..w - d] == Decimal(b / Pow10(d), w - d)
    decreases d
  {
    DecimalWidth(b, w);
    if d == 0 {
      assert Decimal(b, w)[..w] == Decimal(b, w) && b / 1 == b;
    } else {
      LeadingDigits(b / 10, w - 1, d - 1);
      DivideTwice(b, Pow10(d - 1));
      var s := Decimal(b, w);
      assert s == Decimal(b / 10, w - 1) + [Digit(b % 10)];
      assert s[..w - d] == Decimal(b / 10, w - 1)[..w - d];
    }
  }

  lemma {:induction false} LastIsDigit(n: nat, w: nat, k: nat)
    requires k < |Decimal(n, w)|
    ensures '0' <= Decimal(n, w)[k] <= '9'
    decreases n + w
  {
    if !(n < 10 && w <= 1) && k < |Decimal(n, w)| - 1 {
      LastIsDigit(n / 10, if w == 0 then 0 else w - 1, k);
    }
  }

  lemma LessIsStrict(a: string, b: string)
    requires LexLess(a, b)
    ensures !LexLess(b, a)
  {
    var k: nat :| DiffersAt(a, b, k);
    forall j: nat ensures !DiffersAt(b, a, j) {
      NotBoth(a, b, k, j);
    }
  }

  lemma NotBoth(a: string, b: string, k: nat, j: nat)
    requires DiffersAt(a, b, k)
    ensures !DiffersAt(b, a, j)
  {
    if j < k {
      assert a[..k][j] == b[..k][j];
    } else if k < j < |a| && j <= |b| {
      assert a[..j][k] == a[k] && b[..j][k] == b[k];
    }
  }

  /** The smaller of two ids has the smaller name if and only if it is at most the number that the
      leading digits of the larger one make, as many as it has itself. (Where they are equal, the dot
      after the shorter name sorts before the next digit of the longer.) */
  lemma NamesSortIff(a: nat, b: nat)
    requires a < b
    ensures Width(a) <= Width(b)
    ensures LexLess(Name(a, 6), Name(b, 6)) <==> a <= b / Pow10(Width(b) - Width(a))
  {
    hide Decimal, Pow10, LexLess;
    WidthGrows(a, b);
    var w, d := Width(a), Width(b) - Width(a);
    var q := b / Pow10(d);
    LeadingDigits(b, Width(b), d);
    DecimalWidth(a, w);
    DecimalWidth(q, w);
    var s, t := Decimal(a, 6), Decimal(b, 6);
    assert t[..w] == Decimal(q, w);
    if a < q {
      var k := DecimalOrder(a, q, w);
      LessByDigit(s, t[..w], t, k);
    } else if q < a {
      var k := DecimalOrder(q, a, w);
      LessByPrefix(t[..w], s, t, k);
      LessIsStrict(Name(b, 6), Name(a, 6));
    } else {
      if d == 0 {
        DivideByOne(b);
      } else {
        LastIsDigit(b, 6, w);
        LessByDot(s, t);
      }
    }
  }

  lemma DivideByOne(b: nat)
    ensures b / Pow10(0) == b
  {
  }

  lemma LessByDigit(s: string, p: string, t: string, k: nat)
    requires DiffersAt(s, p, k) && k < |s| && |p| <= |t| && t[..|p|] == p
    ensures LexLess("segment-" + s + ".seg", "segment-" + t + ".seg")
  {
    assert t[..k] == p[..k] && t[k] == p[k];
    assert DiffersAt(s, t, k);
    Extend("segment-", s, t, ".seg", ".seg", k);
  }

  lemma LessByPrefix(p: string, s: string, t: string, k: nat)
    requires DiffersAt(p, s, k) && k < |p| && |p| <= |t| && t[..|p|] == p
    ensures LexLess("segment-" + t + ".seg", "segment-" + s + ".seg")
  {
    assert t[..k] == p[..k] && t[k] == p[k];
    assert DiffersAt(t, s, k);
    Extend("segment-", t, s, ".seg", ".seg", k);
  }

  lemma LessByDot(s: string, t: string)
    requires |s| < |t| && t[..|s|] == s && '0' <= t[|s|] <= '9'
    ensures LexLess("segment-" + s + ".seg", "segment-" + t + ".seg")
  {
    var x, y := "segment-" + s + ".seg", "segment-" + t + ".seg";
    var k := 8 + |s|;
    assert x[..k] == "segment-" + s && y[..k] == "segment-" + t[..|s|];
    assert x[k] == '.' && y[k] == t[|s|];
    assert DiffersAt(x, y, k);
  }

  /** So from a million on names do not sort as ids: the tenth level of copies comes before the
      second. */
  lemma SevenDigitsSortFirst()
    ensures !LexLess(Name(200_001, 6), Name(1_000_001, 6))
  {
    hide LexLess;
    assert Decimal(1_000_001, 6) == "1000001" by {
      assert Decimal(1_000, 3) == "1000";
      assert Decimal(1_000_001, 6) == Decimal(1_000, 3) + "001";
    }
    assert Decimal(200_001, 6) == "200001" by {
      assert Decimal(200, 3) == "200";
      assert Decimal(200_001, 6) == Decimal(200, 3) + "001";
    }
    NamesSortIff(200_001, 1_000_001);
    assert Pow10(1) == 10;
  }

  /** Both paddings give the same name to every id a compaction writes. */
  lemma {:induction false} PaddingAgrees(n: nat, w: nat)
    requires w > 0 && n >= Pow10(w - 1)
    ensures Decimal(n, w) == Decimal(n, 0)
  {
    if w > 1 {
      PaddingAgrees(n / 10, w - 1);
    }
  }

  lemma CompactedNamesAgree(id: nat)
    requires id >= 100_000
    ensures Name(id, 3) == Name(id, 6)
  {
    assert Pow10(5) == 100_000 by { assert Pow10(2) == 100; assert Pow10(5) == 10 * (10 * (10 * Pow10(2))); }
    assert Pow10(2) == 100;
    PaddingAgrees(id, 6);
    PaddingAgrees(id, 3);
  }
}
