/** Helpers shared by the models: collections, searching, decimal numerals, and 64-bit wrap-around. */
module Text {

  datatype Option<+T> = None | Some(value: T)

  predicate NoRepeats<T(==)>(s: seq<T>) { forall i, j :: 0 <= i < j < |s| ==> s[i] != s[j] }

  lemma CountedTwice<T>(s: seq<T>, i: nat, j: nat)
    requires i < j < |s| && s[i] == s[j]
    ensures multiset(s)[s[i]] >= 2
  {
    assert s == s[..j] + [s[j]] + s[j + 1..];
    assert s[..j][i] == s[i];
  }

  lemma Associative<T>(a: seq<T>, b: seq<T>, c: seq<T>)
    ensures a + (b + c) == (a + b) + c
  {
  }

  lemma SubsetSize<T>(a: set<T>, b: set<T>)
    requires a <= b
    ensures |a| <= |b|
  {
    if a != {} {
      var x :| x in a;
      SubsetSize(a - {x}, b - {x});
    }
  }

  const INT64_MAX: int := 0x7FFF_FFFF_FFFF_FFFF
  const TWO_64: int := 0x1_0000_0000_0000_0000

  /** Go's `int` arithmetic: the representative of x modulo 2^64 in [-2^63, 2^63). */
  function Wrap(x: int): (w: int)
    ensures -INT64_MAX - 1 <= w <= INT64_MAX
    ensures -INT64_MAX - 1 <= x <= INT64_MAX ==> w == x
  {
    (x + INT64_MAX + 1) % TWO_64 - INT64_MAX - 1
  }

  lemma WrapDiffers(x: int) returns (k: int)
    ensures Wrap(x) == x + k * TWO_64
  {
    k := -((x + INT64_MAX + 1) / TWO_64);
  }

  lemma WrapCongruent(x: int, k: int)
    ensures Wrap(x + k * TWO_64) == Wrap(x)
  {
    var y := x + INT64_MAX + 1;
    ModShift(y, k);
  }

  lemma ModShift(y: int, k: int)
    ensures (y + k * TWO_64) % TWO_64 == y % TWO_64
  {
    var q, r := y / TWO_64, y % TWO_64;
    assert y + k * TWO_64 == (q + k) * TWO_64 + r;
    DivModUnique(y + k * TWO_64, q + k, r);
  }

  lemma DivModUnique(y: int, q: int, r: int)
    requires y == q * TWO_64 + r && 0 <= r < TWO_64
    ensures y % TWO_64 == r
  {
  }

  /** Wrapping can be postponed: sums and products of wrapped values wrap to the same result. */
  lemma WrapSum(a: int, b: int)
    ensures Wrap(Wrap(a) + Wrap(b)) == Wrap(a + b)
  {
    var i := WrapDiffers(a);
    var j := WrapDiffers(b);
    WrapCongruent(a + b, i + j);
    assert Wrap(a) + Wrap(b) == a + b + (i + j) * TWO_64;
  }

  lemma WrapProduct(a: int, b: int)
    ensures Wrap(Wrap(a) * b) == Wrap(a * b)
  {
    var i := WrapDiffers(a);
    WrapCongruent(a * b, i * b);
    assert Wrap(a) * b == a * b + (i * b) * TWO_64 by {
      assert (a + i * TWO_64) * b == a * b + i * TWO_64 * b;
      assert i * TWO_64 * b == (i * b) * TWO_64;
    }
  }

  /** Go's unicode.IsSpace, the set strings.TrimSpace removes. */
  predicate IsSpace(c: char) {
    || '\t' <= c <= '\r' || c == ' ' || c == '\U{0085}' || c == '\U{00A0}' || c == '\U{1680}'
    || '\U{2000}' <= c <= '\U{200A}' || c == '\U{2028}' || c == '\U{2029}' || c == '\U{202F}'
    || c == '\U{205F}' || c == '\U{3000}'
  }

  /** The code points with the Unicode property White_Space. */
  lemma SpaceExactly(c: char)
    ensures IsSpace(c) <==>
              c as int in {0x09, 0x0A, 0x0B, 0x0C, 0x0D, 0x20, 0x85, 0xA0, 0x1680, 0x2000, 0x2001, 0x2002, 0x2003, 0x2004,
                           0x2005, 0x2006, 0x2007, 0x2008, 0x2009, 0x200A, 0x2028, 0x2029, 0x202F, 0x205F, 0x3000}
  {
  }

  predicate AllSpace(s: string) { forall k :: 0 <= k < |s| ==> IsSpace(s[k]) }

  /** strings.TrimSpace. */
  function Trim(s: string): (r: string)
    ensures |r| <= |s|
    ensures r != [] ==> !IsSpace(r[0]) && !IsSpace(r[|r| - 1])
  {
    if s == [] then []
    else if IsSpace(s[0]) then Trim(s[1..])
    else if IsSpace(s[|s| - 1]) then Trim(s[..|s| - 1])
    else s
  }

  /** Nothing but white space is removed, and on both sides. */
  lemma {:induction false} TrimRemovesSpace(s: string) returns (left: string, right: string)
    ensures s == left + (Trim(s) + right) && AllSpace(left) && AllSpace(right)
  {
    left, right := "", "";
    if s == [] {
    } else if IsSpace(s[0]) {
      left, right := TrimRemovesSpace(s[1..]);
      left := [s[0]] + left;
    } else if IsSpace(s[|s| - 1]) {
      var short, last := s[..|s| - 1], [s[|s| - 1]];
      left, right := TrimRemovesSpace(short);
      assert s == short + last;
      Regrouped(left, Trim(short), right, last);
      right := right + last;
    }
  }

  lemma Regrouped(a: string, b: string, c: string, d: string)
    ensures (a + (b + c)) + d == a + (b + (c + d))
  {
  }

  /** Whether `key` occurs in `s` at position i. */
  predicate OccursAt(s: string, key: string, i: int) {
    0 <= i && i + |key| <= |s| && s[i..i + |key|] == key
  }

  /** The first occurrence of `key` in `s`, or -1 (Go's strings.Index). */
  function Index(s: string, key: string): (r: int)
    ensures -1 <= r
    ensures r >= 0 ==> r + |key| <= |s|
  {
    if |s| < |key| then -1
    else if s[..|key|] == key then 0
    else
      var r := Index(s[1..], key);
      if r < 0 then -1 else r + 1
  }

  lemma {:induction false} IndexIsFirst(s: string, key: string)
    ensures Index(s, key) >= 0 ==> OccursAt(s, key, Index(s, key))
    ensures forall i :: OccursAt(s, key, i) ==> 0 <= Index(s, key) <= i
  {
    if |s| < |key| || s[..|key|] == key {
    } else {
      IndexIsFirst(s[1..], key);
      var r := Index(s[1..], key);
      if r >= 0 { assert s[1..][r..r + |key|] == s[r + 1..r + 1 + |key|]; }
      forall i | OccursAt(s, key, i)
        ensures 0 <= Index(s, key) <= i
      {
        assert i > 0;
        assert s[1..][i - 1..i - 1 + |key|] == s[i..i + |key|];
        assert OccursAt(s[1..], key, i - 1);
      }
    }
  }

  lemma {:induction false} NeverOccurs(s: string, key: string)
    requires key != "" && key[0] !in s
    ensures Index(s, key) == -1
  {
    if |s| >= |key| {
      assert s[..|key|][0] == s[0] && s[0] in s;
      NeverOccurs(s[1..], key);
    }
  }

  predicate IsDigit(c: char) { '0' <= c <= '9' }

  predicate AllDigits(s: string) { forall i :: 0 <= i < |s| ==> IsDigit(s[i]) }

  function Digit(d: nat): (c: char)
    requires d < 10
    ensures IsDigit(c) && c as int == '0' as int + d
  {
    '0' + d as char
  }

  /** The value of a decimal numeral, most significant digit first. */
  function NumeralValue(s: string): nat
    requires AllDigits(s)
  {
    if s == [] then 0
    else 10 * NumeralValue(s[..|s| - 1]) + (s[|s| - 1] as int - '0' as int)
  }

  /** The shortest decimal numeral of n. */
  function Numeral(n: nat): (s: string)
    ensures |s| > 0 && AllDigits(s)
  {
    if n < 10 then [Digit(n)] else Numeral(n / 10) + [Digit(n % 10)]
  }

  lemma {:induction false} NumeralReadsBack(n: nat)
    ensures NumeralValue(Numeral(n)) == n
  {
    if n < 10 {
      assert [Digit(n)][..0] == [];
    } else {
      NumeralReadsBack(n / 10);
      var s := Numeral(n / 10) + [Digit(n % 10)];
      assert s[..|s| - 1] == Numeral(n / 10);
    }
  }
}
