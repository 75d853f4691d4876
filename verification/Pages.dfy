/** Page arithmetic (graph/model/models.go, the LIMIT/OFFSET listings of internal/repository) and
    decimal printing (graph/handler.go). */
module Pages {
  import opened Text

  /** LIMIT pageSize OFFSET (page - 1) * pageSize; None is the SQL error of a negative value. */
  function Slice<T>(all: seq<T>, page: int, pageSize: int): (r: Option<seq<T>>)
    ensures r.None? <==> pageSize < 0 || (page < 1 && pageSize > 0)
  {
    var offset := (page - 1) * pageSize;
    OffsetSign(page, pageSize);
    if pageSize < 0 || offset < 0 then None
    else
      var from := if offset > |all| then |all| else offset;
      var to := if from + pageSize > |all| then |all| else from + pageSize;
      Some(all[from..to])
  }

  lemma OffsetSign(page: int, pageSize: int)
    ensures pageSize >= 0 ==> ((page - 1) * pageSize < 0 <==> page < 1 && pageSize > 0)
  {
    if pageSize > 0 && page >= 1 { assert (page - 1) * pageSize >= 0; }
    if pageSize > 0 && page < 1 { Monotone(page - 1, -1, pageSize); }
  }

  datatype PageInfo = PageInfo(page: int, pageSize: int, totalCount: nat, totalPages: nat, hasNext: bool)

  /** ceil(total / pageSize). */
  function TotalPages(pageSize: int, total: nat): (n: nat)
    ensures pageSize <= 0 ==> n == 0
    ensures pageSize > 0 ==> (n as int - 1) * pageSize < total <= n * pageSize || (total == 0 && n == 0)
  {
    if pageSize <= 0 then 0
    else
      var q, r := total / pageSize, total % pageSize;
      assert total == q * pageSize + r;
      if r != 0 then
        assert (q + 1) * pageSize == q * pageSize + pageSize;
        q + 1
      else
        assert (q - 1) * pageSize == q * pageSize - pageSize;
        q
  }

  method NewPageInfo(page: int, pageSize: int, total: nat) returns (r: PageInfo)
    ensures r == PageInfo(page, pageSize, total, TotalPages(pageSize, total), page < TotalPages(pageSize, total))
  {
    var pages := 0;
    if pageSize > 0 {
      pages := total / pageSize;
      if total % pageSize != 0 {
        pages := pages + 1;
      }
    }
    r := PageInfo(page, pageSize, total, pages, page < pages);
  }

  /** Pages 1..n, one after another. */
  function FirstPages<T>(all: seq<T>, n: nat, pageSize: nat): seq<T> {
    if n == 0 then []
    else
      var last := Slice(all, n, pageSize);
      FirstPages(all, n - 1, pageSize) + if last.None? then [] else last.value
  }

  function TakeUpTo<T>(all: seq<T>, k: nat): seq<T> { all[..if k > |all| then |all| else k] }

  lemma SliceExtends<T>(all: seq<T>, n: nat, pageSize: nat, offset: nat)
    requires n >= 1 && offset == (n - 1) * pageSize
    ensures Slice(all, n, pageSize).Some?
    ensures TakeUpTo(all, offset) + Slice(all, n, pageSize).value == TakeUpTo(all, offset + pageSize)
  {
  }

  lemma {:induction false} FirstPagesPrefix<T>(all: seq<T>, n: nat, pageSize: nat)
    ensures FirstPages(all, n, pageSize) == TakeUpTo(all, n * pageSize)
  {
    if n > 0 {
      FirstPagesPrefix(all, n - 1, pageSize);
      var offset := (n - 1) * pageSize;
      assert n * pageSize == offset + pageSize;
      SliceExtends(all, n, pageSize, offset);
    }
  }

  /** HasNext says whether rows remain behind the page. */
  lemma HasNextExactly(pageSize: nat, total: nat, page: nat)
    requires pageSize > 0 && page >= 1
    ensures page < TotalPages(pageSize, total) <==> page * pageSize < total
  {
    var n := TotalPages(pageSize, total);
    if page < n {
      Monotone(page, n - 1, pageSize);
    } else {
      Monotone(n, page, pageSize);
    }
  }

  lemma LastPageReaches(pageSize: nat, total: nat)
    requires pageSize > 0
    ensures total <= TotalPages(pageSize, total) * pageSize
  {
  }

  /** The pages cover: concatenating pages 1..TotalPages gives every row once, in order, and the
      pages up to `page` leave rows over exactly when HasNext is true. */
  lemma PagesCover<T>(all: seq<T>, pageSize: nat, page: nat)
    requires pageSize > 0 && page >= 1
    ensures FirstPages(all, TotalPages(pageSize, |all|), pageSize) == all
    ensures page < TotalPages(pageSize, |all|) <==> FirstPages(all, page, pageSize) != all
  {
    FirstPagesPrefix(all, TotalPages(pageSize, |all|), pageSize);
    LastPageReaches(pageSize, |all|);
    FirstPagesPrefix(all, page, pageSize);
    HasNextExactly(pageSize, |all|, page);
    assert all[..|all|] == all;
  }

  lemma Monotone(a: int, b: int, k: nat)
    requires a <= b
    ensures a * k <= b * k
  {
  }
}

module Decimal {
  import opened Text
  import opened Scanner
  import opened Paging

  predicate IsInt64(n: int) { -INT64_MAX - 1 <= n <= INT64_MAX }

  function Ten(e: nat): nat { if e == 0 then 1 else 10 * Ten(e - 1) }

  /** What itoa prints: the numeral with its sign, and a bare '-' for the smallest value, whose
      negation is itself. */
  function Printed(n: int): string {
    if n >= 0 then Numeral(n)
    else if n == -INT64_MAX - 1 then "-"
    else "-" + Numeral(-n)
  }

  function DigitsOf(m: int): string { if m <= 0 then [] else Numeral(m) }

  lemma MoveDigit(all: string, m: int, tail: string)
    requires m > 0 && all == DigitsOf(m) + tail
    ensures all == DigitsOf(m / 10) + ([Digit(m % 10)] + tail)
  {
    assert DigitsOf(m) == DigitsOf(m / 10) + [Digit(m % 10)];
  }

  lemma {:induction false} NumeralLength(n: nat, e: nat)
    requires e >= 1 && n < Ten(e)
    ensures |Numeral(n)| <= e
  {
    if n >= 10 {
      assert e > 1;
      NumeralLength(n / 10, e - 1);
    }
  }

  lemma AtMostNineteenDigits(n: int)
    requires n <= INT64_MAX
    ensures |DigitsOf(n)| <= 19
  {
    NineteenDigits();
    if n > 0 { NumeralLength(n, 19); }
  }

  /** The loop of itoa: digits fill the buffer from the back, and leave room for a sign. */
  method FillDigits(buf: array<char>, n: int) returns (i: nat)
    requires buf.Length == 20 && n <= INT64_MAX
    modifies buf
    ensures 1 <= i <= 20 && buf[i..] == DigitsOf(n)
    ensures n <= 0 ==> buf[..] == old(buf[..])
  {
    AtMostNineteenDigits(n);
    ghost var digits := DigitsOf(n);
    i := buf.Length;
    var m := n;
    while m > 0
      invariant i <= 20
      invariant n <= 0 ==> m == n && buf[..] == old(buf[..])
      invariant digits == DigitsOf(m) + buf[i..]
    {
      ghost var tail := buf[i..];
      MoveDigit(digits, m, tail);
      i := i - 1;
      buf[i] := Digit(m % 10);
      assert buf[i..] == [Digit(m % 10)] + tail;
      m := m / 10;
    }
  }

  /** The sign goes in front of the digits. */
  method AddSign(buf: array<char>, digits: nat) returns (i: nat)
    requires 1 <= digits <= buf.Length
    modifies buf
    ensures i == digits - 1 && buf[i..] == ['-'] + old(buf[digits..])
  {
    i := digits - 1;
    buf[i] := '-';
  }

  lemma PrintedBySign(n: int)
    requires IsInt64(n)
    ensures n > 0 ==> Printed(n) == DigitsOf(n)
    ensures n < 0 ==> Printed(n) == "-" + DigitsOf(Wrap(-n)) && Wrap(-n) <= INT64_MAX
  {
  }

  /** itoa: the 20-byte buffer is never underrun. */
  method Itoa(n: int) returns (s: string)
    requires IsInt64(n)
    ensures s == Printed(n)
  {
    if n == 0 {
      return "0";
    }
    var buf := new char[20];
    var neg := n < 0;
    var m := if neg then Wrap(-n) else n;
    var i := FillDigits(buf, m);
    PrintedBySign(n);
    if neg {
      i := AddSign(buf, i);
    }
    return buf[i..];
  }

  lemma NineteenDigits()
    ensures INT64_MAX < Ten(19)
  {
    assert Ten(4) == 10_000;
    assert Ten(8) == 10_000 * Ten(4) by { assert Ten(8) == 10 * (10 * (10 * (10 * Ten(4)))); }
    assert Ten(12) == 10_000 * Ten(8) by { assert Ten(12) == 10 * (10 * (10 * (10 * Ten(8)))); }
    assert Ten(16) == 10_000 * Ten(12) by { assert Ten(16) == 10 * (10 * (10 * (10 * Ten(12)))); }
    assert Ten(19) == 1_000 * Ten(16) by { assert Ten(19) == 10 * (10 * (10 * Ten(16))); }
  }

  /** Reading a signed decimal. */
  function Parse(s: string): Option<int> {
    if s != [] && AllDigits(s) then
      var v: int := NumeralValue(s);
      Some(v)
    else if |s| >= 2 && s[0] == '-' && AllDigits(s[1..]) then
      var v: int := NumeralValue(s[1..]);
      Some(-v)
    else None
  }

  /** Every 64-bit value prints back exactly, except the smallest. */
  lemma PrintedParsesExactly(n: int)
    requires IsInt64(n)
    ensures Parse(Printed(n)) == Some(n) <==> n != -INT64_MAX - 1
  {
    if n >= 0 {
      NumeralReadsBack(n);
    } else {
      var s := Printed(n);
      assert s[0] == '-';
      if n != -INT64_MAX - 1 {
        assert s[1..] == Numeral(-n);
        NumeralReadsBack(-n);
      }
    }
  }

  /** A positive value printed as a page size is read by the analyzer as min(n, max). */
  lemma PrintedPageSizeReadsBack(n: int, maxPage: nat)
    requires IsInt64(n) && n > 0 && maxPage >= 1
    ensures PageMultiplier(PAGE_SIZE + (":" + Printed(n)), maxPage) == if n > maxPage then maxPage else n
  {
    PageSizeNumeralReadsBack(n, maxPage);
  }
}
