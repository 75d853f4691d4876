/** The cost is summed in 64 bits and can wrap below the limit it is compared with. */
module Overflow {
  import opened Text
  import opened Scanner
  import opened Syntax
  import opened Meaning
  import opened Paging
  import opened Costs
  import opened Analyzer
  import opened Execution

  /** n leaf fields in a row. */
  function Row(n: nat): Fields {
    if n == 0 then NoFields
    else Then(Field(NoAlias, "x", Blank(' ', Tight), NoArgs, Leaf), Row(n - 1))
  }

  /** `levels` nested fields with the argument list `page` around `inner`. */
  function Nest(levels: nat, page: Args, inner: Fields): Fields {
    if levels == 0 then inner
    else Then(Field(NoAlias, "a", Tight, page, Body(Tight, Nest(levels - 1, page, inner), Tight)), NoFields)
  }

  function Deep(levels: nat, page: Args, n: nat): Document {
    Next(Operation(Shorthand, NoArgs, Tight, Nest(levels, page, Row(n)), Tight), NoOperations)
  }

  /** The cost of n leaves under `levels` pages of h rows. */
  function Total(levels: nat, h: nat, n: nat, m: nat): nat {
    if levels == 0 then n * m else m + Total(levels - 1, h, n, m * h)
  }

  lemma {:induction false} RowMeasures(n: nat, m: nat, h: nat)
    requires h >= 1
    ensures FieldsOk(Row(n)) && Height(Row(n)) == 0 && !Introspects(Row(n))
    ensures Charge(Row(n), m, 1, h) == n * m && Cost(Row(n), m, h) == n * m
    decreases n
  {
    if n > 0 {
      RowMeasures(n - 1, m, h);
      OneMoreTimes(n - 1, m);
    }
  }

  /** One paged field around a selection multiplies what it costs by the page. */
  lemma AroundMeasures(page: Args, inner: Fields, m: nat, h: nat, below: nat)
    requires page.Listed? && ArgsOk(page) && FieldsOk(inner) && h >= 1 && Multiplier(page, h) == h && below == m * h
    ensures var fs := Then(Field(NoAlias, "a", Tight, page, Body(Tight, inner, Tight)), NoFields);
            && FieldsOk(fs) && Height(fs) == 1 + Height(inner) && Introspects(fs) == Introspects(inner)
            && Charge(fs, m, 1, h) == m + Charge(inner, below, 1, h) && Cost(fs, m, h) == m + Cost(inner, below, h)
  {
    var f := Field(NoAlias, "a", Tight, page, Body(Tight, inner, Tight));
    assert IsName(f.name) && !IsKeyword(f.name) && !IsReserved(f.name);
    assert FieldCharge(f, m, 1, h) == m + Charge(inner, below, 1, h);
    assert FieldCost(f, m, h) == m + Cost(inner, below, h);
  }

  lemma TotalStep(levels: nat, h: nat, n: nat, m: nat, below: nat)
    requires levels > 0 && below == m * h
    ensures Total(levels, h, n, m) == m + Total(levels - 1, h, n, below)
  {
  }

  lemma {:induction false} NestMeasures(levels: nat, page: Args, n: nat, m: nat, h: nat)
    requires page.Listed? && ArgsOk(page) && h >= 1 && Multiplier(page, h) == h
    ensures var fs := Nest(levels, page, Row(n));
            && FieldsOk(fs) && Height(fs) == levels && !Introspects(fs)
            && Charge(fs, m, 1, h) == Cost(fs, m, h) == Total(levels, h, n, m)
    decreases levels
  {
    if levels == 0 {
      RowMeasures(n, m, h);
    } else {
      var below: nat := m * h;
      NestMeasures(levels - 1, page, n, below, h);
      AroundMeasures(page, Nest(levels - 1, page, Row(n)), m, h, below);
      TotalStep(levels, h, n, m, below);
    }
  }

  lemma DeepMeasures(levels: nat, page: Args, n: nat, h: nat)
    requires page.Listed? && ArgsOk(page) && h >= 1 && Multiplier(page, h) == h
    ensures var d := Deep(levels, page, n);
            && DocumentOk(d) && DocumentHeight(d) == 1 + levels && !DocumentIntrospects(d)
            && DocumentCharge(d, h) == DocumentCost(d, h) == Total(levels, h, n, 1)
  {
    NestMeasures(levels, page, n, 1, h);
    var d := Deep(levels, page, n);
    assert d.rest == NoOperations && DocumentHeight(d.rest) == 0;
  }

  /** `pageSize:h` as an argument list. */
  function PageOf(h: nat): Args {
    Listed(Tight, Argument(PAGE_SIZE, Tight, Tight, Int(false, h), Tight, NoArguments), Tight)
  }

  lemma PageOfText(h: nat)
    ensures ArgsOk(PageOf(h)) && InsideText(PageOf(h)) == PAGE_SIZE + (":" + Numeral(h))
  {
    var text := Numeral(h);
    assert IsName(PAGE_SIZE);
    assert text + ("" + "") == text;
    TightArgument(PAGE_SIZE, Int(false, h), Tight, NoArguments);
    assert "" + ArgumentsText(PageOf(h).list) == ArgumentsText(PageOf(h).list);
  }

  lemma PageOfInPlace(h: nat)
    ensures InPlace(PageOf(h))
  {
    PageOfText(h);
    var text := PAGE_SIZE + (":" + Numeral(h));
    assert text[..|PAGE_SIZE|] == PAGE_SIZE;
    assert From(PageOf(h).list) == PageOf(h).list;
  }

  lemma PageOfMeasures(page: Args, h: nat)
    requires page == PageOf(h) && 1 <= h <= INT64_MAX
    ensures ArgsOk(page) && Multiplier(page, h) == h && HonestArgs(page, h)
  {
    PageOfText(h);
    PageOfInPlace(h);
    MultiplierReadsArgument(page, h);
  }

  // ---- the size of the document --------------------------------------------------------------

  lemma {:induction false} ByteLengthBound(s: string)
    ensures ByteLength(s) <= 4 * |s|
  {
    if s != [] { ByteLengthBound(s[1..]); }
  }

  lemma {:induction false} RowLength(n: nat)
    ensures |FieldsText(Row(n))| == 2 * n
  {
    if n > 0 {
      RowLength(n - 1);
      assert GapText(Blank(' ', Tight)) == " ";
    }
  }

  lemma {:induction false} NestLength(levels: nat, page: Args, n: nat)
    ensures |FieldsText(Nest(levels, page, Row(n)))| == levels * (3 + |ArgsText(page)|) + 2 * n
  {
    if levels == 0 {
      RowLength(n);
    } else {
      NestLength(levels - 1, page, n);
      var inner := Nest(levels - 1, page, Row(n));
      assert |BodyText(Body(Tight, inner, Tight))| == 2 + |FieldsText(inner)|;
      OneMoreTimes(levels - 1, 3 + |ArgsText(page)|);
    }
  }

  lemma DeepLength(levels: nat, page: Args, n: nat)
    ensures |DocumentText(Deep(levels, page, n))| == 2 + levels * (3 + |ArgsText(page)|) + 2 * n
  {
    NestLength(levels, page, n);
    assert DocumentText(Deep(levels, page, n).rest) == "";
  }

  lemma PageOfLength(h: nat)
    requires h == 100
    ensures |ArgsText(PageOf(h))| == 14
  {
    PageOfText(h);
    assert |Numeral(h)| == 3 by { assert |Numeral(h / 10)| == 2; }
  }

  /** The payload bits of a UTF-8 form of n bytes (section 3 of RFC 3629). */
  function PayloadBits(n: nat): nat
    requires 1 <= n <= 4
  {
    if n == 1 then 7 else 1 + 5 * n
  }

  lemma Powers()
    ensures Pow(2, 7) == 0x80 && Pow(2, 11) == 0x800 && Pow(2, 16) == 0x1_0000 && Pow(2, 21) == 0x20_0000
  {
    assert Pow(2, 4) == 16;
    assert Pow(2, 7) == 8 * Pow(2, 4) by { assert Pow(2, 7) == 2 * (2 * (2 * Pow(2, 4))); }
    assert Pow(2, 11) == 16 * Pow(2, 7) by { assert Pow(2, 11) == 2 * (2 * (2 * (2 * Pow(2, 7)))); }
    assert Pow(2, 16) == 32 * Pow(2, 11) by { assert Pow(2, 16) == 2 * (2 * (2 * (2 * (2 * Pow(2, 11))))); }
    assert Pow(2, 21) == 32 * Pow(2, 16) by { assert Pow(2, 21) == 2 * (2 * (2 * (2 * (2 * Pow(2, 16))))); }
  }

  /** A character takes the shortest UTF-8 form whose payload holds its code point. */
  lemma ShortestForm(c: char)
    ensures var n := ByteLength([c]);
            && 1 <= n <= 4 && (c as int) < Pow(2, PayloadBits(n))
            && (n > 1 ==> c as int >= Pow(2, PayloadBits(n - 1)))
  {
    Powers();
    assert ByteLength([c][1..]) == 0;
    assert c as int < 0x20_0000;
  }

  /** And the size of a document is the sum over its characters. */
  lemma {:induction false} ByteLengthAdds(a: string, b: string)
    ensures ByteLength(a + b) == ByteLength(a) + ByteLength(b)
  {
    if a == [] {
      assert a + b == b;
    } else {
      assert (a + b)[1..] == a[1..] + b;
      ByteLengthAdds(a[1..], b);
    }
  }

  /** Go's `int` has 64 bits. */
  lemma SixtyFourBits()
    ensures INT64_MAX + 1 == Pow(2, 63) && TWO_64 == Pow(2, 64)
  {
    Powers();
    var k := Pow(2, 16);
    PowAdds(16, 16);
    PowAdds(32, 32);
    assert Pow(2, 64) == (k * k) * (k * k) == TWO_64;
    assert Pow(2, 64) == 2 * Pow(2, 63);
  }

  lemma {:induction false} PowAdds(e: nat, f: nat)
    ensures Pow(2, e + f) == Pow(2, e) * Pow(2, f)
  {
    if e > 0 {
      PowAdds(e - 1, f);
      TimesTwo(Pow(2, e - 1), Pow(2, f));
    }
  }

  lemma TimesTwo(a: nat, b: nat)
    ensures 2 * (a * b) == (2 * a) * b
  {
  }

  // ---- the counterexample --------------------------------------------------------------------

  lemma CostTenToTheNineteen(levels: nat, h: nat, n: nat)
    requires levels == 9 && h == 100 && n == 10
    ensures Total(levels, h, n, 1) == 10_010_101_010_101_010_101
    ensures Wrap(10_010_101_010_101_010_101) < 0
  {
    assert Total(9, 100, 10, 1) == 10_010_101_010_101_010_101;
  }

  lemma {:induction false} RowIsHonest(n: nat, h: nat)
    requires h >= 1
    ensures Honest(Row(n), h)
  {
    if n > 0 { RowIsHonest(n - 1, h); }
  }

  lemma {:induction false} NestIsHonest(levels: nat, page: Args, n: nat, h: nat)
    requires h >= 1 && HonestArgs(page, h)
    ensures Honest(Nest(levels, page, Row(n)), h)
    decreases levels
  {
    if levels > 0 {
      NestIsHonest(levels - 1, page, n, h);
      var fs := Nest(levels, page, Row(n));
      assert fs.rest == NoFields && Honest(fs.rest, h);
    } else {
      RowIsHonest(n, h);
    }
  }

  /** The limits BridgeCore ships with (internal/config/config.go). */
  const SHIPPED: Limits := Limits(10, 500, 16384, 100, false)

  /** A wrapped charge passes the shipped limits: a document of depth 10 and 175 characters, with
      nine nested pages of 100 rows around ten leaves, costs more than 10^19, and Check accepts
      it, although a schema that pages at every level could resolve that many fields. */
  lemma WrappedCostIsAccepted(levels: nat, h: nat, n: nat, defaultSize: int) returns (d: Document, ts: Traces)
    requires levels == 9 && h == 100 && n == 10
    ensures DocumentOk(d) && d.Next? && d.rest == NoOperations && Accepted(GapText(Tight) + DocumentText(d), SHIPPED)
    ensures DocumentHeight(d) == 10 && |GapText(Tight) + DocumentText(d)| == 175
    ensures DocumentCost(d, h) == DocumentCharge(d, h) == 10_010_101_010_101_010_101
    ensures TracesFit(d.first.fields, ts, 1, Pages(defaultSize, h)) && AllResolutions(ts) == DocumentCost(d, h)
  {
    var page := PageOf(h);
    d := Deep(levels, page, n);
    PageOfMeasures(page, h);
    DeepMeasures(levels, page, n, h);
    CostTenToTheNineteen(levels, h, n);
    DeepIsAccepted(levels, h, n);
    ts := DeepWorst(levels, page, n, h, defaultSize);
  }

  lemma DeepWorst(levels: nat, page: Args, n: nat, h: nat, defaultSize: int) returns (ts: Traces)
    requires h >= 1 && HonestArgs(page, h)
    ensures var d := Deep(levels, page, n);
            TracesFit(d.first.fields, ts, 1, Pages(defaultSize, h)) && AllResolutions(ts) == DocumentCost(d, h)
  {
    var d := Deep(levels, page, n);
    NestIsHonest(levels, page, n, h);
    ts := WorstCase(d.first.fields, Pages(defaultSize, h));
    assert d.rest == NoOperations && DocumentCost(d.rest, h) == 0;
  }

  lemma DeepIsAccepted(levels: nat, h: nat, n: nat)
    requires levels == 9 && h == 100 && n == 10
    ensures var text := GapText(Tight) + DocumentText(Deep(levels, PageOf(h), n));
            |text| == 175 && Accepted(text, SHIPPED)
  {
    var page := PageOf(h);
    var d := Deep(levels, page, n);
    var text := GapText(Tight) + DocumentText(d);
    PageOfMeasures(page, h);
    DeepMeasures(levels, page, n, h);
    CostTenToTheNineteen(levels, h, n);
    PageOfLength(h);
    DeepLength(levels, page, n);
    assert |text| == 175;
    ByteLengthBound(text);
    ChecksTree(Tight, d, SHIPPED);
  }
}
