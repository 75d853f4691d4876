/** A guard a caller can check before the cost is computed: how often a document's charge can be
    multiplied. Where that is seldom enough, nothing wraps and acceptance means what it says. */
module Guards {
  import opened Text
  import opened Scanner
  import opened Syntax
  import opened Meaning
  import opened Costs
  import opened Analyzer
  import opened Execution
  import opened Overflow

  /** The largest number of selection sets on one path that open with a multiplier above 1
      pending. */
  function Deepest(fs: Fields, p: nat, maxPage: nat): nat
    requires maxPage >= 1
  {
    if fs.NoFields? then 0
    else
      Max(FieldDeepest(fs.first, p, maxPage), Deepest(fs.rest, FieldLeaves(fs.first, p, maxPage), maxPage))
  }

  function FieldDeepest(f: Field, p: nat, maxPage: nat): nat
    requires maxPage >= 1
  {
    if f.body.Leaf? then 0
    else (if Carried(f, p, maxPage) > 1 then 1 else 0) + Deepest(f.body.fields, 1, maxPage)
  }

  function DocumentDeepest(d: Document, maxPage: nat): nat
    requires maxPage >= 1
  {
    if d.NoOperations? then 0
    else
      Max((if Multiplier(d.first.variables, maxPage) > 1 then 1 else 0) + Deepest(d.first.fields, 1, maxPage),
          DocumentDeepest(d.rest, maxPage))
  }

  // ---- the charge is bounded by fields and multiplications ------------------------------------

  lemma Times3(a: nat, b: nat, c: nat)
    ensures (a * b) * c == a * (b * c)
  {
  }

  /** One multiplication by c costs a factor of the maximum, and none when c is 1. */
  lemma OneFactor(m: nat, c: nat, h: nat, below: nat)
    requires 1 <= c <= h
    ensures (m * c) * Pow(h, below) <= m * Pow(h, (if c > 1 then 1 else 0) + below)
  {
    Times3(m, c, Pow(h, below));
    if c > 1 {
      Products(h, c, Pow(h, below), Pow(h, below));
      assert Pow(h, 1 + below) == h * Pow(h, below);
      Products(m, m, Pow(h, 1 + below), c * Pow(h, below));
    } else {
      assert c * Pow(h, below) == Pow(h, below);
    }
  }

  lemma Distributes(a: nat, b: nat, x: nat)
    ensures a * x + b * x == (a + b) * x
  {
  }

  lemma Shares(n: nat, x: nat, y: nat)
    requires x <= y
    ensures n * x <= n * y
  {
  }

  lemma Combine(n: nat, m: nat, charge: nat, x: nat, unit: nat)
    requires charge <= n * x && x <= unit && m <= unit
    ensures m + charge <= (1 + n) * unit
  {
    Shares(n, x, unit);
    OneMoreTimes(n, unit);
  }

  /** A selection set behind a multiplier c, in units of the field that opens it. */
  lemma BelowBounded(n: nat, m: nat, c: nat, h: nat, below: nat, charge: nat)
    requires 1 <= c <= h && charge <= n * ((m * c) * Pow(h, below))
    ensures var unit := m * Pow(h, (if c > 1 then 1 else 0) + below); m + charge <= (1 + n) * unit
  {
    var x, p := (m * c) * Pow(h, below), Pow(h, (if c > 1 then 1 else 0) + below);
    OneFactor(m, c, h, below);
    assert m <= m * p by { Shares(m, 1, p); }
    Combine(n, m, charge, x, m * p);
  }

  lemma {:induction false} FieldChargeBounded(f: Field, m: nat, p: nat, maxPage: nat)
    requires 1 <= p <= maxPage
    ensures FieldCharge(f, m, p, maxPage) <= FieldCount(f) * (m * Pow(maxPage, FieldDeepest(f, p, maxPage)))
    decreases f, 1
  {
    if f.body.Body? {
      var c, inner := Carried(f, p, maxPage), f.body.fields;
      ChargeBounded(inner, m * c, 1, maxPage);
      BelowBounded(Count(inner), m, c, maxPage, Deepest(inner, 1, maxPage), Charge(inner, m * c, 1, maxPage));
    } else {
      assert Pow(maxPage, 0) == 1 && m * 1 == m;
    }
  }

  lemma {:induction false} ChargeBounded(fs: Fields, m: nat, p: nat, maxPage: nat)
    requires 1 <= p <= maxPage
    ensures Charge(fs, m, p, maxPage) <= Count(fs) * (m * Pow(maxPage, Deepest(fs, p, maxPage)))
    decreases fs, 0
  {
    if fs.Then? {
      var f, left, top := fs.first, FieldLeaves(fs.first, p, maxPage), Deepest(fs, p, maxPage);
      var first, rest := FieldDeepest(f, p, maxPage), Deepest(fs.rest, left, maxPage);
      FieldChargeBounded(f, m, p, maxPage);
      ChargeBounded(fs.rest, m, left, maxPage);
      PowMonotone(maxPage, first, top);
      PowMonotone(maxPage, rest, top);
      Shares(m, Pow(maxPage, first), Pow(maxPage, top));
      Shares(m, Pow(maxPage, rest), Pow(maxPage, top));
      Shares(FieldCount(f), m * Pow(maxPage, first), m * Pow(maxPage, top));
      Shares(Count(fs.rest), m * Pow(maxPage, rest), m * Pow(maxPage, top));
      Distributes(FieldCount(f), Count(fs.rest), m * Pow(maxPage, top));
    }
  }

  lemma OperationChargeBounded(o: Operation, top: nat, maxPage: nat)
    requires maxPage >= 1
    requires top >= (if Multiplier(o.variables, maxPage) > 1 then 1 else 0) + Deepest(o.fields, 1, maxPage)
    ensures Charge(o.fields, Multiplier(o.variables, maxPage), 1, maxPage) <= Count(o.fields) * Pow(maxPage, top)
  {
    var m, below := Multiplier(o.variables, maxPage), Deepest(o.fields, 1, maxPage);
    var own := (if m > 1 then 1 else 0) + below;
    ChargeBounded(o.fields, m, 1, maxPage);
    OneFactor(1, m, maxPage, below);
    assert 1 * m == m && 1 * Pow(maxPage, own) == Pow(maxPage, own);
    PowMonotone(maxPage, own, top);
    Shares(Count(o.fields), m * Pow(maxPage, below), Pow(maxPage, top));
  }

  lemma {:induction false} DocumentChargeBounded(d: Document, maxPage: nat)
    requires maxPage >= 1
    ensures DocumentCharge(d, maxPage) <= DocumentCount(d) * Pow(maxPage, DocumentDeepest(d, maxPage))
    decreases d
  {
    if d.Next? {
      var top, rest := DocumentDeepest(d, maxPage), DocumentDeepest(d.rest, maxPage);
      OperationChargeBounded(d.first, top, maxPage);
      DocumentChargeBounded(d.rest, maxPage);
      PowMonotone(maxPage, rest, top);
      Shares(DocumentCount(d.rest), Pow(maxPage, rest), Pow(maxPage, top));
      Distributes(Count(d.first.fields), DocumentCount(d.rest), Pow(maxPage, top));
    }
  }

  // ---- every field takes a byte ---------------------------------------------------------------

  lemma {:induction false} CountWithinText(fs: Fields)
    requires FieldsOk(fs)
    ensures Count(fs) <= |FieldsText(fs)|
    decreases fs
  {
    if fs.Then? {
      var f := fs.first;
      assert FieldOk(f) && BodyOk(f.body);
      if f.body.Body? { CountWithinText(f.body.fields); }
      assert |FieldText(f)| >= |f.name| + |BodyText(f.body)|;
      CountWithinText(fs.rest);
    }
  }

  lemma {:induction false} DocumentCountWithinText(d: Document)
    requires DocumentOk(d)
    ensures DocumentCount(d) <= |DocumentText(d)|
    decreases d
  {
    if d.Next? {
      var o := d.first;
      CountWithinText(o.fields);
      assert |OperationText(o)| >= |BodyText(Body(o.gap, o.fields, o.after))|;
      DocumentCountWithinText(d.rest);
    }
  }

  lemma {:induction false} BytesCoverCharacters(s: string)
    ensures |s| <= ByteLength(s)
  {
    if s != [] { BytesCoverCharacters(s[1..]); }
  }

  // ---- acceptance without the 64-bit hypothesis -----------------------------------------------

  /** The byte limit and the multiplications along one path keep the charge within 64 bits. */
  predicate Guarded(d: Document, limits: Limits) {
    var maxPage := EffectiveMax(limits.maxPageSize);
    limits.maxBytes > 0 && limits.maxBytes * Pow(maxPage, DocumentDeepest(d, maxPage)) <= INT64_MAX
  }

  /** An accepted document that passes the guard is charged at most MaxComplexity, without
      wrapping. */
  lemma GuardedChargeWithinLimit(lead: Gap, d: Document, limits: Limits)
    requires GapOk(lead) && DocumentOk(d) && Guarded(d, limits)
    requires limits.maxComplexity > 0 && Accepted(GapText(lead) + DocumentText(d), limits)
    ensures DocumentCharge(d, EffectiveMax(limits.maxPageSize)) <= INT64_MAX
    ensures DocumentCharge(d, EffectiveMax(limits.maxPageSize)) <= limits.maxComplexity
  {
    var maxPage, text := EffectiveMax(limits.maxPageSize), GapText(lead) + DocumentText(d);
    var unit := Pow(maxPage, DocumentDeepest(d, maxPage));
    DocumentChargeBounded(d, maxPage);
    DocumentCountWithinText(d);
    BytesCoverCharacters(text);
    ChecksTree(lead, d, limits);
    Products(limits.maxBytes, DocumentCount(d), unit, unit);
  }

  /** And every execution of it resolves at most MaxComplexity fields. */
  lemma GuardedResolvesWithinLimit(lead: Gap, d: Document, o: Operation, ts: Traces, limits: Limits, defaultSize: int)
    requires GapOk(lead) && DocumentOk(d) && Guarded(d, limits) && Contains(d, o)
    requires TracesFit(o.fields, ts, 1, Pages(defaultSize, limits.maxPageSize))
    requires limits.maxComplexity > 0 && Accepted(GapText(lead) + DocumentText(d), limits)
    ensures AllResolutions(ts) <= limits.maxComplexity
  {
    GuardedChargeWithinLimit(lead, d, limits);
    AcceptedResolvesWithinLimit(lead, d, o, ts, limits, defaultSize);
  }

  // ---- the shipped limits ------------------------------------------------------------------------

  lemma SevenPagesFit(h: nat, e: nat)
    requires h == 100 && e <= 7
    ensures 16384 * Pow(h, e) <= INT64_MAX
  {
    PowMonotone(h, e, 7);
    assert Pow(h, 7) == 100_000_000_000_000 by {
      assert Pow(h, 3) == 1_000_000 by { assert Pow(h, 3) == h * (h * (h * 1)); }
      assert Pow(h, 7) == h * (h * (h * (h * Pow(h, 3))));
    }
  }

  /** Under the shipped limits seven multiplications on a path fit in 64 bits; the document of
      WrappedCostIsAccepted has nine. */
  lemma ShippedGuard(d: Document)
    requires DocumentDeepest(d, 100) <= 7
    ensures Guarded(d, SHIPPED)
  {
    SevenPagesFit(100, DocumentDeepest(d, 100));
  }

  /** No field of a selection, at any level, has arguments. */
  predicate Unargued(fs: Fields) {
    fs.Then? ==>
      && fs.first.args.NoArgs? && (fs.first.body.Body? ==> Unargued(fs.first.body.fields)) && Unargued(fs.rest)
  }

  /** Only the fields of the root take arguments, as in the schema of graph/resolver.go. */
  predicate RootArgued(fs: Fields) {
    fs.Then? ==> (fs.first.body.Body? ==> Unargued(fs.first.body.fields)) && RootArgued(fs.rest)
  }

  predicate DocumentRootArgued(d: Document) { d.Next? ==> RootArgued(d.first.fields) && DocumentRootArgued(d.rest) }

  lemma {:induction false} UnarguedIsFlat(fs: Fields, maxPage: nat)
    requires maxPage >= 1 && Unargued(fs)
    ensures Deepest(fs, 1, maxPage) == 0
    decreases fs
  {
    if fs.Then? {
      assert Carried(fs.first, 1, maxPage) == 1;
      if fs.first.body.Body? { UnarguedIsFlat(fs.first.body.fields, maxPage); }
      UnarguedIsFlat(fs.rest, maxPage);
    }
  }

  lemma {:induction false} RootArguedIsShallow(fs: Fields, p: nat, maxPage: nat)
    requires maxPage >= 1 && RootArgued(fs)
    ensures Deepest(fs, p, maxPage) <= 1
    decreases fs
  {
    if fs.Then? {
      if fs.first.body.Body? { UnarguedIsFlat(fs.first.body.fields, maxPage); }
      RootArguedIsShallow(fs.rest, FieldLeaves(fs.first, p, maxPage), maxPage);
    }
  }

  lemma {:induction false} RootArguedDocuments(d: Document, maxPage: nat)
    requires maxPage >= 1 && DocumentRootArgued(d)
    ensures DocumentDeepest(d, maxPage) <= 2
    decreases d
  {
    if d.Next? {
      RootArguedIsShallow(d.first.fields, 1, maxPage);
      RootArguedDocuments(d.rest, maxPage);
    }
  }

  /** So under the shipped limits no document with arguments at its root alone wraps: what Check
      accepts resolves at most 500 fields. */
  lemma RootArguedWithinShippedLimit(lead: Gap, d: Document, o: Operation, ts: Traces, defaultSize: int)
    requires GapOk(lead) && DocumentOk(d) && DocumentRootArgued(d) && Contains(d, o)
    requires TracesFit(o.fields, ts, 1, Pages(defaultSize, 100))
    requires Accepted(GapText(lead) + DocumentText(d), SHIPPED)
    ensures AllResolutions(ts) <= 500
  {
    RootArguedDocuments(d, 100);
    ShippedGuard(d);
    GuardedResolvesWithinLimit(lead, d, o, ts, SHIPPED, defaultSize);
  }
}
