/** Executing a document against the cost the analyzer charged for it. */
module Execution {
  import opened Text
  import opened Scanner
  import opened Syntax
  import opened Meaning
  import opened Paging
  import opened Costs
  import opened Analyzer

  /** One resolution of a field: what it served (one value, a page, or a list that is not paged,
      such as `apiKeys`), and one list of resolutions of the selected fields for every time its
      selection set was evaluated. */
  datatype Served = Single | Page(given: Option<int>) | Listing(length: nat)
  datatype Trace = Trace(served: Served, evaluations: Evaluations)
  datatype Evaluations = NoMore | Evaluate(kids: Traces, more: Evaluations)
  datatype Traces = NoTraces | Traced(head: Trace, tail: Traces)

  datatype Pages = Pages(defaultSize: int, maxSize: int)

  function Times(es: Evaluations): nat {
    if es.NoMore? then 0 else 1 + Times(es.more)
  }

  /** Field resolutions in a trace. */
  function Resolutions(t: Trace): nat { 1 + AllEvaluations(t.evaluations) }

  function AllEvaluations(es: Evaluations): nat {
    if es.NoMore? then 0 else AllResolutions(es.kids) + AllEvaluations(es.more)
  }

  function AllResolutions(ts: Traces): nat {
    if ts.NoTraces? then 0 else Resolutions(ts.head) + AllResolutions(ts.tail)
  }

  /** Rows one resolution may contribute. */
  function Rows(served: Served, cfg: Pages): nat {
    match served
    case Single => 1
    case Page(given) => PageSizeFor(cfg.defaultSize, cfg.maxSize, given)
    case Listing(length) => length
  }

  /** A page size comes from the field's own page argument. */
  predicate Supplied(f: Field, served: Served) {
    served.Page? ==> Supplies(PageArgOf(f.args), served.given)
  }

  /** The analyzer charged the field for what it served: a page by an argument list that covers
      its pages (Paging.CoversServedPagesExactly says which do), a list by its length. Where
      nothing is selected, nothing is multiplied. */
  ghost predicate Charged(f: Field, served: Served, cfg: Pages) {
    f.body.Body? ==>
      match served
      case Single => true
      case Page(_) => Covers(f.args, cfg.defaultSize, cfg.maxSize)
      case Listing(length) => length <= Multiplier(f.args, EffectiveMax(cfg.maxSize))
  }

  /** A trace of a field under an unspent row credit. Serving n rows multiplies the credit by n;
      evaluating a selection set k times leaves each evaluation a k-th of it. So a connection
      field may hand its rows down to a list field such as `nodes`. Below this resolution,
      everything served was charged for. */
  ghost predicate Serves(f: Field, t: Trace, credit: nat, cfg: Pages)
    decreases f, 0
  {
    var rows := credit * Rows(t.served, cfg);
    var k := Times(t.evaluations);
    && Supplied(f, t.served)
    && (f.body.Leaf? ==> k == 0)
    && k <= rows
    && (f.body.Body? && k > 0 ==> EvaluationsFit(f.body.fields, t.evaluations, rows / k, cfg))
  }

  /** And so was what this resolution served. */
  ghost predicate Fits(f: Field, t: Trace, credit: nat, cfg: Pages)
    decreases f, 1
  {
    Serves(f, t, credit, cfg) && Charged(f, t.served, cfg)
  }

  ghost predicate EvaluationsFit(fs: Fields, es: Evaluations, credit: nat, cfg: Pages)
    decreases fs, 1, es
  {
    es.Evaluate? ==> TracesFit(fs, es.kids, credit, cfg) && EvaluationsFit(fs, es.more, credit, cfg)
  }

  ghost predicate TracesFit(fs: Fields, ts: Traces, credit: nat, cfg: Pages)
    decreases fs, 0
  {
    if fs.NoFields? then ts.NoTraces?
    else ts.Traced? && Fits(fs.first, ts.head, credit, cfg) && TracesFit(fs.rest, ts.tail, credit, cfg)
  }

  /** What a field's selections may cost below it when its credit is `credit`. */
  function Below(f: Field, credit: nat, maxPage: nat): nat
    requires maxPage >= 1
  {
    if f.body.Leaf? then 0 else Cost(f.body.fields, credit * Multiplier(f.args, maxPage), maxPage)
  }

  function PerEvaluation(fs: Fields, credit: nat, maxPage: nat): nat
    requires maxPage >= 1
  {
    if fs.NoFields? then 0 else 1 + Below(fs.first, credit, maxPage) + PerEvaluation(fs.rest, credit, maxPage)
  }

  lemma Distribute(k: nat, a: nat, b: nat)
    ensures k * (a + b) == k * a + k * b
  {
  }

  lemma Associate(a: nat, b: nat, c: nat)
    ensures (a * b) * c == a * (b * c)
  {
  }

  lemma {:induction false} FieldCostScales(f: Field, k: nat, m: nat, maxPage: nat)
    requires maxPage >= 1
    ensures FieldCost(f, k * m, maxPage) == k * FieldCost(f, m, maxPage)
    decreases f, 1
  {
    if f.body.Body? {
      var h := Multiplier(f.args, maxPage);
      CostScales(f.body.fields, k, m * h, maxPage);
      Associate(k, m, h);
      Distribute(k, m, Cost(f.body.fields, m * h, maxPage));
    }
  }

  lemma {:induction false} CostScales(fs: Fields, k: nat, m: nat, maxPage: nat)
    requires maxPage >= 1
    ensures Cost(fs, k * m, maxPage) == k * Cost(fs, m, maxPage)
    decreases fs, 0
  {
    if fs.Then? {
      FieldCostScales(fs.first, k, m, maxPage);
      CostScales(fs.rest, k, m, maxPage);
      Distribute(k, FieldCost(fs.first, m, maxPage), Cost(fs.rest, m, maxPage));
    }
  }

  lemma {:induction false} CostMonotone(fs: Fields, a: nat, b: nat, maxPage: nat)
    requires a <= b && maxPage >= 1
    ensures Cost(fs, a, maxPage) <= Cost(fs, b, maxPage)
    decreases fs
  {
    if fs.Then? {
      var h := Multiplier(fs.first.args, maxPage);
      if fs.first.body.Body? {
        Products(b, a, h, h);
        CostMonotone(fs.first.body.fields, a * h, b * h, maxPage);
      }
      CostMonotone(fs.rest, a, b, maxPage);
    }
  }

  lemma ShareGrows(k: nat, c: nat, rows: nat, h: nat)
    requires k * c <= rows
    ensures k * (c * h) <= rows * h
  {
    Associate(k, c, h);
    Products(rows, k * c, h, h);
  }

  lemma FieldSharesRows(f: Field, k: nat, c: nat, rows: nat, maxPage: nat)
    requires k <= rows && k * c <= rows && maxPage >= 1
    ensures k + k * Below(f, c, maxPage) <= FieldCost(f, rows, maxPage)
  {
    if f.body.Body? {
      var h := Multiplier(f.args, maxPage);
      ShareGrows(k, c, rows, h);
      BodySharesRows(f.body.fields, k, c * h, rows * h, maxPage);
    }
  }

  lemma BodySharesRows(fs: Fields, k: nat, inner: nat, charged: nat, maxPage: nat)
    requires k * inner <= charged && maxPage >= 1
    ensures k * Cost(fs, inner, maxPage) <= Cost(fs, charged, maxPage)
  {
    CostScales(fs, k, inner, maxPage);
    CostMonotone(fs, k * inner, charged, maxPage);
  }

  /** k evaluations, each with credit c, stay within the cost of a selection set charged for
      at least k * c rows. */
  lemma {:induction false} EvaluationsShareRows(fs: Fields, k: nat, c: nat, rows: nat, maxPage: nat)
    requires k <= rows && k * c <= rows && maxPage >= 1
    ensures k * PerEvaluation(fs, c, maxPage) <= Cost(fs, rows, maxPage)
    decreases fs
  {
    if fs.Then? {
      var below, rest := Below(fs.first, c, maxPage), PerEvaluation(fs.rest, c, maxPage);
      FieldSharesRows(fs.first, k, c, rows, maxPage);
      EvaluationsShareRows(fs.rest, k, c, rows, maxPage);
      Distribute(k, 1 + below, rest);
      Distribute(k, 1, below);
    } else {
      assert k * 0 == 0;
    }
  }

  /** What was charged for is covered by the multiplier. */
  lemma RowsCovered(f: Field, served: Served, cfg: Pages)
    requires f.body.Body? && Supplied(f, served) && Charged(f, served, cfg)
    ensures Rows(served, cfg) <= Multiplier(f.args, EffectiveMax(cfg.maxSize))
  {
  }

  lemma BelowCovers(f: Field, rows: nat, credit: nat, h: nat, maxPage: nat)
    requires f.body.Body? && maxPage >= 1 && rows <= h == Multiplier(f.args, maxPage)
    ensures Cost(f.body.fields, credit * rows, maxPage) <= Below(f, credit, maxPage)
  {
    var used, charged := credit * rows, credit * h;
    assert used <= charged by { Products(credit, credit, h, rows); }
    CostMonotone(f.body.fields, used, charged, maxPage);
  }

  /** A resolution whose rows are within the multiplier stays within the cost below its field. */
  lemma {:induction false} ServesBounded(f: Field, t: Trace, credit: nat, cfg: Pages)
    requires Serves(f, t, credit, cfg) && Rows(t.served, cfg) <= Multiplier(f.args, EffectiveMax(cfg.maxSize))
    ensures Resolutions(t) <= 1 + Below(f, credit, EffectiveMax(cfg.maxSize))
    decreases f, 0
  {
    var maxPage := EffectiveMax(cfg.maxSize);
    var rows, k := credit * Rows(t.served, cfg), Times(t.evaluations);
    if k > 0 {
      EvaluationsBounded(f.body.fields, t.evaluations, rows / k, cfg);
      EvaluationsShareRows(f.body.fields, k, rows / k, rows, maxPage);
      BelowCovers(f, Rows(t.served, cfg), credit, Multiplier(f.args, maxPage), maxPage);
    }
  }

  lemma {:induction false} ResolutionsBounded(f: Field, t: Trace, credit: nat, cfg: Pages)
    requires Fits(f, t, credit, cfg)
    ensures Resolutions(t) <= 1 + Below(f, credit, EffectiveMax(cfg.maxSize))
    decreases f, 1
  {
    if f.body.Body? {
      RowsCovered(f, t.served, cfg);
      ServesBounded(f, t, credit, cfg);
    }
  }

  lemma {:induction false} EvaluationsBounded(fs: Fields, es: Evaluations, credit: nat, cfg: Pages)
    requires EvaluationsFit(fs, es, credit, cfg)
    ensures AllEvaluations(es) <= Times(es) * PerEvaluation(fs, credit, EffectiveMax(cfg.maxSize))
    decreases fs, 1, es
  {
    if es.Evaluate? {
      var per := PerEvaluation(fs, credit, EffectiveMax(cfg.maxSize));
      TracesBounded(fs, es.kids, credit, cfg);
      EvaluationsBounded(fs, es.more, credit, cfg);
      assert (1 + Times(es.more)) * per == per + Times(es.more) * per;
    }
  }

  lemma {:induction false} TracesBounded(fs: Fields, ts: Traces, credit: nat, cfg: Pages)
    requires TracesFit(fs, ts, credit, cfg)
    ensures AllResolutions(ts) <= PerEvaluation(fs, credit, EffectiveMax(cfg.maxSize))
    decreases fs, 0
  {
    if fs.Then? {
      ResolutionsBounded(fs.first, ts.head, credit, cfg);
      TracesBounded(fs.rest, ts.tail, credit, cfg);
    }
  }

  /** Whether o is one of the document's operations. */
  predicate Contains(d: Document, o: Operation) {
    d.Next? && (d.first == o || Contains(d.rest, o))
  }

  lemma {:induction false} OperationWithinDocument(d: Document, o: Operation, maxPage: nat)
    requires Contains(d, o) && maxPage >= 1
    ensures Cost(o.fields, 1, maxPage) <= DocumentCost(d, maxPage)
    decreases d
  {
    if d.first != o { OperationWithinDocument(d.rest, o, maxPage); }
  }

  /** Cost dominates execution: one execution of any operation of the document resolves no more
      fields than the document's cost, hence no more than the analyzer's charge. */
  lemma CostDominatesExecution(d: Document, o: Operation, ts: Traces, cfg: Pages)
    requires Contains(d, o) && TracesFit(o.fields, ts, 1, cfg)
    ensures AllResolutions(ts) <= DocumentCost(d, EffectiveMax(cfg.maxSize)) <= DocumentCharge(d, EffectiveMax(cfg.maxSize))
  {
    var maxPage := EffectiveMax(cfg.maxSize);
    TracesBounded(o.fields, ts, 1, cfg);
    EvaluationsShareRows(o.fields, 1, 1, 1, maxPage);
    OperationWithinDocument(d, o, maxPage);
    DocumentChargeExact(d, maxPage);
  }

  // ---- a check on the document alone -------------------------------------------------------

  /** What the schema's resolver of a field returns: one value (or, as for the `nodes` of a
      connection, the rows its parent served), a page, or a list that is not paged. */
  datatype Kind = One | Paged | Unpaged

  predicate OfKind(served: Served, kind: Kind) {
    match kind
    case One => served.Single?
    case Paged => served.Page?
    case Unpaged => served.Listing?
  }

  /** A trace by the schema: paged fields serve the page their own argument asks for, lists that
      are not paged any number of rows. */
  ghost predicate Follows(f: Field, t: Trace, credit: nat, kind: Field -> Kind, cfg: Pages)
    decreases f, 0
  {
    var rows := credit * Rows(t.served, cfg);
    var k := Times(t.evaluations);
    && OfKind(t.served, kind(f))
    && Supplied(f, t.served)
    && (f.body.Leaf? ==> k == 0)
    && k <= rows
    && (f.body.Body? && k > 0 ==> EvaluationsFollow(f.body.fields, t.evaluations, rows / k, kind, cfg))
  }

  ghost predicate EvaluationsFollow(fs: Fields, es: Evaluations, credit: nat, kind: Field -> Kind, cfg: Pages)
    decreases fs, 1, es
  {
    es.Evaluate? ==> TracesFollow(fs, es.kids, credit, kind, cfg) && EvaluationsFollow(fs, es.more, credit, kind, cfg)
  }

  ghost predicate TracesFollow(fs: Fields, ts: Traces, credit: nat, kind: Field -> Kind, cfg: Pages)
    decreases fs, 0
  {
    if fs.NoFields? then ts.NoTraces?
    else ts.Traced? && Follows(fs.first, ts.head, credit, kind, cfg) && TracesFollow(fs.rest, ts.tail, credit, kind, cfg)
  }

  /** Every paged field with selections asks for its page in place, and no list that is not paged
      has selections. */
  predicate Paginates(fs: Fields, kind: Field -> Kind) {
    fs.Then? ==>
      && (fs.first.body.Body? ==>
            && (kind(fs.first).Paged? ==> ArgsOk(fs.first.args) && InPlace(fs.first.args) && Asks(PageArgOf(fs.first.args)))
            && !kind(fs.first).Unpaged?
            && Paginates(fs.first.body.fields, kind))
      && Paginates(fs.rest, kind)
  }

  lemma PaginatedIsCharged(f: Field, served: Served, kind: Field -> Kind, cfg: Pages)
    requires Supplied(f, served) && OfKind(served, kind(f)) && Paginates(Then(f, NoFields), kind)
    ensures Charged(f, served, cfg)
  {
    if f.body.Body? && kind(f).Paged? {
      CoversInPlace(f.args, cfg.defaultSize, cfg.maxSize);
    }
  }

  lemma {:induction false} FollowsServes(f: Field, t: Trace, credit: nat, kind: Field -> Kind, cfg: Pages)
    requires Follows(f, t, credit, kind, cfg) && (f.body.Body? ==> Paginates(f.body.fields, kind))
    ensures Serves(f, t, credit, cfg)
    decreases f, 1
  {
    var rows, k := credit * Rows(t.served, cfg), Times(t.evaluations);
    if f.body.Body? && k > 0 {
      EvaluationsFollowFit(f.body.fields, t.evaluations, rows / k, kind, cfg);
    }
  }

  lemma {:induction false} FollowsFits(f: Field, t: Trace, credit: nat, kind: Field -> Kind, cfg: Pages)
    requires Follows(f, t, credit, kind, cfg) && Paginates(Then(f, NoFields), kind)
    ensures Fits(f, t, credit, cfg)
    decreases f, 2
  {
    PaginatedIsCharged(f, t.served, kind, cfg);
    FollowsServes(f, t, credit, kind, cfg);
  }

  lemma {:induction false} EvaluationsFollowFit(fs: Fields, es: Evaluations, credit: nat, kind: Field -> Kind, cfg: Pages)
    requires EvaluationsFollow(fs, es, credit, kind, cfg) && Paginates(fs, kind)
    ensures EvaluationsFit(fs, es, credit, cfg)
    decreases fs, 3, es
  {
    if es.Evaluate? {
      TracesFollowFit(fs, es.kids, credit, kind, cfg);
      EvaluationsFollowFit(fs, es.more, credit, kind, cfg);
    }
  }

  lemma {:induction false} TracesFollowFit(fs: Fields, ts: Traces, credit: nat, kind: Field -> Kind, cfg: Pages)
    requires TracesFollow(fs, ts, credit, kind, cfg) && Paginates(fs, kind)
    ensures TracesFit(fs, ts, credit, cfg)
    decreases fs, 0
  {
    if fs.Then? {
      FollowsFits(fs.first, ts.head, credit, kind, cfg);
      TracesFollowFit(fs.rest, ts.tail, credit, kind, cfg);
    }
  }

  /** So for a document that paginates, every execution by the schema, for all variable values,
      stays within the cost. */
  lemma PaginatedStaysWithinCost(d: Document, o: Operation, ts: Traces, kind: Field -> Kind, cfg: Pages)
    requires Contains(d, o) && Paginates(o.fields, kind) && TracesFollow(o.fields, ts, 1, kind, cfg)
    ensures AllResolutions(ts) <= DocumentCost(d, EffectiveMax(cfg.maxSize))
  {
    TracesFollowFit(o.fields, ts, 1, kind, cfg);
    CostDominatesExecution(d, o, ts, cfg);
  }

  // ---- the bound is attained -------------------------------------------------------------

  /** Every multiplier above 1 was read from a page argument in place, which execution can honour. */
  predicate Honest(fs: Fields, maxPage: nat)
    requires maxPage >= 1
  {
    fs.Then? ==>
      && HonestArgs(fs.first.args, maxPage)
      && (fs.first.body.Body? ==> Honest(fs.first.body.fields, maxPage))
      && Honest(fs.rest, maxPage)
  }

  predicate HonestArgs(a: Args, maxPage: nat)
    requires maxPage >= 1
  {
    ArgsOk(a) && (Multiplier(a, maxPage) == 1 || (InPlace(a) && Asks(PageArgOf(a))))
  }

  lemma FullPage(f: Field, cfg: Pages) returns (served: Served)
    requires HonestArgs(f.args, EffectiveMax(cfg.maxSize))
    ensures Supplied(f, served) && Charged(f, served, cfg)
    ensures Rows(served, cfg) == Multiplier(f.args, EffectiveMax(cfg.maxSize))
  {
    var maxPage, arg := EffectiveMax(cfg.maxSize), PageArgOf(f.args);
    if Multiplier(f.args, maxPage) == 1 {
      served := Single;
    } else {
      MultiplierReadsArgument(f.args, maxPage);
      CoversServedPagesExactly(f.args, cfg.defaultSize, cfg.maxSize);
      served := Page(Some(if arg.Variable? then maxPage else arg.n));
    }
  }

  lemma {:induction false} Repeat(fs: Fields, kids: Traces, k: nat, cfg: Pages) returns (es: Evaluations)
    requires TracesFit(fs, kids, 1, cfg)
    ensures Times(es) == k && EvaluationsFit(fs, es, 1, cfg)
    ensures AllEvaluations(es) == k * AllResolutions(kids)
    decreases k
  {
    if k == 0 {
      es := NoMore;
    } else {
      var more := Repeat(fs, kids, k - 1, cfg);
      es := Evaluate(kids, more);
      assert k * AllResolutions(kids) == AllResolutions(kids) + (k - 1) * AllResolutions(kids);
    }
  }

  lemma FullEvaluationsServe(f: Field, served: Served, es: Evaluations, cfg: Pages)
    requires f.body.Body? && Supplied(f, served)
    requires Times(es) == Rows(served, cfg) && EvaluationsFit(f.body.fields, es, 1, cfg)
    ensures Serves(f, Trace(served, es), 1, cfg)
  {
    var rows := Rows(served, cfg);
    assert 1 * rows == rows;
    if rows > 0 { assert rows / rows == 1; }
  }

  lemma FullCost(f: Field, rows: nat, maxPage: nat)
    requires f.body.Body? && maxPage >= 1 && rows == Multiplier(f.args, maxPage)
    ensures Below(f, 1, maxPage) == rows * Cost(f.body.fields, 1, maxPage)
  {
    CostScales(f.body.fields, rows, 1, maxPage);
    assert 1 * rows == rows * 1;
  }

  lemma {:induction false} WorstTrace(f: Field, cfg: Pages) returns (t: Trace)
    requires Honest(Then(f, NoFields), EffectiveMax(cfg.maxSize))
    ensures Fits(f, t, 1, cfg)
    ensures Resolutions(t) == 1 + Below(f, 1, EffectiveMax(cfg.maxSize))
    decreases f, 1
  {
    if f.body.Leaf? {
      t := Trace(Single, NoMore);
    } else {
      var served := FullPage(f, cfg);
      var rows := Rows(served, cfg);
      var kids := WorstCase(f.body.fields, cfg);
      var es := Repeat(f.body.fields, kids, rows, cfg);
      FullCost(f, rows, EffectiveMax(cfg.maxSize));
      FullEvaluationsServe(f, served, es, cfg);
      t := Trace(served, es);
    }
  }

  /** Where every multiplier is an honest page argument, some execution of the selection
      resolves exactly as many fields as it costs: the bound cannot be improved. */
  lemma {:induction false} WorstCase(fs: Fields, cfg: Pages) returns (ts: Traces)
    requires Honest(fs, EffectiveMax(cfg.maxSize))
    ensures TracesFit(fs, ts, 1, cfg)
    ensures AllResolutions(ts) == Cost(fs, 1, EffectiveMax(cfg.maxSize))
    decreases fs, 0
  {
    if fs.NoFields? {
      ts := NoTraces;
    } else {
      var t := WorstTrace(fs.first, cfg);
      var rest := WorstCase(fs.rest, cfg);
      ts := Traced(t, rest);
    }
  }

  // ---- exactly when the bound holds -------------------------------------------------------

  lemma Overrun(f: Field, served: Served, cfg: Pages) returns (t: Trace)
    requires f.body.Body? && f.body.fields.Then? && Supplied(f, served)
    requires Honest(f.body.fields, EffectiveMax(cfg.maxSize))
    ensures t.served == served && Serves(f, t, 1, cfg)
    ensures Resolutions(t) == 1 + Rows(served, cfg) * Cost(f.body.fields, 1, EffectiveMax(cfg.maxSize))
  {
    var kids := WorstCase(f.body.fields, cfg);
    var es := Repeat(f.body.fields, kids, Rows(served, cfg), cfg);
    FullEvaluationsServe(f, served, es, cfg);
    t := Trace(served, es);
  }

  lemma FieldCostByRow(f: Field, maxPage: nat)
    requires f.body.Body? && f.body.fields.Then? && maxPage >= 1
    ensures FieldCost(f, 1, maxPage) == 1 + Multiplier(f.args, maxPage) * Cost(f.body.fields, 1, maxPage)
    ensures Cost(f.body.fields, 1, maxPage) >= 1
  {
    FullCost(f, Multiplier(f.args, maxPage), maxPage);
  }

  lemma OverrunExceeds(f: Field, served: Served, cfg: Pages) returns (t: Trace)
    requires f.body.Body? && f.body.fields.Then? && Supplied(f, served)
    requires Honest(f.body.fields, EffectiveMax(cfg.maxSize))
    requires Rows(served, cfg) > Multiplier(f.args, EffectiveMax(cfg.maxSize))
    ensures t.served == served && Serves(f, t, 1, cfg) && Resolutions(t) > FieldCost(f, 1, EffectiveMax(cfg.maxSize))
  {
    var maxPage := EffectiveMax(cfg.maxSize);
    var rows, m, each := Rows(served, cfg), Multiplier(f.args, maxPage), Cost(f.body.fields, 1, maxPage);
    t := Overrun(f, served, cfg);
    FieldCostByRow(f, maxPage);
    Grows(each, rows, m);
    assert rows * each == each * rows && m * each == each * m;
  }

  /** What a field serves stays within its cost exactly when it serves no more rows than its
      multiplier, be they a page or a list that is not paged. */
  lemma RowsStayWithinExactly(f: Field, served: Served, cfg: Pages)
    requires f.body.Body? && f.body.fields.Then? && Supplied(f, served)
    requires Honest(f.body.fields, EffectiveMax(cfg.maxSize))
    ensures (forall t: Trace :: t.served == served && Serves(f, t, 1, cfg) ==>
               Resolutions(t) <= FieldCost(f, 1, EffectiveMax(cfg.maxSize)))
            <==> Rows(served, cfg) <= Multiplier(f.args, EffectiveMax(cfg.maxSize))
  {
    var maxPage := EffectiveMax(cfg.maxSize);
    if Rows(served, cfg) <= Multiplier(f.args, maxPage) {
      forall t: Trace | t.served == served && Serves(f, t, 1, cfg) ensures Resolutions(t) <= FieldCost(f, 1, maxPage) {
        ServesBounded(f, t, 1, cfg);
        assert FieldCost(f, 1, maxPage) == 1 + Below(f, 1, maxPage);
      }
    } else {
      var t := OverrunExceeds(f, served, cfg);
    }
  }

  /** A list without arguments, such as `apiKeys`, is charged one row: it stays within its cost
      exactly when it has at most one. */
  lemma UnpagedListExactly(f: Field, length: nat, cfg: Pages)
    requires f.args.NoArgs? && f.body.Body? && f.body.fields.Then? && Honest(f.body.fields, EffectiveMax(cfg.maxSize))
    ensures (forall t: Trace :: t.served == Listing(length) && Serves(f, t, 1, cfg) ==>
               Resolutions(t) <= FieldCost(f, 1, EffectiveMax(cfg.maxSize)))
            <==> length <= 1
  {
    RowsStayWithinExactly(f, Listing(length), cfg);
  }

  /** A document that Check accepts resolves at most MaxComplexity fields, as long as its charge
      fits in 64 bits. */
  lemma AcceptedResolvesWithinLimit(lead: Gap, d: Document, o: Operation, ts: Traces, limits: Limits, defaultSize: int)
    requires GapOk(lead) && DocumentOk(d) && Contains(d, o)
    requires TracesFit(o.fields, ts, 1, Pages(defaultSize, limits.maxPageSize))
    requires limits.maxComplexity > 0 && Accepted(GapText(lead) + DocumentText(d), limits)
    requires DocumentCharge(d, EffectiveMax(limits.maxPageSize)) <= INT64_MAX
    ensures AllResolutions(ts) <= limits.maxComplexity
  {
    CostDominatesExecution(d, o, ts, Pages(defaultSize, limits.maxPageSize));
    AnalyzeMeasuresTree(lead, d, limits.maxPageSize);
  }

  /** For tidy documents of one operation with honest page sizes, accepted documents keep every
      execution within MaxComplexity exactly when their charge fits in 64 bits. */
  lemma AcceptedResolvesExactly(lead: Gap, o: Operation, limits: Limits, defaultSize: int)
    requires var d, maxPage := Next(o, NoOperations), EffectiveMax(limits.maxPageSize);
             && GapOk(lead) && DocumentOk(d) && DocumentTidy(d, maxPage) && Honest(o.fields, maxPage)
             && 0 < limits.maxComplexity <= INT64_MAX && Accepted(GapText(lead) + DocumentText(d), limits)
    ensures (forall ts :: TracesFit(o.fields, ts, 1, Pages(defaultSize, limits.maxPageSize)) ==>
               AllResolutions(ts) <= limits.maxComplexity)
            <==> DocumentCharge(Next(o, NoOperations), EffectiveMax(limits.maxPageSize)) <= INT64_MAX
  {
    var d, maxPage, cfg := Next(o, NoOperations), EffectiveMax(limits.maxPageSize), Pages(defaultSize, limits.maxPageSize);
    DocumentChargeExact(d, maxPage);
    if DocumentCharge(d, maxPage) <= INT64_MAX {
      forall ts | TracesFit(o.fields, ts, 1, cfg) ensures AllResolutions(ts) <= limits.maxComplexity {
        AcceptedResolvesWithinLimit(lead, d, o, ts, limits, defaultSize);
      }
    } else {
      var ts := WorstCase(o.fields, cfg);
      assert DocumentCost(d, maxPage) == Cost(o.fields, 1, maxPage) by { assert DocumentCost(d.rest, maxPage) == 0; }
    }
  }
}
