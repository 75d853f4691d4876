/** How the charge relates to the documented cost, and bounds that hold for arbitrary text. */
module Costs {
  import opened Text
  import opened Scanner
  import opened Syntax
  import opened Meaning
  import opened Lexing
  import opened Refinement
  import opened Analyzer

  // ---- the charge is never below the documented cost --------------------------------------

  lemma {:induction false} ChargeCoversCost(fs: Fields, charged: nat, m: nat, p: nat, maxPage: nat)
    requires charged >= m && p >= 1 && maxPage >= 1
    ensures Charge(fs, charged, p, maxPage) >= Cost(fs, m, maxPage)
    ensures charged > m && fs.Then? ==> Charge(fs, charged, p, maxPage) > Cost(fs, m, maxPage)
    decreases fs
  {
    if fs.Then? {
      var f := fs.first;
      if f.body.Body? {
        Products(charged, m, Carried(f, p, maxPage), Multiplier(f.args, maxPage));
        ChargeCoversCost(f.body.fields, charged * Carried(f, p, maxPage), m * Multiplier(f.args, maxPage), 1, maxPage);
      }
      ChargeCoversCost(fs.rest, charged, m, FieldLeaves(f, p, maxPage), maxPage);
    }
  }

  lemma Products(a: nat, b: nat, c: nat, d: nat)
    requires a >= b && c >= d
    ensures a * c >= b * d
  {
    assert a * c >= b * c >= b * d;
  }

  /** Whether every selection set is charged at its own field's multiplier when p is pending:
      no field without arguments opens a non-empty selection set while a leaf's hint above 1
      is still pending. */
  predicate Tidy(fs: Fields, p: nat, maxPage: nat)
    requires maxPage >= 1
  {
    fs.Then? ==> TidyField(fs.first, p, maxPage) && Tidy(fs.rest, FieldLeaves(fs.first, p, maxPage), maxPage)
  }

  predicate TidyField(f: Field, p: nat, maxPage: nat)
    requires maxPage >= 1
  {
    f.body.Body? && f.body.fields.Then? ==> (!f.args.NoArgs? || p == 1) && Tidy(f.body.fields, 1, maxPage)
  }

  /** The charge is the documented cost exactly for tidy selections. */
  lemma {:induction false} ChargeIsCostExactlyWhenTidy(fs: Fields, m: nat, p: nat, maxPage: nat)
    requires m >= 1 && p >= 1 && maxPage >= 1
    ensures Charge(fs, m, p, maxPage) == Cost(fs, m, maxPage) <==> Tidy(fs, p, maxPage)
    decreases fs
  {
    if fs.Then? {
      var f := fs.first;
      var left := FieldLeaves(f, p, maxPage);
      ChargeIsCostExactlyWhenTidy(fs.rest, m, left, maxPage);
      ChargeCoversCost(fs.rest, m, m, left, maxPage);
      if f.body.Body? {
        var own, carried := Multiplier(f.args, maxPage), Carried(f, p, maxPage);
        Products(m, 1, own, 1);
        Products(m, m, carried, own);
        ChargeCoversCost(f.body.fields, m * carried, m * own, 1, maxPage);
        ChargeIsCostExactlyWhenTidy(f.body.fields, m * own, 1, maxPage);
        if carried > own { assert m * carried > m * own by { Grows(m, carried, own); } }
      }
    }
  }

  lemma Grows(m: nat, a: nat, b: nat)
    requires m >= 1 && a > b
    ensures m * a > m * b
  {
    assert m * a == m * b + m * (a - b);
    Products(m, 1, a - b, 1);
  }

  /** The fields the schema serves as leaves carry no pagination argument. */
  predicate LeavesUnpaged(fs: Fields, maxPage: nat)
    requires maxPage >= 1
  {
    fs.Then? ==>
      && (if fs.first.body.Leaf? then Multiplier(fs.first.args, maxPage) == 1
          else LeavesUnpaged(fs.first.body.fields, maxPage))
      && LeavesUnpaged(fs.rest, maxPage)
  }

  lemma {:induction false} UnpagedLeavesAreTidy(fs: Fields, maxPage: nat)
    requires maxPage >= 1 && LeavesUnpaged(fs, maxPage)
    ensures Tidy(fs, 1, maxPage) && Leaves(fs, 1, maxPage) == 1
    decreases fs
  {
    if fs.Then? {
      if fs.first.body.Body? { UnpagedLeavesAreTidy(fs.first.body.fields, maxPage); }
      UnpagedLeavesAreTidy(fs.rest, maxPage);
    }
  }

  predicate DocumentUnpaged(d: Document, maxPage: nat)
    requires maxPage >= 1
  {
    d.Next? ==>
      && Multiplier(d.first.variables, maxPage) == 1 && LeavesUnpaged(d.first.fields, maxPage)
      && DocumentUnpaged(d.rest, maxPage)
  }

  /** A document is tidy when its selections are, and no variable list carries a hint. */
  predicate DocumentTidy(d: Document, maxPage: nat)
    requires maxPage >= 1
  {
    d.Next? ==>
      && (d.first.fields.Then? ==> Multiplier(d.first.variables, maxPage) == 1)
      && Tidy(d.first.fields, 1, maxPage) && DocumentTidy(d.rest, maxPage)
  }

  lemma {:induction false} DocumentChargeExact(d: Document, maxPage: nat)
    requires maxPage >= 1
    ensures DocumentCharge(d, maxPage) >= DocumentCost(d, maxPage)
    ensures DocumentCharge(d, maxPage) == DocumentCost(d, maxPage) <==> DocumentTidy(d, maxPage)
    decreases d
  {
    if d.Next? {
      var fs, m := d.first.fields, Multiplier(d.first.variables, maxPage);
      ChargeCoversCost(fs, m, 1, 1, maxPage);
      ChargeIsCostExactlyWhenTidy(fs, 1, 1, maxPage);
      DocumentChargeExact(d.rest, maxPage);
    }
  }

  /** Main theorem on Analyze: on every printed form of a document it reports the height and the
      number of fields, and a cost that wraps the charge; the charge is never below the
      documented cost and equals it exactly when the document is tidy. */
  lemma AnalyzeMeasuresTree(lead: Gap, d: Document, maxPageSize: int)
    requires GapOk(lead) && DocumentOk(d)
    ensures var maxPage := EffectiveMax(maxPageSize);
            && Analyzed(GapText(lead) + DocumentText(d), maxPageSize)
               == Some(Analysis(DocumentHeight(d), Wrap(DocumentCharge(d, maxPage)), DocumentCount(d),
                                DocumentIntrospects(d)))
            && DocumentCharge(d, maxPage) >= DocumentCost(d, maxPage)
            && (DocumentCharge(d, maxPage) == DocumentCost(d, maxPage) <==> DocumentTidy(d, maxPage))
  {
    ScanRefinesTree(lead, d, EffectiveMax(maxPageSize));
    DocumentChargeExact(d, EffectiveMax(maxPageSize));
  }

  lemma {:induction false} UnpagedDocumentsAreTidy(d: Document, maxPage: nat)
    requires maxPage >= 1 && DocumentUnpaged(d, maxPage)
    ensures DocumentTidy(d, maxPage)
    decreases d
  {
    if d.Next? {
      UnpagedLeavesAreTidy(d.first.fields, maxPage);
      UnpagedDocumentsAreTidy(d.rest, maxPage);
    }
  }

  /** Where no leaf and no variable list carries a pagination hint, Analyze reports the documented
      cost, in 64 bits. */
  lemma AnalyzeIsDocumentedCost(lead: Gap, d: Document, maxPageSize: int)
    requires GapOk(lead) && DocumentOk(d) && DocumentUnpaged(d, EffectiveMax(maxPageSize))
    ensures Analyzed(GapText(lead) + DocumentText(d), maxPageSize)
            == Some(Analysis(DocumentHeight(d), Wrap(DocumentCost(d, EffectiveMax(maxPageSize))), DocumentCount(d),
                             DocumentIntrospects(d)))
  {
    AnalyzeMeasuresTree(lead, d, maxPageSize);
    UnpagedDocumentsAreTidy(d, EffectiveMax(maxPageSize));
  }

  /** Which printed documents Check accepts, in terms of the tree. */
  lemma ChecksTree(lead: Gap, d: Document, limits: Limits)
    requires GapOk(lead) && DocumentOk(d)
    ensures var text := GapText(lead) + DocumentText(d);
            Accepted(text, limits) <==>
              && (limits.maxBytes > 0 ==> ByteLength(text) <= limits.maxBytes)
              && (DocumentIntrospects(d) ==> limits.allowIntrospection)
              && (limits.maxDepth > 0 ==> DocumentHeight(d) <= limits.maxDepth)
              && (limits.maxComplexity > 0 ==>
                    Wrap(DocumentCharge(d, EffectiveMax(limits.maxPageSize))) <= limits.maxComplexity)
  {
    AnalyzeMeasuresTree(lead, d, limits.maxPageSize);
  }

  lemma {:induction false} SelectingIntrospects(fs: Fields, name: string)
    requires Selects(fs, name) && IsReserved(name)
    ensures Introspects(fs)
    decreases fs
  {
    if fs.first.name != name {
      if fs.first.body.Body? && Selects(fs.first.body.fields, name) {
        SelectingIntrospects(fs.first.body.fields, name);
      } else {
        SelectingIntrospects(fs.rest, name);
      }
    }
  }

  lemma {:induction false} DocumentIntrospecting(d: Document, name: string)
    requires DocumentSelects(d, name) && IsReserved(name)
    ensures DocumentIntrospects(d)
    decreases d
  {
    if Selects(d.first.fields, name) {
      SelectingIntrospects(d.first.fields, name);
    } else {
      DocumentIntrospecting(d.rest, name);
    }
  }

  /** Where introspection is disabled, no printed document that selects a field such as `__schema`
      is accepted, however deep the field stands and however it is spaced, aliased or commented. */
  lemma IntrospectionIsRefused(lead: Gap, d: Document, rest: string, limits: Limits)
    requires GapOk(lead) && DocumentOk(d) && DocumentSelects(d, "__" + rest) && !limits.allowIntrospection
    ensures !Accepted(GapText(lead) + DocumentText(d), limits)
  {
    DocumentIntrospecting(d, "__" + rest);
    ChecksTree(lead, d, limits);
  }

  /** An accepted document's charge is within the limit exactly when it fits in 64 bits: a charge
      that wraps can be accepted, one that does not wrap is compared as it is. */
  lemma AcceptedChargeExactly(lead: Gap, d: Document, limits: Limits)
    requires GapOk(lead) && DocumentOk(d) && 0 < limits.maxComplexity <= INT64_MAX
    requires Accepted(GapText(lead) + DocumentText(d), limits)
    ensures var charge := DocumentCharge(d, EffectiveMax(limits.maxPageSize));
            charge <= limits.maxComplexity <==> charge <= INT64_MAX
  {
    ChecksTree(lead, d, limits);
  }

  // ---- arbitrary text -------------------------------------------------------------------

  function Pow(b: nat, e: nat): (p: nat)
    ensures b >= 1 ==> p >= 1
  {
    if e == 0 then 1 else b * Pow(b, e - 1)
  }

  lemma {:induction false} PowMonotone(b: nat, e: nat, f: nat)
    requires b >= 1 && e <= f
    ensures Pow(b, e) <= Pow(b, f)
    decreases f
  {
    if e < f {
      PowMonotone(b, e, f - 1);
      Products(b, 1, Pow(b, f - 1), Pow(b, f - 1));
    }
  }

  /** How much a token opens: opening braces count one up, closing braces one down. */
  function Opens(t: Token): int { if t.OpenBrace? then 1 else if t.CloseBrace? then -1 else 0 }

  /** No closing brace comes before its opening brace. */
  predicate NeverNegative(ts: Tokens, depth: int) {
    ts.Emit? ==> depth + Opens(ts.token) >= 0 && NeverNegative(ts.more, depth + Opens(ts.token))
  }

  /** The largest number of opening braces over closing ones so far, from `depth` on. */
  function PeakBalance(ts: Tokens, depth: int): (top: int)
    ensures top >= depth
    decreases ts
  {
    if ts.Emit? then Max(depth, PeakBalance(ts.more, depth + Opens(ts.token))) else depth
  }

  /** The names, keywords aside, at which more braces were opened than closed. */
  function NamesInside(ts: Tokens, depth: int): nat
    decreases ts
  {
    if ts.Emit? then
      (if ts.token.Word? && !IsKeyword(ts.token.name) && depth >= 1 then 1 else 0)
      + NamesInside(ts.more, depth + Opens(ts.token))
    else 0
  }

  /** On any tokens the scanner counts braces: what it reports is said by their balance alone. */
  lemma {:induction false} RunCountsBraces(ts: Tokens, st: State, maxPage: nat)
    requires st.Valid() && st.depth <= st.peak && maxPage >= 1
    ensures var r := Run(ts, st, maxPage);
            r.Some? ==>
              && r.value.peak == Max(st.peak, PeakBalance(ts, st.depth))
              && r.value.fields == st.fields + NamesInside(ts, st.depth)
    decreases ts
  {
    if ts.Emit? { RunCountsBraces(ts.more, Apply(ts.token, st, maxPage), maxPage); }
  }

  predicate Bounded(st: State, maxPage: nat) {
    && st.Valid() && 1 <= st.pending <= maxPage
    && (forall k :: 0 <= k < |st.multipliers| ==> 1 <= st.multipliers[k] <= Pow(maxPage, k))
    && st.fields <= st.cost
  }

  /** The largest height the multiplier stack reaches above its lowest entry: a closing brace at
      the bottom leaves it there. */
  function StackPeak(ts: Tokens, height: nat): (top: nat)
    ensures top >= height
    decreases ts
  {
    match ts
    case Emit(t, more) =>
      var next := if t.OpenBrace? then height + 1 else if t.CloseBrace? && height > 0 then height - 1 else height;
      var top := StackPeak(more, next);
      if top >= height then top else height
    case _ => height
  }

  /** Costs so far are bounded by the highest multiplier of the run. */
  predicate Under(st: State, top: nat, maxPage: nat) {
    Bounded(st, maxPage) && |st.multipliers| <= top + 1 && st.cost <= st.fields * Pow(maxPage, top)
  }

  lemma ApplyKeepsBounded(t: Token, st: State, maxPage: nat)
    requires Bounded(st, maxPage) && maxPage >= 1
    ensures Bounded(Apply(t, st, maxPage), maxPage)
  {
    if t.OpenBrace? {
      var n := |st.multipliers|;
      Products(Pow(maxPage, n - 1), st.Top(), maxPage, st.pending);
      Products(st.Top(), 1, st.pending, 1);
      assert Pow(maxPage, n) == maxPage * Pow(maxPage, n - 1);
    }
  }

  lemma OneMoreTimes(a: nat, b: nat)
    ensures (a + 1) * b == a * b + b
  {
  }

  lemma SelectKeepsUnder(name: string, st: State, top: nat, maxPage: nat)
    requires Under(st, top, maxPage) && maxPage >= 1
    ensures Under(st.Select(name), top, maxPage)
  {
    var next, bound := st.Select(name), Pow(maxPage, top);
    ApplyKeepsBounded(Word(name), st, maxPage);
    PowMonotone(maxPage, |st.multipliers| - 1, top);
    assert st.Top() <= bound;
    if next.fields == st.fields + 1 { OneMoreTimes(st.fields, bound); }
  }

  lemma ApplyKeepsUnder(t: Token, st: State, top: nat, maxPage: nat)
    requires Under(st, top, maxPage) && maxPage >= 1
    requires t.OpenBrace? ==> |st.multipliers| <= top
    ensures Under(Apply(t, st, maxPage), top, maxPage)
  {
    if t.Word? {
      SelectKeepsUnder(t.name, st, top, maxPage);
    } else {
      ApplyKeepsBounded(t, st, maxPage);
      var next := Apply(t, st, maxPage);
      assert next.cost == st.cost && next.fields == st.fields;
    }
  }

  lemma {:induction false} RunKeepsUnder(ts: Tokens, st: State, top: nat, maxPage: nat)
    requires Under(st, top, maxPage) && StackPeak(ts, |st.multipliers| - 1) <= top && maxPage >= 1
    ensures var r := Run(ts, st, maxPage); r.Some? ==> Under(r.value, top, maxPage)
    decreases ts
  {
    if ts.Emit? {
      ApplyKeepsUnder(ts.token, st, top, maxPage);
      RunKeepsUnder(ts.more, Apply(ts.token, st, maxPage), top, maxPage);
    }
  }

  /** While depth does not go negative, the stack is as high as the depth. */
  lemma {:induction false} DepthIsHeight(ts: Tokens, st: State, maxPage: nat)
    requires st.Valid() && |st.multipliers| == st.depth + 1 && st.depth <= st.peak && maxPage >= 1
    requires NeverNegative(ts, st.depth)
    ensures var r := Run(ts, st, maxPage);
            r.Some? ==> r.value.peak == if StackPeak(ts, st.depth) > st.peak then StackPeak(ts, st.depth) else st.peak
    decreases ts
  {
    if ts.Emit? { DepthIsHeight(ts.more, Apply(ts.token, st, maxPage), maxPage); }
  }

  /** For arbitrary text: Fields <= Cost before wrapping, and Cost <= Fields * max^Height for the
      peak height of the multiplier stack, which is the reported depth when no closing brace
      comes too early; so when that bound fits in 64 bits, nothing wraps. */
  lemma ArbitraryTextBounds(document: string, maxPageSize: int)
    ensures var maxPage, top := EffectiveMax(maxPageSize), StackPeak(Lex(document, 0), 0);
            var r := Scan(document, maxPage);
            r.Some? ==>
              && 0 <= r.value.fields <= r.value.cost <= r.value.fields * Pow(maxPage, top)
              && r.value.peak == PeakBalance(Lex(document, 0), 0) && r.value.fields == NamesInside(Lex(document, 0), 0)
              && (NeverNegative(Lex(document, 0), 0) ==> r.value.peak == top)
              && (r.value.fields * Pow(maxPage, top) <= INT64_MAX ==>
                    Analyzed(document, maxPageSize).value.cost == r.value.cost)
  {
    var maxPage, top := EffectiveMax(maxPageSize), StackPeak(Lex(document, 0), 0);
    RunKeepsUnder(Lex(document, 0), INITIAL, top, maxPage);
    RunCountsBraces(Lex(document, 0), INITIAL, maxPage);
    if NeverNegative(Lex(document, 0), 0) {
      DepthIsHeight(Lex(document, 0), INITIAL, maxPage);
    }
  }
}
