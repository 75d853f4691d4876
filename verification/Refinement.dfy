/** Running the tokens of a tree, and the refinement theorem. */
module Refinement {
  import opened Text
  import opened Scanner
  import opened Syntax
  import opened Meaning
  import opened Lexing

  /** What a list of selections adds to the scanner's state. */
  function After(fs: Fields, st: State, maxPage: nat): (r: State)
    requires st.Valid() && maxPage >= 1
    ensures r.Valid()
  {
    st.(pending := Leaves(fs, st.pending, maxPage),
        peak := Max(st.peak, st.depth + Height(fs)),
        cost := st.cost + Charge(fs, st.Top(), st.pending, maxPage),
        fields := st.fields + Count(fs),
        introspection := st.introspection || Introspects(fs))
  }

  function AfterBody(b: Body, st: State, maxPage: nat): (r: State)
    requires st.Valid() && maxPage >= 1
    ensures r.Valid()
  {
    if b.Leaf? then st
    else st.(pending := 1,
             peak := Max(st.peak, st.depth + 1 + Height(b.fields)),
             cost := st.cost + Charge(b.fields, st.Top() * st.pending, 1, maxPage),
             fields := st.fields + Count(b.fields),
             introspection := st.introspection || Introspects(b.fields))
  }

  function AfterField(f: Field, st: State, maxPage: nat): (r: State)
    requires st.Valid() && maxPage >= 1
    ensures r.Valid()
  {
    st.(pending := FieldLeaves(f, st.pending, maxPage),
        peak := Max(st.peak, st.depth + FieldHeight(f)),
        cost := st.cost + FieldCharge(f, st.Top(), st.pending, maxPage),
        fields := st.fields + FieldCount(f),
        introspection := st.introspection || FieldIntrospects(f))
  }

  /** Opening a selection set, scanning it and closing it again. */
  lemma OpenThenClose(b: Body, st: State, maxPage: nat)
    requires b.Body? && st.Valid() && maxPage >= 1
    ensures After(b.fields, st.Open(), maxPage).Close() == AfterBody(b, st, maxPage)
  {
    assert st.Open().Top() == st.Top() * st.pending;
    assert st.Open().multipliers[..|st.multipliers|] == st.multipliers;
  }

  lemma {:induction false} RunBody(b: Body, k: Tokens, st: State, maxPage: nat)
    requires BodyOk(b) && st.Valid() && 0 <= st.depth <= st.peak && maxPage >= 1
    ensures Run(BodyTokens(b, k), st, maxPage) == Run(k, AfterBody(b, st, maxPage), maxPage)
    decreases b, 0
  {
    if b.Body? {
      var inner := FieldsTokens(b.fields, Emit(CloseBrace, k));
      assert Run(BodyTokens(b, k), st, maxPage) == Run(inner, st.Open(), maxPage);
      RunFields(b.fields, Emit(CloseBrace, k), st.Open(), maxPage);
      OpenThenClose(b, st, maxPage);
    }
  }

  function Hinted(a: Args, st: State, maxPage: nat): (r: State)
    requires st.Valid() && maxPage >= 1
    ensures r.Valid()
  {
    if a.NoArgs? then st else st.(pending := Multiplier(a, maxPage))
  }

  /** A selected name inside a selection set, before its arguments. */
  lemma SelectedField(f: Field, st: State)
    requires FieldOk(f) && st.Valid() && st.depth >= 1
    ensures st.Select(f.name) == st.(introspection := st.introspection || IsReserved(f.name),
                                     fields := st.fields + 1, cost := st.cost + st.Top())
  {
  }

  lemma LeafByParts(f: Field, st: State, maxPage: nat)
    requires FieldOk(f) && f.body.Leaf? && st.Valid() && 1 <= st.depth <= st.peak && maxPage >= 1
    ensures Hinted(f.args, st.Select(f.name), maxPage) == AfterField(f, st, maxPage)
  {
    SelectedField(f, st);
    var hinted, after := Hinted(f.args, st.Select(f.name), maxPage), AfterField(f, st, maxPage);
    assert hinted.pending == after.pending;
    assert hinted.peak == after.peak;
    assert hinted.cost == after.cost;
    assert hinted.fields == after.fields && hinted.introspection == after.introspection;
  }

  lemma HintedField(f: Field, st: State, maxPage: nat)
    requires st.Valid() && maxPage >= 1
    ensures var hinted := Hinted(f.args, st, maxPage);
            hinted == st.(pending := Carried(f, st.pending, maxPage)) && hinted.Top() == st.Top()
  {
  }

  lemma BranchAfterBody(b: Body, st: State, below: nat, maxPage: nat)
    requires b.Body? && st.Valid() && maxPage >= 1 && below == Charge(b.fields, st.Top() * st.pending, 1, maxPage)
    ensures AfterBody(b, st, maxPage)
            == st.(pending := 1, peak := Max(st.peak, st.depth + 1 + Height(b.fields)), cost := st.cost + below,
                   fields := st.fields + Count(b.fields), introspection := st.introspection || Introspects(b.fields))
  {
  }

  lemma BranchAfterField(f: Field, st: State, below: nat, maxPage: nat)
    requires f.body.Body? && st.Valid() && maxPage >= 1
    requires below == Charge(f.body.fields, st.Top() * Carried(f, st.pending, maxPage), 1, maxPage)
    ensures AfterField(f, st, maxPage)
            == st.(pending := 1, peak := Max(st.peak, st.depth + 1 + Height(f.body.fields)),
                   cost := st.cost + st.Top() + below, fields := st.fields + 1 + Count(f.body.fields),
                   introspection := st.introspection || IsReserved(f.name) || Introspects(f.body.fields))
  {
    assert FieldCharge(f, st.Top(), st.pending, maxPage) == st.Top() + below;
  }

  lemma BranchByParts(f: Field, st: State, maxPage: nat)
    requires FieldOk(f) && f.body.Body? && st.Valid() && 1 <= st.depth <= st.peak && maxPage >= 1
    ensures AfterBody(f.body, Hinted(f.args, st.Select(f.name), maxPage), maxPage) == AfterField(f, st, maxPage)
  {
    var below := Charge(f.body.fields, st.Top() * Carried(f, st.pending, maxPage), 1, maxPage);
    var hinted := Hinted(f.args, st.Select(f.name), maxPage);
    SelectedField(f, st);
    HintedField(f, st.Select(f.name), maxPage);
    assert hinted.Top() == st.Top() && hinted.pending == Carried(f, st.pending, maxPage);
    BranchAfterBody(f.body, hinted, below, maxPage);
    BranchAfterField(f, st, below, maxPage);
  }

  lemma FieldByParts(f: Field, st: State, maxPage: nat)
    requires FieldOk(f) && st.Valid() && 1 <= st.depth <= st.peak && maxPage >= 1
    ensures AfterBody(f.body, Hinted(f.args, st.Select(f.name), maxPage), maxPage) == AfterField(f, st, maxPage)
  {
    if f.body.Leaf? { LeafByParts(f, st, maxPage); } else { BranchByParts(f, st, maxPage); }
  }

  lemma {:induction false} RunField(f: Field, k: Tokens, st: State, maxPage: nat)
    requires FieldOk(f) && st.Valid() && 1 <= st.depth <= st.peak && maxPage >= 1
    ensures Run(FieldTokens(f, k), st, maxPage) == Run(k, AfterField(f, st, maxPage), maxPage)
    decreases f, 1
  {
    var rest := BodyTokens(f.body, k);
    var hinted := Hinted(f.args, st.Select(f.name), maxPage);
    assert Run(FieldTokens(f, k), st, maxPage) == Run(ArgsTokens(f.args, rest), st.Select(f.name), maxPage);
    assert Run(ArgsTokens(f.args, rest), st.Select(f.name), maxPage) == Run(rest, hinted, maxPage);
    RunBody(f.body, k, hinted, maxPage);
    FieldByParts(f, st, maxPage);
  }

  lemma FieldsByParts(fs: Fields, st: State, maxPage: nat)
    requires fs.Then? && st.Valid() && maxPage >= 1
    ensures After(fs.rest, AfterField(fs.first, st, maxPage), maxPage) == After(fs, st, maxPage)
  {
  }

  lemma {:induction false} RunFields(fs: Fields, k: Tokens, st: State, maxPage: nat)
    requires FieldsOk(fs) && st.Valid() && 1 <= st.depth <= st.peak && maxPage >= 1
    ensures Run(FieldsTokens(fs, k), st, maxPage) == Run(k, After(fs, st, maxPage), maxPage)
    decreases fs, 0
  {
    if fs.Then? {
      RunField(fs.first, FieldsTokens(fs.rest, k), st, maxPage);
      RunFields(fs.rest, k, AfterField(fs.first, st, maxPage), maxPage);
      FieldsByParts(fs, st, maxPage);
    }
  }

  function AfterOperations(d: Document, st: State, maxPage: nat): (r: State)
    requires st.Valid() && maxPage >= 1
    ensures r.Valid()
  {
    st.(peak := Max(st.peak, DocumentHeight(d)), cost := st.cost + DocumentCharge(d, maxPage),
        fields := st.fields + DocumentCount(d), introspection := st.introspection || DocumentIntrospects(d))
  }

  lemma RunHeader(h: Header, k: Tokens, st: State, maxPage: nat)
    requires HeaderOk(h) && st.Valid() && st.depth == 0 && maxPage >= 1
    ensures Run(HeaderTokens(h, k), st, maxPage)
            == Run(k, st.(introspection := st.introspection || HeaderIntrospects(h)), maxPage)
  {
    match h
    case Shorthand =>
    case Keyword(word, _) => assert IsReservedWord(word);
    case Titled(word, _, title, _) => assert IsReservedWord(word) && st.Select(word) == st;
  }

  function AfterOperation(o: Operation, st: State, maxPage: nat): (r: State)
    requires st.Valid() && maxPage >= 1
    ensures r.Valid()
  {
    AfterBody(Body(o.gap, o.fields, o.after),
              Hinted(o.variables, st.(introspection := st.introspection || HeaderIntrospects(o.header)), maxPage),
              maxPage)
  }

  lemma RunOperation(o: Operation, k: Tokens, st: State, maxPage: nat)
    requires OperationOk(o) && st.Valid() && st.depth == 0 && st.peak >= 0 && maxPage >= 1
    ensures Run(OperationTokens(o, k), st, maxPage) == Run(k, AfterOperation(o, st, maxPage), maxPage)
  {
    var body := Body(o.gap, o.fields, o.after);
    var titled := st.(introspection := st.introspection || HeaderIntrospects(o.header));
    RunHeader(o.header, ArgsTokens(o.variables, BodyTokens(body, k)), st, maxPage);
    assert Run(ArgsTokens(o.variables, BodyTokens(body, k)), titled, maxPage)
        == Run(BodyTokens(body, k), Hinted(o.variables, titled, maxPage), maxPage);
    RunBody(body, k, Hinted(o.variables, titled, maxPage), maxPage);
  }

  lemma AfterOneOperation(o: Operation, st: State, maxPage: nat)
    requires maxPage >= 1 && st.depth == 0 && st.multipliers == [1] && st.pending == 1 && st.peak >= 0
    ensures AfterOperation(o, st, maxPage)
            == st.(peak := Max(st.peak, 1 + Height(o.fields)),
                   cost := st.cost + Charge(o.fields, Multiplier(o.variables, maxPage), 1, maxPage),
                   fields := st.fields + Count(o.fields),
                   introspection := st.introspection || HeaderIntrospects(o.header) || Introspects(o.fields))
  {
    var m := Multiplier(o.variables, maxPage);
    assert st.Top() == 1 && 1 * m == m;
  }

  lemma OperationsByParts(d: Document, st: State, maxPage: nat)
    requires d.Next? && maxPage >= 1
    requires st.depth == 0 && st.multipliers == [1] && st.pending == 1 && st.peak >= 0
    ensures AfterOperations(d.rest, AfterOperation(d.first, st, maxPage), maxPage) == AfterOperations(d, st, maxPage)
  {
    AfterOneOperation(d.first, st, maxPage);
  }

  lemma {:induction false} RunOperations(d: Document, st: State, maxPage: nat)
    requires DocumentOk(d) && maxPage >= 1
    requires st.depth == 0 && st.multipliers == [1] && st.pending == 1 && st.peak >= 0
    ensures Run(DocumentTokens(d), st, maxPage) == Some(AfterOperations(d, st, maxPage))
    decreases d
  {
    if d.Next? {
      RunOperation(d.first, DocumentTokens(d.rest), st, maxPage);
      RunOperations(d.rest, AfterOperation(d.first, st, maxPage), maxPage);
      OperationsByParts(d, st, maxPage);
    }
  }

  /** Main theorem: scanning any printed form of a document reports the height, the number of
      fields and the charge of its tree, and never panics. */
  lemma ScanRefinesTree(lead: Gap, d: Document, maxPage: nat)
    requires GapOk(lead) && DocumentOk(d) && maxPage >= 1
    ensures var r := Scan(GapText(lead) + DocumentText(d), maxPage);
            && r.Some?
            && r.value.peak == DocumentHeight(d)
            && r.value.fields == DocumentCount(d)
            && r.value.cost == DocumentCharge(d, maxPage)
            && r.value.introspection == DocumentIntrospects(d)
  {
    PrintedFormsLexAlike(lead, d);
    RunOperations(d, INITIAL, maxPage);
  }
}
