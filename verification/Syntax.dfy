/** GraphQL documents made of operations, fields, aliases, arguments and selection sets
    (GraphQL specification, October 2021, sections 2.1 to 2.7), as concrete syntax: every
    token carries the ignored text that follows it, so that one tree has as many printed
    forms as its gaps and argument texts allow. */
module Syntax {
  import opened Text

  // ---- names (section 2.1.9) ----------------------------------------------------------

  predicate StartsName(c: char) { 'A' <= c <= 'Z' || 'a' <= c <= 'z' || c == '_' }

  predicate ContinuesName(c: char) { StartsName(c) || '0' <= c <= '9' }

  predicate IsName(s: string) {
    s != [] && StartsName(s[0]) && forall k :: 0 <= k < |s| ==> ContinuesName(s[k])
  }

  /** Words of the language that are not taken as field names here. */
  predicate IsKeyword(s: string) {
    s in {"query", "mutation", "subscription", "fragment", "on", "true", "false", "null"}
  }

  // ---- ignored text (sections 2.1.1 to 2.1.5) --------------------------------------------

  /** White space, line ends and commas. */
  predicate IsIgnored(c: char) { c in {' ', '\t', '\n', '\r', ','} }

  /** The inside of a comment: up to the end of its line, which may be a carriage return and
      a line feed. */
  predicate IsComment(text: string) {
    forall k :: 0 <= k < |text| ==> text[k] != '\n' && (text[k] == '\r' ==> k == |text| - 1)
  }

  datatype Gap = Tight | Blank(c: char, more: Gap) | Remark(text: string, more: Gap)

  predicate GapOk(g: Gap) {
    match g
    case Tight => true
    case Blank(c, more) => (IsIgnored(c) || c == '\U{FEFF}') && GapOk(more)
    case Remark(text, more) => IsComment(text) && GapOk(more)
  }

  function GapText(g: Gap): string {
    match g
    case Tight => ""
    case Blank(c, more) => [c] + GapText(more)
    case Remark(text, more) => "#" + (text + ("\n" + GapText(more)))
  }

  // ---- argument lists ----------------------------------------------------------------

  /** The inside of a quoted string. */
  datatype Chars = NoChars | Raw(c: char, more: Chars) | Escape(c: char, more: Chars)

  predicate CharsOk(cs: Chars) {
    match cs
    case NoChars => true
    case Raw(c, more) => c != '"' && c != '\\' && CharsOk(more)
    case Escape(_, more) => CharsOk(more)
  }

  function CharsText(cs: Chars): string {
    match cs
    case NoChars => ""
    case Raw(c, more) => [c] + CharsText(more)
    case Escape(c, more) => ['\\', c] + CharsText(more)
  }

  const TRIPLE: string := "\"\"\""

  /** An argument list is any text in which strings are closed and parentheses match. */
  datatype Pieces =
    | NoPieces
    | Plain(c: char, more: Pieces)
    | Quoted(chars: Chars, more: Pieces)
    | BlockQuoted(text: string, more: Pieces)
    | Group(inner: Pieces, more: Pieces)

  predicate PiecesOk(ps: Pieces) {
    match ps
    case NoPieces => true
    case Plain(c, more) => c != '"' && c != '(' && c != ')' && PiecesOk(more)
    case Quoted(chars, more) =>
      // "" directly before another quote would read as a block string
      CharsOk(chars) && PiecesOk(more) && (chars.NoChars? ==> !more.Quoted? && !more.BlockQuoted?)
    case BlockQuoted(text, more) => NoTripleInside(text) && PiecesOk(more)
    case Group(inner, more) => PiecesOk(inner) && PiecesOk(more)
  }

  /** The closing quotes are the first three quotes in a row. */
  predicate NoTripleInside(text: string) {
    forall k :: 0 <= k < |text| ==> !OccursAt(text + TRIPLE, TRIPLE, k)
  }

  function PiecesText(ps: Pieces): string {
    match ps
    case NoPieces => ""
    case Plain(c, more) => [c] + PiecesText(more)
    case Quoted(chars, more) => "\"" + (CharsText(chars) + ("\"" + PiecesText(more)))
    case BlockQuoted(text, more) => TRIPLE + (text + (TRIPLE + PiecesText(more)))
    case Group(inner, more) => "(" + (PiecesText(inner) + (")" + PiecesText(more)))
  }

  // ---- argument lists by the grammar (sections 2.6, 2.9 and 2.10) ----------------------

  datatype Value =
    | Var(space: Gap, name: string)
    | Int(negative: bool, n: nat)
    | Bare(text: string)             // a boolean, null, an enum value or a float
    | Str(chars: Chars)
    | Block(text: string)
    | List(lead: Gap, items: Items)
    | Object(lead: Gap, members: Arguments)

  datatype Items = NoItems | Item(value: Value, after: Gap, more: Items)

  datatype Arguments = NoArguments | Argument(name: string, space: Gap, lead: Gap, value: Value, after: Gap, more: Arguments)

  /** Text whose characters MatchParen passes over one by one. */
  predicate IsPlain(s: string) { forall k :: 0 <= k < |s| ==> s[k] !in {'"', '(', ')'} }

  /** A gap inside an argument list: a comment there must not hold quotes or parentheses, which
      the scanner would take for the list's own. */
  predicate InnerGapOk(g: Gap) { GapOk(g) && IsPlain(GapText(g)) }

  predicate IsFloat(s: string) {
    && s != [] && !StartsName(s[0])
    && (forall k :: 0 <= k < |s| ==> '0' <= s[k] <= '9' || s[k] in {'-', '+', '.', 'e', 'E'})
    && (exists k :: 0 <= k < |s| && s[k] in {'.', 'e', 'E'})
  }

  /** Values that a name or a number directly behind them would continue. */
  predicate Runs(v: Value) { v.Var? || v.Int? || v.Bare? }

  predicate ValueOk(v: Value) {
    match v
    case Var(space, name) => InnerGapOk(space) && IsName(name)
    case Int(_, _) => true
    case Bare(text) => IsName(text) || IsFloat(text)
    case Str(chars) => CharsOk(chars)
    case Block(text) => NoTripleInside(text)
    case List(lead, items) => InnerGapOk(lead) && ItemsOk(items)
    case Object(lead, members) => InnerGapOk(lead) && ArgumentsOk(members)
  }

  predicate ItemsOk(items: Items) {
    items.Item? ==>
      && ValueOk(items.value) && InnerGapOk(items.after) && ItemsOk(items.more)
      && (items.more.Item? && items.after.Tight? ==>
            && !(Runs(items.value) && (items.more.value.Int? || items.more.value.Bare?))
            // "" directly before another quote would read as a block string
            && !(items.value == Str(NoChars) && (items.more.value.Str? || items.more.value.Block?)))
  }

  predicate ArgumentsOk(l: Arguments) {
    l.Argument? ==>
      && IsName(l.name) && InnerGapOk(l.space) && InnerGapOk(l.lead) && ValueOk(l.value) && InnerGapOk(l.after)
      && ArgumentsOk(l.more) && (l.more.Argument? && l.after.Tight? ==> !Runs(l.value))
  }

  function IntText(negative: bool, n: nat): string { if negative then "-" + Numeral(n) else Numeral(n) }

  function ValueText(v: Value): string {
    match v
    case Var(space, name) => "$" + (GapText(space) + name)
    case Int(negative, n) => IntText(negative, n)
    case Bare(text) => text
    case Str(chars) => "\"" + (CharsText(chars) + "\"")
    case Block(text) => TRIPLE + (text + TRIPLE)
    case List(lead, items) => "[" + (GapText(lead) + (ItemsText(items) + "]"))
    case Object(lead, members) => "{" + (GapText(lead) + (ArgumentsText(members) + "}"))
  }

  function ItemsText(items: Items): string {
    if items.NoItems? then "" else ValueText(items.value) + (GapText(items.after) + ItemsText(items.more))
  }

  function ArgumentsText(l: Arguments): string {
    if l.NoArguments? then ""
    else
      l.name + (GapText(l.space) + (":" + (GapText(l.lead) + (ValueText(l.value)
        + (GapText(l.after) + ArgumentsText(l.more))))))
  }

  /** What stands between the parentheses behind a field or an operation: a list by the grammar,
      or any other balanced text, such as variable definitions. */
  datatype Args =
    | NoArgs
    | Balanced(pieces: Pieces, gap: Gap)
    | Listed(lead: Gap, list: Arguments, gap: Gap)

  predicate ArgsOk(a: Args) {
    match a
    case NoArgs => true
    case Balanced(pieces, gap) => PiecesOk(pieces) && GapOk(gap)
    case Listed(lead, list, gap) => InnerGapOk(lead) && ArgumentsOk(list) && GapOk(gap)
  }

  function InsideText(a: Args): string {
    match a
    case NoArgs => ""
    case Balanced(pieces, _) => PiecesText(pieces)
    case Listed(lead, list, _) => GapText(lead) + ArgumentsText(list)
  }

  function ArgsText(a: Args): string {
    if a.NoArgs? then "" else "(" + (InsideText(a) + (")" + GapText(a.gap)))
  }

  // ---- fields -------------------------------------------------------------------------

  datatype Alias = NoAlias | Alias(name: string, space: string, gap: Gap)

  datatype Body = Leaf | Body(gap: Gap, fields: Fields, after: Gap)

  datatype Field = Field(alias: Alias, name: string, gap: Gap, args: Args, body: Body)

  datatype Fields = NoFields | Then(first: Field, rest: Fields)

  predicate AliasOk(a: Alias) {
    a.Alias? ==> IsName(a.name) && GapOk(a.gap) && forall k :: 0 <= k < |a.space| ==> IsIgnored(a.space[k])
  }

  function AliasText(a: Alias): string {
    if a.NoAlias? then "" else a.name + (a.space + (":" + GapText(a.gap)))
  }

  /** A field whose last character would run into a name put directly behind it. */
  predicate EndsInName(f: Field) { f.args.NoArgs? && f.body.Leaf? && f.gap.Tight? }

  predicate FieldOk(f: Field) {
    && AliasOk(f.alias) && IsName(f.name) && !IsKeyword(f.name)
    && GapOk(f.gap) && ArgsOk(f.args) && BodyOk(f.body)
  }

  predicate BodyOk(b: Body) {
    b.Body? ==> GapOk(b.gap) && FieldsOk(b.fields) && GapOk(b.after)
  }

  predicate FieldsOk(fs: Fields) {
    fs.Then? ==> FieldOk(fs.first) && FieldsOk(fs.rest) && (EndsInName(fs.first) ==> fs.rest.NoFields?)
  }

  function FieldText(f: Field): string {
    AliasText(f.alias) + (f.name + (GapText(f.gap) + (ArgsText(f.args) + BodyText(f.body))))
  }

  function BodyText(b: Body): string {
    if b.Leaf? then "" else "{" + (GapText(b.gap) + (FieldsText(b.fields) + ("}" + GapText(b.after))))
  }

  function FieldsText(fs: Fields): string {
    if fs.NoFields? then "" else FieldText(fs.first) + FieldsText(fs.rest)
  }

  // ---- operations and documents ---------------------------------------------------------

  /** `{`, `query {`, `query Name($v: T) {` and the like. */
  datatype Header =
    | Shorthand
    | Keyword(word: string, gap: Gap)
    | Titled(word: string, gap: Gap, title: string, titleGap: Gap)

  datatype Operation = Operation(header: Header, variables: Args, gap: Gap, fields: Fields, after: Gap)

  datatype Document = NoOperations | Next(first: Operation, rest: Document)

  predicate HeaderOk(h: Header) {
    match h
    case Shorthand => true
    case Keyword(word, gap) => word in {"query", "mutation", "subscription"} && GapOk(gap)
    case Titled(word, gap, title, titleGap) =>
      && word in {"query", "mutation", "subscription"} && GapOk(gap) && !gap.Tight?
      && IsName(title) && GapOk(titleGap)
  }

  function HeaderText(h: Header): string {
    match h
    case Shorthand => ""
    case Keyword(word, gap) => word + GapText(gap)
    case Titled(word, gap, title, titleGap) => word + (GapText(gap) + (title + GapText(titleGap)))
  }

  predicate OperationOk(o: Operation) {
    HeaderOk(o.header) && ArgsOk(o.variables) && GapOk(o.gap) && FieldsOk(o.fields) && GapOk(o.after)
  }

  function OperationText(o: Operation): string {
    HeaderText(o.header) + (ArgsText(o.variables) + BodyText(Body(o.gap, o.fields, o.after)))
  }

  predicate DocumentOk(d: Document) { d.Next? ==> OperationOk(d.first) && DocumentOk(d.rest) }

  function DocumentText(d: Document): string {
    if d.NoOperations? then "" else OperationText(d.first) + DocumentText(d.rest)
  }
}

/** What a document means to the cost analysis: functions of the tree, which ignore gaps. */
module Meaning {
  import opened Text
  import opened Scanner
  import opened Syntax

  function Max(a: int, b: int): int { if a >= b then a else b }

  /** Nesting of selection sets below a list of fields. */
  function Height(fs: Fields): nat {
    if fs.NoFields? then 0 else Max(FieldHeight(fs.first), Height(fs.rest))
  }

  function FieldHeight(f: Field): nat {
    if f.body.Leaf? then 0 else 1 + Height(f.body.fields)
  }

  function Count(fs: Fields): nat {
    if fs.NoFields? then 0 else FieldCount(fs.first) + Count(fs.rest)
  }

  function FieldCount(f: Field): nat {
    1 + if f.body.Leaf? then 0 else Count(f.body.fields)
  }

  /** Names of the introspection system (section 4.1). */
  predicate IsReserved(name: string) { |name| >= 2 && name[0] == '_' && name[1] == '_' }

  predicate Introspects(fs: Fields) {
    fs.Then? && (FieldIntrospects(fs.first) || Introspects(fs.rest))
  }

  predicate FieldIntrospects(f: Field) {
    IsReserved(f.name) || (f.body.Body? && Introspects(f.body.fields))
  }

  /** The pagination multiplier of an argument list. */
  function Multiplier(a: Args, maxPage: nat): (m: nat)
    requires maxPage >= 1
    ensures 1 <= m <= maxPage
  {
    if a.NoArgs? then 1 else PageMultiplier(InsideText(a), maxPage)
  }

  /** The documented cost: every field costs the product `m` of the multipliers of its
      enclosing selection sets (graph/complexity.go:47-50). */
  function Cost(fs: Fields, m: nat, maxPage: nat): nat
    requires maxPage >= 1
  {
    if fs.NoFields? then 0 else FieldCost(fs.first, m, maxPage) + Cost(fs.rest, m, maxPage)
  }

  function FieldCost(f: Field, m: nat, maxPage: nat): nat
    requires maxPage >= 1
  {
    m + if f.body.Leaf? then 0 else Cost(f.body.fields, m * Multiplier(f.args, maxPage), maxPage)
  }

  /** The multiplier left pending by a field when `p` was pending before it. */
  function FieldLeaves(f: Field, p: nat, maxPage: nat): nat
    requires maxPage >= 1
  {
    if f.body.Body? then 1 else Carried(f, p, maxPage)
  }

  /** The multiplier pending after a field's arguments. */
  function Carried(f: Field, p: nat, maxPage: nat): nat
    requires maxPage >= 1
  {
    if f.args.NoArgs? then p else Multiplier(f.args, maxPage)
  }

  function Leaves(fs: Fields, p: nat, maxPage: nat): nat
    requires maxPage >= 1
  {
    if fs.NoFields? then p else Leaves(fs.rest, FieldLeaves(fs.first, p, maxPage), maxPage)
  }

  /** The cost as charged: a multiplier read from a leaf's arguments stays pending and is
      spent on the next selection set whose field has no arguments of its own. */
  function Charge(fs: Fields, m: nat, p: nat, maxPage: nat): nat
    requires maxPage >= 1
  {
    if fs.NoFields? then 0
    else FieldCharge(fs.first, m, p, maxPage) + Charge(fs.rest, m, FieldLeaves(fs.first, p, maxPage), maxPage)
  }

  function FieldCharge(f: Field, m: nat, p: nat, maxPage: nat): nat
    requires maxPage >= 1
  {
    m + if f.body.Leaf? then 0 else Charge(f.body.fields, m * Carried(f, p, maxPage), 1, maxPage)
  }

  // ---- whole documents -------------------------------------------------------------------

  function DocumentHeight(d: Document): nat {
    if d.NoOperations? then 0 else Max(1 + Height(d.first.fields), DocumentHeight(d.rest))
  }

  function DocumentCount(d: Document): nat {
    if d.NoOperations? then 0 else Count(d.first.fields) + DocumentCount(d.rest)
  }

  /** Somewhere in the selections stands a field of this name. */
  predicate Selects(fs: Fields, name: string) {
    fs.Then? && (fs.first.name == name || (fs.first.body.Body? && Selects(fs.first.body.fields, name)) || Selects(fs.rest, name))
  }

  predicate DocumentSelects(d: Document, name: string) {
    d.Next? && (Selects(d.first.fields, name) || DocumentSelects(d.rest, name))
  }

  predicate HeaderIntrospects(h: Header) {
    h.Titled? && IsReserved(h.title)
  }

  predicate DocumentIntrospects(d: Document) {
    d.Next? && (HeaderIntrospects(d.first.header) || Introspects(d.first.fields) || DocumentIntrospects(d.rest))
  }

  function DocumentCost(d: Document, maxPage: nat): nat
    requires maxPage >= 1
  {
    if d.NoOperations? then 0 else Cost(d.first.fields, 1, maxPage) + DocumentCost(d.rest, maxPage)
  }

  function DocumentCharge(d: Document, maxPage: nat): nat
    requires maxPage >= 1
  {
    if d.NoOperations? then 0
    else Charge(d.first.fields, Multiplier(d.first.variables, maxPage), 1, maxPage) + DocumentCharge(d.rest, maxPage)
  }
}
