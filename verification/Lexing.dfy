/** Every printed form of a tree lexes to the same tokens. */
module Lexing {
  import opened Text
  import opened Scanner
  import opened Syntax

  /** The text t is printed in s from index i up to e. */
  predicate At(s: string, i: nat, t: string, e: nat) {
    i + |t| == e <= |s| && s[i..e] == t
  }

  lemma Split(s: string, i: nat, a: string, b: string, e: nat) returns (m: nat)
    requires At(s, i, a + b, e)
    ensures At(s, i, a, m) && At(s, m, b, e)
  {
    m := i + |a|;
    assert s[i..m] == (a + b)[..|a|];
    assert s[m..e] == (a + b)[|a|..];
  }

  lemma SplitChar(s: string, i: nat, c: char, b: string, e: nat)
    requires At(s, i, [c] + b, e)
    ensures i < e <= |s| && s[i] == c && At(s, i + 1, b, e)
  {
    var m := Split(s, i, [c], b, e);
    assert s[i..m][0] == c;
  }

  lemma Chars(s: string, i: nat, t: string, e: nat)
    requires At(s, i, t, e)
    ensures i <= e <= |s|
    ensures forall k :: i <= k < e ==> s[k] == t[k - i]
  {
    forall k | i <= k < e ensures s[k] == t[k - i] { assert s[i..e][k - i] == s[k]; }
  }

  // ---- names, gaps and aliases ---------------------------------------------------------

  lemma {:induction false} NameSpan(s: string, i: nat, e: nat)
    requires i <= e <= |s| && (forall k :: i <= k < e ==> IsNameChar(s[k]))
    requires e < |s| ==> !IsNameChar(s[e])
    ensures NameEnd(s, i) == e
    decreases e - i
  {
    if i < e { NameSpan(s, i + 1, e); }
  }

  lemma {:induction false} BlankSpan(s: string, i: nat, e: nat)
    requires i <= e < |s| && (forall k :: i <= k < e ==> IsBlank(s[k])) && !IsBlank(s[e])
    ensures BlankEnd(s, i) == e
    decreases e - i
  {
    if i < e { BlankSpan(s, i + 1, e); }
  }

  lemma {:induction false} CommentSpan(s: string, i: nat, e: nat)
    requires i <= e < |s| && (forall k :: i <= k < e ==> s[k] != '\n') && s[e] == '\n'
    ensures CommentEnd(s, i) == e
    decreases e - i
  {
    if i < e { CommentSpan(s, i + 1, e); }
  }

  lemma LexBlank(s: string, i: nat)
    requires i < |s| && (IsBlank(s[i]) || s[i] == '\U{FEFF}')
    ensures Lex(s, i) == Lex(s, i + 1)
  {
    assert FrontEnd(s, i) == i + 1 && FrontToken(s, i) == None;
  }

  lemma LexNewline(s: string, i: nat)
    requires i < |s| && s[i] == '\n'
    ensures Lex(s, i) == Lex(s, i + 1)
  {
    LexBlank(s, i);
  }

  lemma LexRemark(s: string, i: nat, m: nat)
    requires i < m <= |s| && s[i] == '#' && s[m - 1] == '\n' && CommentEnd(s, i) == m - 1
    ensures Lex(s, i) == Lex(s, m)
  {
    assert FrontEnd(s, i) == m - 1 && FrontToken(s, i) == None;
    LexNewline(s, m - 1);
  }

  /** Gaps produce no token. */
  lemma {:induction false} LexGap(s: string, i: nat, g: Gap, e: nat)
    requires GapOk(g) && At(s, i, GapText(g), e)
    ensures i <= e <= |s| && Lex(s, i) == Lex(s, e)
    decreases g
  {
    match g
    case Tight =>
    case Blank(c, more) =>
      SplitChar(s, i, c, GapText(more), e);
      LexBlank(s, i);
      LexGap(s, i + 1, more, e);
    case Remark(text, more) =>
      var m := RemarkSpan(s, i, g, e);
      LexRemark(s, i, m);
      LexGap(s, m, more, e);
  }

  lemma RemarkSpan(s: string, i: nat, g: Gap, e: nat) returns (m: nat)
    requires g.Remark? && GapOk(g) && At(s, i, GapText(g), e)
    ensures i < m <= |s| && s[i] == '#' && At(s, m, GapText(g.more), e)
    ensures s[m - 1] == '\n' && CommentEnd(s, i) == m - 1
  {
    SplitChar(s, i, '#', g.text + ("\n" + GapText(g.more)), e);
    var n := Split(s, i + 1, g.text, "\n" + GapText(g.more), e);
    Chars(s, i + 1, g.text, n);
    SplitChar(s, n, '\n', GapText(g.more), e);
    CommentSpan(s, i, n);
    m := n + 1;
  }

  /** What may stand behind a name and its gap: not a colon, and not a blank. */
  predicate Follows(s: string, i: nat) {
    i < |s| && s[i] != ':' && !IsBlank(s[i])
  }

  /** A gap hides no colon from the look-ahead behind a name. */
  lemma {:induction false} NoColonBehindGap(s: string, i: nat, g: Gap, e: nat)
    requires GapOk(g) && At(s, i, GapText(g), e) && Follows(s, e)
    ensures BlankEnd(s, i) < |s| && s[BlankEnd(s, i)] != ':'
    ensures !g.Tight? ==> !IsNameChar(s[i])
    decreases g
  {
    match g
    case Tight =>
    case Blank(c, more) =>
      SplitChar(s, i, c, GapText(more), e);
      NoColonBehindGap(s, i + 1, more, e);
    case Remark(text, more) =>
      SplitChar(s, i, '#', text + ("\n" + GapText(more)), e);
  }

  lemma LexWord(s: string, i: nat, word: string, m: nat, g: Gap, e: nat)
    requires IsName(word) && GapOk(g) && At(s, i, word, m) && At(s, m, GapText(g), e)
    requires Follows(s, e) && (g.Tight? ==> !IsNameChar(s[e]))
    ensures Lex(s, i) == Emit(Word(word), Lex(s, e))
  {
    Chars(s, i, word, m);
    NoColonBehindGap(s, m, g, e);
    NameSpan(s, i, m);
    LexGap(s, m, g, e);
  }

  lemma AliasSpan(s: string, i: nat, a: Alias, e: nat) returns (colon: nat)
    requires a.Alias? && AliasOk(a) && At(s, i, AliasText(a), e)
    ensures i < colon < |s| && IsNameStart(s[i]) && s[colon] == ':'
    ensures BlankEnd(s, NameEnd(s, i)) == colon && At(s, colon + 1, GapText(a.gap), e)
  {
    var m := Split(s, i, a.name, a.space + (":" + GapText(a.gap)), e);
    colon := Split(s, m, a.space, ":" + GapText(a.gap), e);
    SplitChar(s, colon, ':', GapText(a.gap), e);
    Chars(s, i, a.name, m);
    Chars(s, m, a.space, colon);
    BlankSpan(s, m, colon);
    NameSpan(s, i, m);
  }

  lemma LexAliasName(s: string, i: nat, colon: nat)
    requires i < colon < |s| && IsNameStart(s[i]) && BlankEnd(s, NameEnd(s, i)) == colon && s[colon] == ':'
    ensures Lex(s, i) == Lex(s, colon + 1)
  {
    assert IsAlias(s, i) && FrontEnd(s, i) == colon + 1 && FrontToken(s, i) == None;
  }

  /** Aliases produce no token either. */
  lemma LexAlias(s: string, i: nat, a: Alias, e: nat)
    requires AliasOk(a) && At(s, i, AliasText(a), e)
    ensures i <= e <= |s| && Lex(s, i) == Lex(s, e)
  {
    if a.Alias? {
      var colon := AliasSpan(s, i, a, e);
      LexAliasName(s, i, colon);
      LexGap(s, colon + 1, a.gap, e);
    }
  }

  // ---- argument lists ------------------------------------------------------------------

  lemma {:induction false} CharsSpan(s: string, i: nat, cs: Chars, e: nat)
    requires CharsOk(cs) && At(s, i, CharsText(cs), e) && e < |s| && s[e] == '"'
    ensures i <= e && StringBodyEnd(s, i) == e + 1
    ensures i < e ==> s[i] != '"'
    decreases cs
  {
    match cs
    case NoChars =>
    case Raw(c, more) =>
      SplitChar(s, i, c, CharsText(more), e);
      CharsSpan(s, i + 1, more, e);
    case Escape(c, more) =>
      var m := Split(s, i, ['\\', c], CharsText(more), e);
      Chars(s, i, ['\\', c], m);
      CharsSpan(s, i + 2, more, e);
  }

  lemma {:induction false} BlockSpan(s: string, i: nat, e: nat)
    requires i <= e && e + 3 <= |s| && TripleAt(s, e)
    requires forall k :: i <= k < e ==> !TripleAt(s, k)
    ensures BlockBodyEnd(s, i) == e + 3
    decreases e - i
  {
    if i < e { BlockSpan(s, i + 1, e); }
  }

  lemma QuotedSpan(s: string, i: nat, ps: Pieces, e: nat) returns (m: nat)
    requires ps.Quoted? && PiecesOk(ps) && At(s, i, PiecesText(ps), e)
    requires e < |s| && s[e] == ')'
    ensures i < |s| && s[i] == '"' && StringEnd(s, i) == m && At(s, m, PiecesText(ps.more), e)
  {
    var cs, rest := CharsText(ps.chars), PiecesText(ps.more);
    SplitChar(s, i, '"', cs + ("\"" + rest), e);
    var close := Split(s, i + 1, cs, "\"" + rest, e);
    SplitChar(s, close, '"', rest, e);
    m := close + 1;
    CharsSpan(s, i + 1, ps.chars, close);
    if ps.chars.NoChars? {
      QuoteNotNext(s, m, ps.more, e);
    }
  }

  /** The character behind an empty string is not a third quote. */
  lemma QuoteNotNext(s: string, i: nat, ps: Pieces, e: nat)
    requires PiecesOk(ps) && !ps.Quoted? && !ps.BlockQuoted? && At(s, i, PiecesText(ps), e)
    requires e < |s| && s[e] == ')'
    ensures i < |s| && s[i] != '"'
  {
    match ps
    case NoPieces =>
    case Plain(c, more) => SplitChar(s, i, c, PiecesText(more), e);
    case Group(inner, more) => SplitChar(s, i, '(', PiecesText(inner) + (")" + PiecesText(more)), e);
  }

  lemma BlockQuotedSpan(s: string, i: nat, ps: Pieces, e: nat) returns (m: nat)
    requires ps.BlockQuoted? && PiecesOk(ps) && At(s, i, PiecesText(ps), e)
    ensures i < |s| && s[i] == '"' && StringEnd(s, i) == m && At(s, m, PiecesText(ps.more), e)
  {
    var rest := PiecesText(ps.more);
    var t := ps.text + TRIPLE;
    var open := Split(s, i, TRIPLE, ps.text + (TRIPLE + rest), e);
    assert ps.text + (TRIPLE + rest) == t + rest;
    m := Split(s, open, t, rest, e);
    Chars(s, i, TRIPLE, open);
    TriplesOf(s, open, ps.text, m);
    BlockSpan(s, open, m - 3);
  }

  lemma TriplesOf(s: string, i: nat, text: string, e: nat)
    requires NoTripleInside(text) && At(s, i, text + TRIPLE, e)
    ensures i <= e - 3 && e <= |s| && TripleAt(s, e - 3)
    ensures forall k :: i <= k < e - 3 ==> !TripleAt(s, k)
  {
    var t := text + TRIPLE;
    Chars(s, i, t, e);
    forall k | i <= k < e - 3 ensures !TripleAt(s, k) {
      var o := k - i;
      assert !OccursAt(t, TRIPLE, o);
      assert t[o..o + 3] == [t[o], t[o + 1], t[o + 2]];
      assert s[k] == t[o] && s[k + 1] == t[o + 1] && s[k + 2] == t[o + 2];
    }
  }

  lemma GroupSpan(s: string, i: nat, ps: Pieces, e: nat) returns (close: nat)
    requires ps.Group? && At(s, i, PiecesText(ps), e)
    ensures i < close < |s| && s[i] == '(' && s[close] == ')'
    ensures At(s, i + 1, PiecesText(ps.inner), close) && At(s, close + 1, PiecesText(ps.more), e)
  {
    SplitChar(s, i, '(', PiecesText(ps.inner) + (")" + PiecesText(ps.more)), e);
    close := Split(s, i + 1, PiecesText(ps.inner), ")" + PiecesText(ps.more), e);
    SplitChar(s, close, ')', PiecesText(ps.more), e);
  }

  lemma ClosingStep(s: string, i: nat, depth: nat)
    requires i < |s| && depth >= 1
    ensures s[i] == '"' ==> ClosingParen(s, i, depth) == ClosingParen(s, StringEnd(s, i), depth)
    ensures s[i] == '(' ==> ClosingParen(s, i, depth) == ClosingParen(s, i + 1, depth + 1)
    ensures s[i] == ')' && depth > 1 ==> ClosingParen(s, i, depth) == ClosingParen(s, i + 1, depth - 1)
    ensures s[i] !in {'"', '(', ')'} ==> ClosingParen(s, i, depth) == ClosingParen(s, i + 1, depth)
  {
  }

  lemma ClosingGroup(s: string, i: nat, close: nat, depth: nat)
    requires i < close < |s| && s[i] == '(' && s[close] == ')' && depth >= 1
    requires ClosingParen(s, i + 1, depth + 1) == ClosingParen(s, close, depth + 1)
    ensures ClosingParen(s, i, depth) == ClosingParen(s, close + 1, depth)
  {
    ClosingStep(s, i, depth);
    ClosingStep(s, close, depth + 1);
  }

  lemma {:induction false} ClosingFirst(s: string, i: nat, ps: Pieces, depth: nat, e: nat) returns (m: nat)
    requires PiecesOk(ps) && !ps.NoPieces? && depth >= 1 && At(s, i, PiecesText(ps), e)
    requires e < |s| && s[e] == ')'
    ensures i <= m <= e && At(s, m, PiecesText(ps.more), e)
    ensures ClosingParen(s, i, depth) == ClosingParen(s, m, depth)
    decreases ps, 0
  {
    match ps
    case Plain(c, more) =>
      SplitChar(s, i, c, PiecesText(more), e);
      ClosingStep(s, i, depth);
      m := i + 1;
    case Quoted(chars, more) =>
      m := QuotedSpan(s, i, ps, e);
      ClosingStep(s, i, depth);
    case BlockQuoted(text, more) =>
      m := BlockQuotedSpan(s, i, ps, e);
      ClosingStep(s, i, depth);
    case Group(inner, more) =>
      var close := GroupSpan(s, i, ps, e);
      ClosingPieces(s, i + 1, inner, depth + 1, close);
      ClosingGroup(s, i, close, depth);
      m := close + 1;
  }

  /** Strings and balanced parentheses are passed over, at any depth. */
  lemma {:induction false} ClosingPieces(s: string, i: nat, ps: Pieces, depth: nat, e: nat)
    requires PiecesOk(ps) && depth >= 1 && At(s, i, PiecesText(ps), e)
    requires e < |s| && s[e] == ')'
    ensures i <= e && ClosingParen(s, i, depth) == ClosingParen(s, e, depth)
    decreases ps, 1
  {
    if !ps.NoPieces? {
      var m := ClosingFirst(s, i, ps, depth, e);
      ClosingPieces(s, m, ps.more, depth, e);
    }
  }

  // ---- grammatical lists are balanced text ------------------------------------------------

  function PlainPieces(s: string, k: Pieces): Pieces {
    if s == [] then k else Plain(s[0], PlainPieces(s[1..], k))
  }

  function ValuePieces(v: Value, k: Pieces): Pieces {
    match v
    case Str(chars) => Quoted(chars, k)
    case Block(text) => BlockQuoted(text, k)
    case List(lead, items) => Plain('[', PlainPieces(GapText(lead), ItemsPieces(items, Plain(']', k))))
    case Object(lead, members) => Plain('{', PlainPieces(GapText(lead), ArgumentsPieces(members, Plain('}', k))))
    case _ => PlainPieces(ValueText(v), k)
  }

  function ItemsPieces(items: Items, k: Pieces): Pieces {
    if items.NoItems? then k
    else ValuePieces(items.value, PlainPieces(GapText(items.after), ItemsPieces(items.more, k)))
  }

  function ArgumentsPieces(l: Arguments, k: Pieces): Pieces {
    if l.NoArguments? then k
    else
      PlainPieces(l.name, PlainPieces(GapText(l.space), Plain(':', PlainPieces(GapText(l.lead),
        ValuePieces(l.value, PlainPieces(GapText(l.after), ArgumentsPieces(l.more, k)))))))
  }

  predicate Quotes(ps: Pieces) { ps.Quoted? || ps.BlockQuoted? }

  lemma {:induction false} PlainPiecesOk(s: string, k: Pieces)
    requires IsPlain(s) && PiecesOk(k)
    ensures PiecesOk(PlainPieces(s, k)) && PiecesText(PlainPieces(s, k)) == s + PiecesText(k)
    ensures s != [] ==> !Quotes(PlainPieces(s, k))
  {
    if s != [] {
      PlainPiecesOk(s[1..], k);
      assert [s[0]] + (s[1..] + PiecesText(k)) == s + PiecesText(k);
    } else {
      assert s + PiecesText(k) == PiecesText(k);
    }
  }

  lemma SmallValuePlain(v: Value)
    requires ValueOk(v) && Runs(v)
    ensures IsPlain(ValueText(v)) && ValueText(v) != []
  {
    match v
    case Var(space, name) =>
      forall k | 0 <= k < |ValueText(v)| ensures ValueText(v)[k] !in {'"', '(', ')'} {
        var g := |GapText(space)|;
        if 0 < k <= g { assert ValueText(v)[k] == GapText(space)[k - 1]; }
        if k > g { assert ValueText(v)[k] == name[k - 1 - g]; }
      }
    case Int(_, n) =>
      assert AllDigits(Numeral(n));
    case Bare(_) =>
  }

  /** Concatenation is associative; one lemma per shape used below. */
  lemma Regroup3(a: string, b: string, c: string, tail: string)
    ensures a + (b + (c + tail)) == (a + (b + c)) + tail
  {
  }

  lemma Regroup4(a: string, b: string, c: string, d: string, tail: string)
    ensures a + (b + (c + (d + tail))) == (a + (b + (c + d))) + tail
  {
  }

  lemma {:induction false} ListPiecesOk(v: Value, k: Pieces)
    requires v.List? && ValueOk(v) && PiecesOk(k)
    ensures PiecesOk(ValuePieces(v, k)) && PiecesText(ValuePieces(v, k)) == ValueText(v) + PiecesText(k)
    decreases v, 0
  {
    var close := Plain(']', k);
    ItemsPiecesOk(v.items, close);
    PlainPiecesOk(GapText(v.lead), ItemsPieces(v.items, close));
    Regroup4("[", GapText(v.lead), ItemsText(v.items), "]", PiecesText(k));
  }

  lemma {:induction false} ObjectPiecesOk(v: Value, k: Pieces)
    requires v.Object? && ValueOk(v) && PiecesOk(k)
    ensures PiecesOk(ValuePieces(v, k)) && PiecesText(ValuePieces(v, k)) == ValueText(v) + PiecesText(k)
    decreases v, 0
  {
    var close := Plain('}', k);
    ArgumentsPiecesOk(v.members, close);
    PlainPiecesOk(GapText(v.lead), ArgumentsPieces(v.members, close));
    Regroup4("{", GapText(v.lead), ArgumentsText(v.members), "}", PiecesText(k));
  }

  lemma {:induction false} ValuePiecesOk(v: Value, k: Pieces)
    requires ValueOk(v) && PiecesOk(k) && (v == Str(NoChars) ==> !Quotes(k))
    ensures PiecesOk(ValuePieces(v, k)) && PiecesText(ValuePieces(v, k)) == ValueText(v) + PiecesText(k)
    ensures !v.Str? && !v.Block? ==> !Quotes(ValuePieces(v, k))
    decreases v, 1
  {
    match v
    case Str(chars) => Regroup3("\"", CharsText(chars), "\"", PiecesText(k));
    case Block(text) => Regroup3(TRIPLE, text, TRIPLE, PiecesText(k));
    case List(_, _) => ListPiecesOk(v, k);
    case Object(_, _) => ObjectPiecesOk(v, k);
    case _ =>
      SmallValuePlain(v);
      PlainPiecesOk(ValueText(v), k);
  }

  lemma {:induction false} ItemsPiecesOk(items: Items, k: Pieces)
    requires ItemsOk(items) && PiecesOk(k) && !Quotes(k)
    ensures PiecesOk(ItemsPieces(items, k)) && PiecesText(ItemsPieces(items, k)) == ItemsText(items) + PiecesText(k)
    ensures items.Item? && !items.value.Str? && !items.value.Block? ==> !Quotes(ItemsPieces(items, k))
    decreases items, 0
  {
    if items.Item? {
      var more := ItemsPieces(items.more, k);
      ItemsPiecesOk(items.more, k);
      PlainPiecesOk(GapText(items.after), more);
      GapNonEmpty(items.after);
      ValuePiecesOk(items.value, PlainPieces(GapText(items.after), more));
      Regroup3(ValueText(items.value), GapText(items.after), ItemsText(items.more), PiecesText(k));
    } else {
      assert ItemsText(items) + PiecesText(k) == PiecesText(k);
    }
  }

  lemma GapNonEmpty(g: Gap)
    ensures GapText(g) == "" <==> g.Tight?
  {
    if g.Remark? { assert GapText(g)[0] == '#'; }
    if g.Blank? { assert GapText(g)[0] == g.c; }
  }

  lemma ArgumentTextConcat(l: Arguments, tail: string)
    requires l.Argument?
    ensures l.name + (GapText(l.space) + ([':'] + (GapText(l.lead) + (ValueText(l.value)
              + (GapText(l.after) + (ArgumentsText(l.more) + tail))))))
            == ArgumentsText(l) + tail
  {
  }

  lemma {:induction false} ArgumentsPiecesOk(l: Arguments, k: Pieces)
    requires ArgumentsOk(l) && PiecesOk(k) && !Quotes(k)
    ensures PiecesOk(ArgumentsPieces(l, k)) && PiecesText(ArgumentsPieces(l, k)) == ArgumentsText(l) + PiecesText(k)
    ensures !Quotes(ArgumentsPieces(l, k))
    decreases l, 0
  {
    if l.Argument? {
      var more := ArgumentsPieces(l.more, k);
      ArgumentsPiecesOk(l.more, k);
      PlainPiecesOk(GapText(l.after), more);
      var behind := PlainPieces(GapText(l.after), more);
      assert !Quotes(behind);
      ValuePiecesOk(l.value, behind);
      var value := ValuePieces(l.value, behind);
      PlainPiecesOk(GapText(l.lead), value);
      var colon := Plain(':', PlainPieces(GapText(l.lead), value));
      PlainPiecesOk(GapText(l.space), colon);
      PlainPiecesOk(l.name, PlainPieces(GapText(l.space), colon));
      ArgumentTextConcat(l, PiecesText(k));
    } else {
      assert ArgumentsText(l) + PiecesText(k) == PiecesText(k);
    }
  }

  /** The balanced text between the parentheses. */
  function PiecesOf(a: Args): Pieces
    requires !a.NoArgs?
  {
    if a.Balanced? then a.pieces else PlainPieces(GapText(a.lead), ArgumentsPieces(a.list, NoPieces))
  }

  lemma InsideIsBalanced(a: Args)
    requires ArgsOk(a) && !a.NoArgs?
    ensures PiecesOk(PiecesOf(a)) && PiecesText(PiecesOf(a)) == InsideText(a)
  {
    if a.Listed? {
      ArgumentsPiecesOk(a.list, NoPieces);
      PlainPiecesOk(GapText(a.lead), ArgumentsPieces(a.list, NoPieces));
      assert ArgumentsText(a.list) + "" == ArgumentsText(a.list);
    }
  }

  function ArgsTokens(a: Args, k: Tokens): Tokens {
    if a.NoArgs? then k else Emit(Arguments(InsideText(a)), k)
  }

  lemma ArgsSpan(s: string, i: nat, a: Args, e: nat) returns (close: nat)
    requires ArgsOk(a) && !a.NoArgs? && At(s, i, ArgsText(a), e)
    ensures i < close < |s| && s[i] == '(' && ArgumentsEnd(s, i) == close
    ensures s[i + 1..close] == InsideText(a) && At(s, close + 1, GapText(a.gap), e)
  {
    var inside := InsideText(a);
    InsideIsBalanced(a);
    SplitChar(s, i, '(', inside + (")" + GapText(a.gap)), e);
    close := Split(s, i + 1, inside, ")" + GapText(a.gap), e);
    SplitChar(s, close, ')', GapText(a.gap), e);
    ClosingPieces(s, i + 1, PiecesOf(a), 1, close);
  }

  lemma LexList(s: string, i: nat, close: nat)
    requires i < close < |s| && s[i] == '(' && ArgumentsEnd(s, i) == close
    ensures Lex(s, i) == Emit(Arguments(s[i + 1..close]), Lex(s, close + 1))
  {
    assert FrontEnd(s, i) == close + 1 && FrontToken(s, i) == Some(Arguments(s[i + 1..close]));
  }

  lemma LexSomeArgs(s: string, i: nat, a: Args, e: nat)
    requires ArgsOk(a) && !a.NoArgs? && At(s, i, ArgsText(a), e)
    ensures i < e <= |s| && s[i] == '(' && Lex(s, i) == Emit(Arguments(InsideText(a)), Lex(s, e))
  {
    var close := ArgsSpan(s, i, a, e);
    LexList(s, i, close);
    LexGap(s, close + 1, a.gap, e);
  }

  lemma LexArgs(s: string, i: nat, a: Args, e: nat)
    requires ArgsOk(a) && At(s, i, ArgsText(a), e)
    ensures i <= e <= |s| && Lex(s, i) == ArgsTokens(a, Lex(s, e))
    ensures if a.NoArgs? then i == e else i < e && s[i] == '('
  {
    if !a.NoArgs? { LexSomeArgs(s, i, a, e); }
  }

  // ---- selection sets ------------------------------------------------------------------

  function FieldTokens(f: Field, k: Tokens): Tokens {
    Emit(Word(f.name), ArgsTokens(f.args, BodyTokens(f.body, k)))
  }

  function BodyTokens(b: Body, k: Tokens): Tokens {
    if b.Leaf? then k else Emit(OpenBrace, FieldsTokens(b.fields, Emit(CloseBrace, k)))
  }

  function FieldsTokens(fs: Fields, k: Tokens): Tokens {
    if fs.NoFields? then k else FieldTokens(fs.first, FieldsTokens(fs.rest, k))
  }

  lemma FieldFront(s: string, i: nat, f: Field, e: nat)
    requires FieldOk(f) && At(s, i, FieldText(f), e)
    ensures i < |s| && IsNameStart(s[i])
  {
    var tail := f.name + (GapText(f.gap) + (ArgsText(f.args) + BodyText(f.body)));
    var m := Split(s, i, AliasText(f.alias), tail, e);
    if f.alias.Alias? {
      var k := Split(s, i, f.alias.name, f.alias.space + (":" + GapText(f.alias.gap)), m);
      Chars(s, i, f.alias.name, k);
    } else {
      var k := Split(s, i, f.name, GapText(f.gap) + (ArgsText(f.args) + BodyText(f.body)), e);
      Chars(s, i, f.name, k);
    }
  }

  /** What stands behind a selection: the next one, or the closing brace. */
  predicate Ends(s: string, i: nat) {
    i < |s| && (IsNameStart(s[i]) || s[i] == '}')
  }

  lemma FieldSplit(s: string, i: nat, f: Field, e: nat) returns (a: nat, b: nat, c: nat, d: nat)
    requires At(s, i, FieldText(f), e)
    ensures At(s, i, AliasText(f.alias), a) && At(s, a, f.name, b) && At(s, b, GapText(f.gap), c)
    ensures At(s, c, ArgsText(f.args), d) && At(s, d, BodyText(f.body), e)
  {
    var tail := ArgsText(f.args) + BodyText(f.body);
    a := Split(s, i, AliasText(f.alias), f.name + (GapText(f.gap) + tail), e);
    b := Split(s, a, f.name, GapText(f.gap) + tail, e);
    c := Split(s, b, GapText(f.gap), tail, e);
    d := Split(s, c, ArgsText(f.args), BodyText(f.body), e);
  }

  /** What stands behind a field's name is no blank, no colon, and no part of the name. */
  lemma BehindName(s: string, c: nat, d: nat, f: Field, e: nat)
    requires c <= d <= e && Ends(s, e) && (EndsInName(f) ==> s[e] == '}')
    requires if f.args.NoArgs? then c == d else s[c] == '('
    requires if f.body.Leaf? then d == e else s[d] == '{'
    ensures Follows(s, c) && (f.gap.Tight? ==> !IsNameChar(s[c]))
  {
  }

  lemma {:induction false} LexField(s: string, i: nat, f: Field, e: nat)
    requires FieldOk(f) && At(s, i, FieldText(f), e) && Ends(s, e)
    requires EndsInName(f) ==> s[e] == '}'
    ensures i <= e && Lex(s, i) == FieldTokens(f, Lex(s, e))
    decreases f, 1
  {
    var a, b, c, d := FieldSplit(s, i, f, e);
    LexAlias(s, i, f.alias, a);
    LexArgs(s, c, f.args, d);
    LexBody(s, d, f.body, e);
    BehindName(s, c, d, f, e);
    LexWord(s, a, f.name, b, f.gap, c);
  }

  lemma BodySplit(s: string, i: nat, b: Body, e: nat) returns (open: nat, close: nat)
    requires b.Body? && At(s, i, BodyText(b), e)
    ensures i < open <= close < e <= |s| && s[i] == '{' && s[close] == '}' && At(s, i + 1, GapText(b.gap), open)
    ensures At(s, open, FieldsText(b.fields), close) && At(s, close + 1, GapText(b.after), e)
  {
    var tail := "}" + GapText(b.after);
    SplitChar(s, i, '{', GapText(b.gap) + (FieldsText(b.fields) + tail), e);
    open := Split(s, i + 1, GapText(b.gap), FieldsText(b.fields) + tail, e);
    close := Split(s, open, FieldsText(b.fields), tail, e);
    SplitChar(s, close, '}', GapText(b.after), e);
  }

  lemma LexOpening(s: string, i: nat)
    requires i < |s| && s[i] == '{'
    ensures Lex(s, i) == Emit(OpenBrace, Lex(s, i + 1))
  {
    assert FrontEnd(s, i) == i + 1 && FrontToken(s, i) == Some(OpenBrace);
  }

  lemma LexClosing(s: string, i: nat)
    requires i < |s| && s[i] == '}'
    ensures Lex(s, i) == Emit(CloseBrace, Lex(s, i + 1))
  {
    assert FrontEnd(s, i) == i + 1 && FrontToken(s, i) == Some(CloseBrace);
  }

  lemma BodyFrom(b: Body, k: Tokens, all: Tokens, fields: Tokens, close: Tokens)
    requires b.Body? && all == Emit(OpenBrace, fields) && fields == FieldsTokens(b.fields, close) && close == Emit(CloseBrace, k)
    ensures all == BodyTokens(b, k)
  {
  }

  lemma {:induction false} LexBody(s: string, i: nat, b: Body, e: nat)
    requires BodyOk(b) && At(s, i, BodyText(b), e)
    ensures i <= e <= |s| && Lex(s, i) == BodyTokens(b, Lex(s, e))
    ensures if b.Leaf? then i == e else i < e && s[i] == '{'
    decreases b, 0
  {
    if b.Body? {
      var open, close := BodySplit(s, i, b, e);
      LexGap(s, i + 1, b.gap, open);
      LexFields(s, open, b.fields, close);
      LexGap(s, close + 1, b.after, e);
      LexOpening(s, i);
      LexClosing(s, close);
      BodyFrom(b, Lex(s, e), Lex(s, i), Lex(s, open), Lex(s, close));
    }
  }

  lemma {:induction false} LexFields(s: string, i: nat, fs: Fields, e: nat)
    requires FieldsOk(fs) && At(s, i, FieldsText(fs), e) && e < |s| && s[e] == '}'
    ensures i <= e && Lex(s, i) == FieldsTokens(fs, Lex(s, e))
    decreases fs, 0
  {
    if fs.Then? {
      var m := Split(s, i, FieldText(fs.first), FieldsText(fs.rest), e);
      if fs.rest.Then? {
        var k := Split(s, m, FieldText(fs.rest.first), FieldsText(fs.rest.rest), e);
        FieldFront(s, m, fs.rest.first, k);
      }
      LexField(s, i, fs.first, m);
      LexFields(s, m, fs.rest, e);
    }
  }

  // ---- operations and documents --------------------------------------------------------

  function HeaderTokens(h: Header, k: Tokens): Tokens {
    match h
    case Shorthand => k
    case Keyword(word, _) => Emit(Word(word), k)
    case Titled(word, _, title, _) => Emit(Word(word), Emit(Word(title), k))
  }

  function OperationTokens(o: Operation, k: Tokens): Tokens {
    HeaderTokens(o.header, ArgsTokens(o.variables, BodyTokens(Body(o.gap, o.fields, o.after), k)))
  }

  /** The tokens of a document. Gaps, comments, aliases and the insides of strings leave no trace. */
  function DocumentTokens(d: Document): Tokens {
    if d.NoOperations? then Finished else OperationTokens(d.first, DocumentTokens(d.rest))
  }

  lemma KeywordIsName(word: string)
    requires word in {"query", "mutation", "subscription"}
    ensures IsName(word) && IsReservedWord(word)
  {
  }

  lemma LexTitle(s: string, i: nat, h: Header, e: nat)
    requires HeaderOk(h) && h.Titled? && At(s, i, HeaderText(h), e) && e < |s| && s[e] in {'(', '{'}
    ensures i <= e && Lex(s, i) == Emit(Word(h.word), Emit(Word(h.title), Lex(s, e)))
  {
    var a := Split(s, i, h.word, GapText(h.gap) + (h.title + GapText(h.titleGap)), e);
    var b := Split(s, a, GapText(h.gap), h.title + GapText(h.titleGap), e);
    var c := Split(s, b, h.title, GapText(h.titleGap), e);
    Chars(s, b, h.title, c);
    assert IsNameStart(s[b]) && Follows(s, b);
    LexWord(s, b, h.title, c, h.titleGap, e);
    KeywordIsName(h.word);
    LexWord(s, i, h.word, a, h.gap, b);
  }

  lemma LexHeader(s: string, i: nat, h: Header, e: nat)
    requires HeaderOk(h) && At(s, i, HeaderText(h), e) && e < |s| && s[e] in {'(', '{'}
    ensures i <= e && Lex(s, i) == HeaderTokens(h, Lex(s, e))
  {
    match h
    case Shorthand =>
    case Keyword(word, gap) =>
      var m := Split(s, i, word, GapText(gap), e);
      KeywordIsName(word);
      LexWord(s, i, word, m, gap, e);
    case Titled(_, _, _, _) =>
      LexTitle(s, i, h, e);
  }

  lemma LexOperation(s: string, i: nat, o: Operation, e: nat)
    requires OperationOk(o) && At(s, i, OperationText(o), e)
    ensures i <= e <= |s| && Lex(s, i) == OperationTokens(o, Lex(s, e))
  {
    var body := Body(o.gap, o.fields, o.after);
    var a := Split(s, i, HeaderText(o.header), ArgsText(o.variables) + BodyText(body), e);
    var b := Split(s, a, ArgsText(o.variables), BodyText(body), e);
    LexBody(s, b, body, e);
    LexArgs(s, a, o.variables, b);
    LexHeader(s, i, o.header, a);
  }

  lemma {:induction false} LexOperations(s: string, i: nat, d: Document)
    requires DocumentOk(d) && At(s, i, DocumentText(d), |s|)
    ensures i <= |s| && Lex(s, i) == DocumentTokens(d)
    decreases d
  {
    if d.Next? {
      var m := Split(s, i, OperationText(d.first), DocumentText(d.rest), |s|);
      LexOperation(s, i, d.first, m);
      LexOperations(s, m, d.rest);
    }
  }

  /** Every printed form of a document lexes to the tokens of its tree. */
  lemma PrintedFormsLexAlike(lead: Gap, d: Document)
    requires GapOk(lead) && DocumentOk(d)
    ensures Lex(GapText(lead) + DocumentText(d), 0) == DocumentTokens(d)
  {
    var s := GapText(lead) + DocumentText(d);
    var m := Split(s, 0, GapText(lead), DocumentText(d), |s|);
    LexGap(s, 0, lead, m);
    LexOperations(s, m, d);
  }
}
