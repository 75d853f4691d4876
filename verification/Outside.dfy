/** GraphQL that the trees of Syntax.dfy leave out, and what the scanner makes of it: fields named
    like a keyword, inline fragments, and comments that end in a carriage return. */
module Outside {
  import opened Text
  import opened Scanner
  import opened Syntax
  import opened Meaning
  import opened Lexing
  import opened Refinement

  /** A dot is passed over. */
  lemma LexDot(s: string, i: nat)
    requires i < |s| && s[i] == '.'
    ensures Lex(s, i) == Lex(s, i + 1)
  {
    assert FrontEnd(s, i) == i + 1 && FrontToken(s, i) == None;
  }

  /** A selection set around `inner`, from position i to the closing brace that ends the text. */
  function SetText(inner: Fields): string { "{" + (FieldsText(inner) + "}") }

  lemma SetIsBody(inner: Fields)
    ensures BodyText(Body(Tight, inner, Tight)) == SetText(inner)
  {
    assert GapText(Tight) == "" && "}" + "" == "}";
    assert "" + (FieldsText(inner) + "}") == FieldsText(inner) + "}";
  }

  lemma LexSet(s: string, i: nat, inner: Fields)
    requires FieldsOk(inner) && i < |s| && s[|s| - 1] == '}' && At(s, i, SetText(inner), |s| - 1)
    ensures Lex(s, i) == BodyTokens(Body(Tight, inner, Tight), Emit(CloseBrace, Finished))
    ensures s[i] == '{'
  {
    SetIsBody(inner);
    LexBody(s, i, Body(Tight, inner, Tight), |s| - 1);
    LexClosing(s, |s| - 1);
    assert Lex(s, |s|) == Finished;
  }

  /** What a scan reports for one set inside another, with a token in front. */
  lemma RunSet(inner: Fields, st: State, maxPage: nat)
    requires FieldsOk(inner) && maxPage >= 1
    requires st.Valid() && st.depth == 1 && st.peak >= 1 && st.pending == 1 && st.multipliers == [1, 1]
    ensures var r := Run(BodyTokens(Body(Tight, inner, Tight), Emit(CloseBrace, Finished)), st, maxPage);
            && r.Some? && r.value.fields == st.fields + Count(inner)
            && r.value.cost == st.cost + Charge(inner, 1, 1, maxPage)
            && r.value.introspection == (st.introspection || Introspects(inner))
  {
    var body := Body(Tight, inner, Tight);
    RunBody(body, Emit(CloseBrace, Finished), st, maxPage);
    assert st.Top() * st.pending == 1;
  }

  lemma RunToken(t: Token, k: Tokens, st: State, maxPage: nat)
    requires st.Valid() && maxPage >= 1
    ensures Run(Emit(t, k), st, maxPage) == Run(k, Apply(t, st, maxPage), maxPage)
  {
  }

  lemma AfterBrace()
    ensures INITIAL.Open() == State(1, [1, 1], 1, 1, 0, 0, false)
  {
    assert INITIAL.Top() * INITIAL.pending == 1;
    assert INITIAL.multipliers + [1] == [1, 1];
  }

  // ---- fields named like a keyword --------------------------------------------------------

  function KeywordField(word: string, inner: Fields): string { "{" + (word + (SetText(inner) + "}")) }

  lemma EveryKeyword(word: string)
    requires word in {"query", "mutation", "subscription", "fragment", "on", "true", "false", "null"}
    ensures IsName(word) && IsReservedWord(word)
  {
  }

  lemma KeywordParts(s: string, word: string, inner: Fields) returns (m: nat)
    requires s == KeywordField(word, inner)
    ensures 1 <= m < |s| && s[0] == '{' && s[|s| - 1] == '}' && At(s, 1, word, m) && At(s, m, SetText(inner), |s| - 1)
    ensures s[m] == '{'
  {
    var tail := SetText(inner) + "}";
    SplitChar(s, 0, '{', word + tail, |s|);
    m := Split(s, 1, word, tail, |s|);
    var close := Split(s, m, SetText(inner), "}", |s|);
    SplitChar(s, close, '}', "", |s|);
    SplitChar(s, m, '{', FieldsText(inner) + "}", close);
  }

  lemma KeywordTokens(s: string, word: string, inner: Fields)
    requires s == KeywordField(word, inner) && IsName(word) && FieldsOk(inner)
    ensures Lex(s, 0)
            == Emit(OpenBrace, Emit(Word(word), BodyTokens(Body(Tight, inner, Tight), Emit(CloseBrace, Finished))))
  {
    var m := KeywordParts(s, word, inner);
    LexOpening(s, 0);
    LexWord(s, 1, word, m, Tight, m);
    LexSet(s, m, inner);
  }

  /** A field named like a keyword is neither counted nor charged; what it selects is. */
  lemma KeywordFieldsAreFree(word: string, inner: Fields, maxPage: nat)
    requires word in {"query", "mutation", "subscription", "fragment", "on", "true", "false", "null"}
    requires FieldsOk(inner) && maxPage >= 1
    ensures var r := Scan(KeywordField(word, inner), maxPage);
            && r.Some? && r.value.fields == Count(inner) && r.value.cost == Charge(inner, 1, 1, maxPage)
  {
    var k := BodyTokens(Body(Tight, inner, Tight), Emit(CloseBrace, Finished));
    EveryKeyword(word);
    KeywordTokens(KeywordField(word, inner), word, inner);
    AfterBrace();
    RunToken(OpenBrace, Emit(Word(word), k), INITIAL, maxPage);
    RunToken(Word(word), k, INITIAL.Open(), maxPage);
    RunSet(inner, INITIAL.Open(), maxPage);
  }

  // ---- inline fragments ---------------------------------------------------------------------

  /** `{...on T{` and the selections of the fragment. */
  function InlineFragment(condition: string, inner: Fields): string { "{..." + OnType(condition, inner) }

  function OnType(condition: string, inner: Fields): string { "on" + (" " + (condition + (SetText(inner) + "}"))) }

  lemma ConditionParts(s: string, i: nat, condition: string, inner: Fields) returns (d: nat)
    requires At(s, i, OnType(condition, inner), |s|)
    ensures i + 3 <= d < |s| && At(s, i, "on", i + 2) && At(s, i + 2, " ", i + 3) && At(s, i + 3, condition, d)
    ensures s[|s| - 1] == '}' && At(s, d, SetText(inner), |s| - 1) && s[d] == '{'
  {
    var tail := SetText(inner) + "}";
    var b := Split(s, i, "on", " " + (condition + tail), |s|);
    var c := Split(s, b, " ", condition + tail, |s|);
    d := Split(s, c, condition, tail, |s|);
    var close := Split(s, d, SetText(inner), "}", |s|);
    SplitChar(s, close, '}', "", |s|);
    SplitChar(s, d, '{', FieldsText(inner) + "}", close);
  }

  lemma OnTokens(s: string, i: nat, condition: string, inner: Fields)
    requires At(s, i, OnType(condition, inner), |s|) && IsName(condition) && FieldsOk(inner)
    ensures Lex(s, i)
            == Emit(Word("on"), Emit(Word(condition), BodyTokens(Body(Tight, inner, Tight), Emit(CloseBrace, Finished))))
  {
    var d := ConditionParts(s, i, condition, inner);
    Lexing.Chars(s, i + 3, condition, d);
    EveryKeyword("on");
    assert GapText(Blank(' ', Tight)) == " ";
    LexSet(s, d, inner);
    LexWord(s, i + 3, condition, d, Tight, d);
    LexWord(s, i, "on", i + 2, Blank(' ', Tight), i + 3);
  }

  lemma FragmentTokens(s: string, condition: string, inner: Fields)
    requires s == InlineFragment(condition, inner) && IsName(condition) && FieldsOk(inner)
    ensures Lex(s, 0)
            == Emit(OpenBrace, Emit(Word("on"), Emit(Word(condition),
                 BodyTokens(Body(Tight, inner, Tight), Emit(CloseBrace, Finished)))))
  {
    var a := Split(s, 0, "{...", OnType(condition, inner), |s|);
    Lexing.Chars(s, 0, "{...", a);
    OnTokens(s, 4, condition, inner);
    LexOpening(s, 0);
    LexDot(s, 1);
    LexDot(s, 2);
    LexDot(s, 3);
  }

  /** The type condition of an inline fragment is counted and charged like a field. */
  lemma InlineFragmentsAreCharged(condition: string, inner: Fields, maxPage: nat)
    requires IsName(condition) && !IsKeyword(condition) && FieldsOk(inner) && maxPage >= 1
    ensures var r := Scan(InlineFragment(condition, inner), maxPage);
            && r.Some? && r.value.fields == 1 + Count(inner) && r.value.cost == 1 + Charge(inner, 1, 1, maxPage)
  {
    var k := BodyTokens(Body(Tight, inner, Tight), Emit(CloseBrace, Finished));
    var open := INITIAL.Open();
    EveryKeyword("on");
    FragmentTokens(InlineFragment(condition, inner), condition, inner);
    AfterBrace();
    RunToken(OpenBrace, Emit(Word("on"), Emit(Word(condition), k)), INITIAL, maxPage);
    RunToken(Word("on"), Emit(Word(condition), k), open, maxPage);
    RunToken(Word(condition), k, open, maxPage);
    RunSet(inner, open.Select(condition), maxPage);
  }

  // ---- comments ------------------------------------------------------------------------------

  /** `{name#`, and a rest without a line feed. */
  function Hiding(name: string, rest: string): string { "{" + (name + ("#" + rest)) }

  lemma {:induction false} CommentToEnd(s: string, i: nat)
    requires i <= |s| && forall k :: i <= k < |s| ==> s[k] != '\n'
    ensures CommentEnd(s, i) == |s|
    decreases |s| - i
  {
    if i < |s| { CommentToEnd(s, i + 1); }
  }

  lemma HidingParts(s: string, name: string, rest: string) returns (m: nat)
    requires s == Hiding(name, rest)
    ensures 1 <= m < |s| && s[0] == '{' && s[m] == '#' && At(s, 1, name, m)
    ensures '\n' !in rest ==> forall k :: m <= k < |s| ==> s[k] != '\n'
  {
    SplitChar(s, 0, '{', name + ("#" + rest), |s|);
    m := Split(s, 1, name, "#" + rest, |s|);
    SplitChar(s, m, '#', rest, |s|);
    Lexing.Chars(s, m + 1, rest, |s|);
  }

  lemma LexLastComment(s: string, m: nat)
    requires m < |s| && s[m] == '#' && forall k :: m <= k < |s| ==> s[k] != '\n'
    ensures Lex(s, m) == Finished
  {
    CommentToEnd(s, m);
    assert FrontEnd(s, m) == |s| && FrontToken(s, m) == None;
  }

  lemma HidingTokens(s: string, name: string, rest: string)
    requires s == Hiding(name, rest) && IsName(name) && '\n' !in rest
    ensures Lex(s, 0) == Emit(OpenBrace, Emit(Word(name), Finished))
  {
    var m := HidingParts(s, name, rest);
    LexLastComment(s, m);
    LexWord(s, 1, name, m, Tight, m);
    LexOpening(s, 0);
  }

  /** A carriage return does not end a comment for the scanner, as it does by the grammar: what
      follows it is not counted. */
  lemma CarriageReturnHides(name: string, rest: string, maxPage: nat)
    requires IsName(name) && !IsKeyword(name) && '\n' !in rest && maxPage >= 1
    ensures var r := Scan(Hiding(name, rest), maxPage); r.Some? && r.value.fields == 1 && r.value.cost == 1
  {
    HidingTokens(Hiding(name, rest), name, rest);
    AfterBrace();
    RunToken(OpenBrace, Emit(Word(name), Finished), INITIAL, maxPage);
    RunToken(Word(name), Finished, INITIAL.Open(), maxPage);
  }
}
