/** On which texts the scanner panics (graph/complexity.go:81-85), said by a reading of the text
    one character at a time that knows nothing of the scanner's tokens. */
module Panics {
  import opened Text
  import opened Scanner
  import opened Analyzer

  /** What a character stands in: open text inside `depth` parentheses, a comment, a quoted or a
      block string, or the remaining quotes of a string's fence. */
  datatype Mode =
    | Open(depth: nat)
    | Remark
    | Quote(depth: nat, escaped: bool)
    | Block(depth: nat)
    | Fence(depth: nat, left: nat, opening: bool)

  function Step(s: string, i: nat, m: Mode): Mode
    requires i < |s|
  {
    match m
    case Open(d) =>
      if s[i] == '#' && d == 0 then Remark
      else if TripleAt(s, i) then Fence(d, 2, true)
      else if s[i] == '"' then Quote(d, false)
      else if s[i] == '(' then Open(d + 1)
      else if s[i] == ')' && d > 0 then Open(d - 1)
      else m
    case Remark => if s[i] == '\n' then Open(0) else m
    case Quote(d, escaped) =>
      if escaped then Quote(d, false)
      else if s[i] == '\\' then Quote(d, true)
      else if s[i] == '"' then Open(d)
      else m
    case Block(d) => if TripleAt(s, i) then Fence(d, 2, false) else m
    case Fence(d, left, opening) =>
      if left > 1 then Fence(d, left - 1, opening) else if opening then Block(d) else Open(d)
  }

  /** The mode of position k when position i has mode m. */
  function Reach(s: string, i: nat, m: Mode, k: nat): Mode
    requires i <= k <= |s|
    decreases k - i
  {
    if i == k then m else Reach(s, i + 1, Step(s, i, m), k)
  }

  /** The text ends in an opening parenthesis, at position |s| - 1. */
  predicate Ends(s: string) { s != [] && s[|s| - 1] == '(' }

  function Last(s: string, i: nat, m: Mode): Mode
    requires Ends(s) && i < |s|
  {
    Reach(s, i, m, |s| - 1)
  }

  lemma Advance(s: string, i: nat, m: Mode)
    requires Ends(s) && i + 1 < |s|
    ensures Last(s, i, m) == Last(s, i + 1, Step(s, i, m))
  {
  }

  // ---- what the scanner passes over at once ----------------------------------------------

  lemma {:induction false} PlainMode(s: string, i: nat, e: nat)
    requires Ends(s) && i <= e < |s| && forall k :: i <= k < e ==> s[k] !in {'#', '"', '('}
    ensures Last(s, i, Open(0)) == Last(s, e, Open(0))
    decreases e - i
  {
    if i < e { PlainMode(s, i + 1, e); }
  }

  lemma {:induction false} NameChars(s: string, i: nat)
    requires i <= |s|
    ensures forall k :: i <= k < NameEnd(s, i) ==> IsNameChar(s[k])
    decreases |s| - i
  {
    if i < |s| && IsNameChar(s[i]) { NameChars(s, i + 1); }
  }

  lemma {:induction false} BlankChars(s: string, i: nat)
    requires i <= |s|
    ensures forall k :: i <= k < BlankEnd(s, i) ==> IsBlank(s[k])
    decreases |s| - i
  {
    if i < |s| && IsBlank(s[i]) { BlankChars(s, i + 1); }
  }

  lemma NameMode(s: string, i: nat)
    requires Ends(s) && i < |s| && IsNameStart(s[i])
    ensures FrontEnd(s, i) < |s| && Last(s, i, Open(0)) == Last(s, FrontEnd(s, i), Open(0))
  {
    var name := NameEnd(s, i);
    NameChars(s, i);
    BlankChars(s, name);
    PlainMode(s, i, FrontEnd(s, i));
  }

  /** A comment ends before its newline, or swallows the rest of the text. */
  lemma {:induction false} CommentMode(s: string, i: nat)
    requires Ends(s) && i < |s|
    ensures var e := CommentEnd(s, i);
            if e < |s| then Last(s, i, Remark) == Last(s, e, Open(0)) else Last(s, i, Remark) == Remark
    decreases |s| - i
  {
    if s[i] != '\n' && i + 1 < |s| { CommentMode(s, i + 1); }
  }

  lemma {:induction false} QuoteMode(s: string, i: nat, d: nat)
    requires Ends(s) && i < |s|
    ensures var e := StringBodyEnd(s, i);
            if e < |s| then Last(s, i, Quote(d, false)) == Last(s, e, Open(d)) else Last(s, i, Quote(d, false)).Quote?
    decreases |s| - i
  {
    if i + 1 < |s| {
      if s[i] == '\\' {
        Advance(s, i, Quote(d, false));
        if i + 2 < |s| {
          Advance(s, i + 1, Quote(d, true));
          QuoteMode(s, i + 2, d);
        }
      } else if s[i] != '"' {
        QuoteMode(s, i + 1, d);
      }
    }
  }

  lemma FenceMode(s: string, i: nat, d: nat, opening: bool)
    requires Ends(s) && TripleAt(s, i)
    ensures i + 3 < |s|
    ensures Last(s, i + 1, Fence(d, 2, opening)) == Last(s, i + 3, if opening then Block(d) else Open(d))
  {
    assert i + 2 != |s| - 1;
    Advance(s, i + 1, Fence(d, 2, opening));
    Advance(s, i + 2, Fence(d, 1, opening));
  }

  lemma {:induction false} BlockMode(s: string, i: nat, d: nat)
    requires Ends(s) && i < |s|
    ensures var e := BlockBodyEnd(s, i);
            if e < |s| then Last(s, i, Block(d)) == Last(s, e, Open(d)) else Last(s, i, Block(d)).Block?
    decreases |s| - i
  {
    if TripleAt(s, i) {
      FenceMode(s, i, d, false);
    } else if i + 1 < |s| {
      BlockMode(s, i + 1, d);
    }
  }

  lemma StringMode(s: string, i: nat, d: nat)
    requires Ends(s) && i < |s| && s[i] == '"'
    ensures var e := StringEnd(s, i);
            if e < |s| then Last(s, i, Open(d)) == Last(s, e, Open(d)) else !Last(s, i, Open(d)).Open?
  {
    if TripleAt(s, i) {
      FenceMode(s, i, d, true);
      BlockMode(s, i + 3, d);
    } else {
      QuoteMode(s, i + 1, d);
    }
  }

  /** An argument list ends behind its parenthesis, or swallows the rest of the text. */
  lemma {:induction false} ArgumentsMode(s: string, i: nat, d: nat)
    requires Ends(s) && i < |s| && d >= 1
    ensures var r := ClosingParen(s, i, d);
            if r.Some? then r.value + 1 < |s| && Last(s, i, Open(d)) == Last(s, r.value + 1, Open(0))
            else Last(s, i, Open(d)) != Open(0)
    decreases |s| - i
  {
    if i + 1 < |s| {
      if s[i] == '"' {
        StringMode(s, i, d);
        if StringEnd(s, i) < |s| { ArgumentsMode(s, StringEnd(s, i), d); }
      } else if s[i] == '(' {
        ArgumentsMode(s, i + 1, d + 1);
      } else if s[i] == ')' && d > 1 {
        ArgumentsMode(s, i + 1, d - 1);
      } else if s[i] != ')' {
        ArgumentsMode(s, i + 1, d);
      }
    }
  }

  /** One turn of the scanner's loop keeps the final mode, or swallows the rest of the text and
      leaves the final parenthesis inside something. */
  lemma TurnMode(s: string, i: nat)
    requires Ends(s) && i + 1 < |s|
    ensures var e := FrontEnd(s, i);
            if e < |s| then Last(s, i, Open(0)) == Last(s, e, Open(0)) else Last(s, i, Open(0)) != Open(0)
  {
    var c := s[i];
    if c == '#' {
      CommentMode(s, i + 1);
    } else if c == '"' {
      StringMode(s, i, 0);
    } else if c == '(' {
      ArgumentsMode(s, i + 1, 1);
    } else if IsNameStart(c) {
      NameMode(s, i);
    } else {
      PlainMode(s, i, i + 1);
    }
  }

  lemma {:induction false} StuckExactly(s: string, i: nat, st: State, maxPage: nat)
    requires Ends(s) && i < |s| && st.Valid() && maxPage >= 1
    ensures Run(Lex(s, i), st, maxPage).None? <==> Last(s, i, Open(0)) == Open(0)
    decreases |s| - i
  {
    LexStep(s, i, st, maxPage);
    if i + 1 < |s| {
      TurnMode(s, i);
      if FrontEnd(s, i) < |s| { StuckExactly(s, FrontEnd(s, i), Turned(s, i, st, maxPage), maxPage); }
    }
  }

  lemma {:induction false} OtherEndsFine(s: string, i: nat, st: State, maxPage: nat)
    requires !Ends(s) && i <= |s| && st.Valid() && maxPage >= 1
    ensures Run(Lex(s, i), st, maxPage).Some?
    decreases |s| - i
  {
    if i < |s| {
      LexStep(s, i, st, maxPage);
      OtherEndsFine(s, FrontEnd(s, i), Turned(s, i, st, maxPage), maxPage);
    }
  }

  /** Analyze panics exactly on text whose last character is a '(' in open text: outside every
      comment, string and argument list. */
  lemma PanicsExactly(document: string, maxPageSize: int)
    ensures Analyzed(document, maxPageSize).None?
            <==> Ends(document) && Reach(document, 0, Open(0), |document| - 1) == Open(0)
  {
    if Ends(document) {
      StuckExactly(document, 0, INITIAL, EffectiveMax(maxPageSize));
    } else {
      OtherEndsFine(document, 0, INITIAL, EffectiveMax(maxPageSize));
    }
  }
}
