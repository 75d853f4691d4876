/** What the GraphQL cost scanner (graph/complexity.go) computes. The index loops of the source
    are in Analyzer.dfy and are proved equal to these functions of the text and an index. */
module Scanner {
  import opened Text

  // ---- characters and words --------------------------------------------------------

  predicate IsNameStart(c: char) { c == '_' || 'a' <= c <= 'z' || 'A' <= c <= 'Z' }

  predicate IsNameChar(c: char) { IsNameStart(c) || IsDigit(c) }

  /** The characters skipSpace passes over. */
  predicate IsBlank(c: char) { c == ' ' || c == '\t' || c == '\n' || c == '\r' || c == ',' }

  predicate IsReservedWord(name: string) {
    name in {"query", "mutation", "subscription", "fragment", "on", "true", "false", "null"}
  }

  predicate IsIntrospection(name: string) { "__" <= name }

  // ---- sub-scanners: the index behind what starts at i ------------------------------

  function NameEnd(s: string, i: nat): (e: nat)
    requires i <= |s|
    ensures i <= e <= |s|
    decreases |s| - i
  {
    if i < |s| && IsNameChar(s[i]) then NameEnd(s, i + 1) else i
  }

  function BlankEnd(s: string, i: nat): (e: nat)
    requires i <= |s|
    ensures i <= e <= |s|
    decreases |s| - i
  {
    if i < |s| && IsBlank(s[i]) then BlankEnd(s, i + 1) else i
  }

  /** Up to the newline, which is not consumed. */
  function CommentEnd(s: string, i: nat): (e: nat)
    requires i <= |s|
    ensures i <= e <= |s|
    decreases |s| - i
  {
    if i < |s| && s[i] != '\n' then CommentEnd(s, i + 1) else i
  }

  /** From inside a regular string to behind its closing quote. */
  function StringBodyEnd(s: string, i: nat): (e: nat)
    requires i <= |s|
    ensures i <= e <= |s|
    decreases |s| - i
  {
    if i == |s| then i
    else if s[i] == '\\' then (if i + 1 == |s| then |s| else StringBodyEnd(s, i + 2))
    else if s[i] == '"' then i + 1
    else StringBodyEnd(s, i + 1)
  }

  predicate TripleAt(s: string, i: nat) {
    i + 2 < |s| && s[i] == '"' && s[i + 1] == '"' && s[i + 2] == '"'
  }

  /** From inside a block string to behind its closing quotes. */
  function BlockBodyEnd(s: string, i: nat): (e: nat)
    requires i <= |s|
    ensures i <= e <= |s|
    decreases |s| - i
  {
    if i + 2 >= |s| then |s|
    else if TripleAt(s, i) then i + 3
    else BlockBodyEnd(s, i + 1)
  }

  function StringEnd(s: string, i: nat): (e: nat)
    requires i < |s| && s[i] == '"'
    ensures i < e <= |s|
  {
    if TripleAt(s, i) then BlockBodyEnd(s, i + 3) else StringBodyEnd(s, i + 1)
  }

  /** The parenthesis that brings `depth` open ones to zero, if there is one. */
  function ClosingParen(s: string, i: nat, depth: nat): (r: Option<nat>)
    requires i <= |s| && depth >= 1
    ensures r.Some? ==> i <= r.value < |s|
    decreases |s| - i
  {
    if i == |s| then None
    else if s[i] == '"' then ClosingParen(s, StringEnd(s, i), depth)
    else if s[i] == '(' then ClosingParen(s, i + 1, depth + 1)
    else if s[i] == ')' && depth == 1 then Some(i)
    else if s[i] == ')' then ClosingParen(s, i + 1, depth - 1)
    else ClosingParen(s, i + 1, depth)
  }

  /** The end of the argument list that opens at i; the last index when it is not closed. */
  function ArgumentsEnd(s: string, i: nat): (e: nat)
    requires i < |s| && s[i] == '('
    ensures i <= e < |s|
    ensures i + 1 < |s| ==> i < e
  {
    var r := ClosingParen(s, i + 1, 1);
    if r.None? then |s| - 1 else r.value
  }

  // ---- the pagination hint ----------------------------------------------------------

  const PAGE_KEYS: seq<string> := ["pageSize", "page_size", "first", "last", "limit"]

  function SpaceLength(s: string): (n: nat)
    ensures n <= |s|
  {
    if s == [] || !IsSpace(s[0]) then 0 else 1 + SpaceLength(s[1..])
  }

  function DigitLength(s: string): (n: nat)
    ensures n <= |s|
    ensures AllDigits(s[..n])
    ensures n < |s| ==> !IsDigit(s[n])
  {
    if s == [] || !IsDigit(s[0]) then 0
    else
      var n := 1 + DigitLength(s[1..]);
      assert forall k :: 0 < k < n ==> s[k] == s[1..][..n - 1][k - 1];
      n
  }

  function TrimLeft(s: string): (r: string)
  {
    s[SpaceLength(s)..]
  }

  /** The page size written after `key:` when it is a variable or a positive literal. */
  function KeyHint(args: string, key: string, maxPage: nat): Option<nat> {
    var at := Index(args, key);
    if at < 0 then None else
      var rest := TrimLeft(args[at + |key|..]);
      if rest == [] || rest[0] != ':' then None
      else ValueHint(TrimLeft(rest[1..]), maxPage)
  }

  function ValueHint(value: string, maxPage: nat): Option<nat> {
    if value != [] && value[0] == '$' then Some(maxPage)
    else
      var digits := value[..DigitLength(value)];
      if digits == [] then None
      else
        var n := NumeralValue(digits);
        if n > INT64_MAX || n == 0 then None
        else Some(if n > maxPage then maxPage else n)
  }

  function FirstHint(args: string, keys: seq<string>, maxPage: nat): (m: nat)
    requires maxPage >= 1
    ensures 1 <= m <= maxPage
  {
    if keys == [] then 1
    else
      var h := KeyHint(args, keys[0], maxPage);
      if h.Some? then h.value else FirstHint(args, keys[1..], maxPage)
  }

  function PageMultiplier(args: string, maxPage: nat): (m: nat)
    requires maxPage >= 1
    ensures 1 <= m <= maxPage
  {
    FirstHint(args, PAGE_KEYS, maxPage)
  }

  // ---- from text to tokens -----------------------------------------------------------

  /** What the scanner acts on. Comments, strings between fields, aliases and every other
      character produce no token. */
  datatype Token = Arguments(text: string) | OpenBrace | CloseBrace | Word(name: string)

  /** Stuck: the slice between '(' and the end of the argument list does not exist when '('
      is the last character, and the source panics. */
  datatype Tokens = Finished | Stuck | Emit(token: Token, more: Tokens)

  /** A name is an alias when a colon follows it, past blanks only. */
  predicate IsAlias(s: string, i: nat)
    requires i <= |s|
  {
    var rest := BlankEnd(s, NameEnd(s, i));
    rest < |s| && s[rest] == ':'
  }

  /** Where one turn of the loop leaves the index. */
  function FrontEnd(s: string, i: nat): (e: nat)
    requires i < |s|
    ensures i < e <= |s|
  {
    var c := s[i];
    if c == '#' then CommentEnd(s, i)
    else if c == '"' then StringEnd(s, i)
    else if c == '(' then ArgumentsEnd(s, i) + 1
    else if IsNameStart(c) then (if IsAlias(s, i) then BlankEnd(s, NameEnd(s, i)) + 1 else NameEnd(s, i))
    else i + 1
  }

  predicate StuckAt(s: string, i: nat)
    requires i < |s|
  {
    s[i] == '(' && i + 1 == |s|
  }

  function FrontToken(s: string, i: nat): Option<Token>
    requires i < |s| && !StuckAt(s, i)
  {
    var c := s[i];
    if c == '(' then Some(Arguments(s[i + 1..ArgumentsEnd(s, i)]))
    else if c == '{' then Some(OpenBrace)
    else if c == '}' then Some(CloseBrace)
    else if IsNameStart(c) && !IsAlias(s, i) then Some(Word(s[i..NameEnd(s, i)]))
    else None
  }

  function Lex(s: string, i: nat): Tokens
    requires i <= |s|
    decreases |s| - i
  {
    if i == |s| then Finished
    else if StuckAt(s, i) then Stuck
    else Push(FrontToken(s, i), Lex(s, FrontEnd(s, i)))
  }

  function Push(t: Option<Token>, more: Tokens): Tokens {
    if t.None? then more else Emit(t.value, more)
  }

  // ---- from tokens to the analysis -----------------------------------------------------

  /** Scanner state in unbounded arithmetic. `peak`, `cost`, `fields` and `introspection`
      are what the analysis reports; the rest is the scanner's own. */
  datatype State = State(depth: int, multipliers: seq<nat>, pending: nat,
                         peak: int, cost: nat, fields: nat, introspection: bool)
  {
    predicate Valid() { |multipliers| >= 1 }

    function Top(): nat
      requires Valid()
    {
      multipliers[|multipliers| - 1]
    }

    function Open(): (r: State)
      requires Valid()
      ensures r.Valid()
    {
      this.(depth := depth + 1, peak := if depth + 1 > peak then depth + 1 else peak,
            multipliers := multipliers + [Top() * pending], pending := 1)
    }

    function Close(): (r: State)
      requires Valid()
      ensures r.Valid()
    {
      this.(depth := depth - 1, pending := 1,
            multipliers := if |multipliers| > 1 then multipliers[..|multipliers| - 1] else multipliers)
    }

    function Select(name: string): (r: State)
      requires Valid()
      ensures r.Valid()
    {
      if IsReservedWord(name) then this
      else this.(introspection := introspection || IsIntrospection(name),
                 fields := if depth >= 1 then fields + 1 else fields,
                 cost := if depth >= 1 then cost + Top() else cost)
    }
  }

  const INITIAL: State := State(0, [1], 1, 0, 0, 0, false)

  function Apply(t: Token, st: State, maxPage: nat): (r: State)
    requires st.Valid() && maxPage >= 1
    ensures r.Valid()
  {
    match t
    case Arguments(text) => st.(pending := PageMultiplier(text, maxPage))
    case OpenBrace => st.Open()
    case CloseBrace => st.Close()
    case Word(name) => st.Select(name)
  }

  function Run(ts: Tokens, st: State, maxPage: nat): (r: Option<State>)
    requires st.Valid() && maxPage >= 1
    ensures r.Some? ==> r.value.Valid()
  {
    match ts
    case Finished => Some(st)
    case Stuck => None
    case Emit(t, more) => Run(more, Apply(t, st, maxPage), maxPage)
  }

  /** The whole scan; None when the source panics. */
  function Scan(s: string, maxPage: nat): (r: Option<State>)
    requires maxPage >= 1
    ensures r.Some? ==> r.value.Valid()
  {
    Run(Lex(s, 0), INITIAL, maxPage)
  }

  function EffectiveMax(maxPageSize: int): (m: nat)
    ensures m >= 1
  {
    if maxPageSize <= 0 then 100 else maxPageSize
  }
}
