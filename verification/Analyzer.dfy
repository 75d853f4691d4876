/** The scanner of graph/complexity.go as it runs: index loops over a slice of runes, a
    pushed and popped slice of multipliers, and 64-bit arithmetic for the cost. */
module Analyzer {
  import opened Text
  import opened Scanner

  datatype Analysis = Analysis(depth: int, cost: int, fields: int, introspection: bool)

  datatype Limits = Limits(maxDepth: int, maxComplexity: int, maxBytes: int, maxPageSize: int,
                           allowIntrospection: bool)

  datatype Rejection = TooLarge | IntrospectionDisabled | TooDeep | TooExpensive

  /** What a scan reports: the unbounded cost as a 64-bit integer, the rest unchanged. */
  function Report(st: State): Analysis {
    Analysis(st.peak, Wrap(st.cost), st.fields, st.introspection)
  }

  /** The specification of Analyze; None is the panic. */
  function Analyzed(document: string, maxPageSize: int): Option<Analysis> {
    var r := Scan(document, EffectiveMax(maxPageSize));
    if r.None? then None else Some(Report(r.value))
  }

  method SkipString(runes: string, i: nat) returns (r: nat)
    requires i < |runes| && runes[i] == '"'
    ensures r == StringEnd(runes, i)
  {
    if i + 2 < |runes| && runes[i + 1] == '"' && runes[i + 2] == '"' {
      var j := i + 3;
      while j + 2 < |runes|
        invariant i + 3 <= j <= |runes|
        invariant StringEnd(runes, i) == BlockBodyEnd(runes, j)
      {
        if runes[j] == '"' && runes[j + 1] == '"' && runes[j + 2] == '"' {
          return j + 3;
        }
        j := j + 1;
      }
      return |runes|;
    }
    var j := i + 1;
    while j < |runes|
      invariant i + 1 <= j
      invariant StringEnd(runes, i) == if j <= |runes| then StringBodyEnd(runes, j) else |runes|
    {
      if runes[j] == '\\' {
        j := j + 2;
        continue;
      }
      if runes[j] == '"' {
        return j + 1;
      }
      j := j + 1;
    }
    return |runes|;
  }

  method MatchParen(runes: string, i: nat) returns (r: nat)
    requires i < |runes| && runes[i] == '('
    ensures r == ArgumentsEnd(runes, i)
  {
    var depth := 0;
    var j := i;
    while j < |runes|
      invariant i <= j <= |runes|
      invariant j == i ==> depth == 0
      invariant j > i ==> depth >= 1 && ClosingParen(runes, i + 1, 1) == ClosingParen(runes, j, depth)
    {
      var c := runes[j];
      if c == '"' {
        var next := SkipString(runes, j);
        j := next - 1;
      } else if c == '(' {
        depth := depth + 1;
      } else if c == ')' {
        depth := depth - 1;
        if depth == 0 {
          return j;
        }
      }
      j := j + 1;
    }
    return |runes| - 1;
  }

  method SkipSpace(runes: string, i: nat) returns (r: nat)
    requires i <= |runes|
    ensures r == BlankEnd(runes, i)
  {
    r := i;
    while r < |runes| && IsBlank(runes[r])
      invariant i <= r <= |runes|
      invariant BlankEnd(runes, i) == BlankEnd(runes, r)
    {
      r := r + 1;
    }
  }

  method ScanDigits(rest: string) returns (end: nat)
    ensures end == DigitLength(rest)
  {
    end := 0;
    while end < |rest| && IsDigit(rest[end])
      invariant end <= |rest|
      invariant DigitLength(rest) == end + DigitLength(rest[end..])
    {
      end := end + 1;
    }
  }

  method ReadValue(value: string, maxPageSize: nat) returns (hint: Option<nat>)
    ensures hint == ValueHint(value, maxPageSize)
  {
    if value != [] && value[0] == '$' {
      return Some(maxPageSize);
    }
    var end := ScanDigits(value);
    if end == 0 {
      return None;
    }
    var n := NumeralValue(value[..end]);
    if n > INT64_MAX || n <= 0 {
      return None;
    }
    if n > maxPageSize {
      n := maxPageSize;
    }
    return Some(n);
  }

  /** One turn of the loop over the keys; None is the source's `continue`. */
  method ReadKey(args: string, key: string, maxPageSize: nat) returns (hint: Option<nat>)
    ensures hint == KeyHint(args, key, maxPageSize)
  {
    var idx := Index(args, key);
    if idx < 0 {
      return None;
    }
    var rest := TrimLeft(args[idx + |key|..]);
    if rest == [] || rest[0] != ':' {
      return None;
    }
    hint := ReadValue(TrimLeft(rest[1..]), maxPageSize);
  }

  method ReadPageMultiplier(args: string, maxPageSize: nat) returns (n: nat)
    requires maxPageSize >= 1
    ensures n == PageMultiplier(args, maxPageSize)
  {
    var k := 0;
    while k < |PAGE_KEYS|
      invariant k <= |PAGE_KEYS|
      invariant PageMultiplier(args, maxPageSize) == FirstHint(args, PAGE_KEYS[k..], maxPageSize)
    {
      var hint := ReadKey(args, PAGE_KEYS[k], maxPageSize);
      if hint.Some? {
        return hint.value;
      }
      assert PAGE_KEYS[k..][1..] == PAGE_KEYS[k + 1..];
      k := k + 1;
    }
    return 1;
  }

  /** The multiplier stack the machine holds for an unbounded one. */
  function WrapAll(m: seq<nat>): (w: seq<int>)
    ensures |w| == |m|
    ensures forall k :: 0 <= k < |m| ==> w[k] == Wrap(m[k])
  {
    seq(|m|, k requires 0 <= k < |m| => Wrap(m[k]))
  }

  /** The state after one turn of the loop at index i. */
  ghost function Turned(s: string, i: nat, st: State, maxPage: nat): (r: State)
    requires i < |s| && !StuckAt(s, i) && st.Valid() && maxPage >= 1
    ensures r.Valid()
  {
    if FrontToken(s, i).None? then st else Apply(FrontToken(s, i).value, st, maxPage)
  }

  lemma LexStep(s: string, i: nat, st: State, maxPage: nat)
    requires i < |s| && st.Valid() && maxPage >= 1
    ensures StuckAt(s, i) ==> Run(Lex(s, i), st, maxPage) == None
    ensures !StuckAt(s, i) ==>
              Run(Lex(s, i), st, maxPage) == Run(Lex(s, FrontEnd(s, i)), Turned(s, i, st, maxPage), maxPage)
  {
  }

  method SkipComment(runes: string, i: nat) returns (r: nat)
    requires i <= |runes|
    ensures r == CommentEnd(runes, i)
  {
    r := i;
    while r < |runes| && runes[r] != '\n'
      invariant i <= r <= |runes|
      invariant CommentEnd(runes, i) == CommentEnd(runes, r)
    {
      r := r + 1;
    }
  }

  method SkipName(runes: string, i: nat) returns (r: nat)
    requires i <= |runes|
    ensures r == NameEnd(runes, i)
  {
    r := i;
    while r < |runes| && IsNameChar(runes[r])
      invariant i <= r <= |runes|
      invariant NameEnd(runes, i) == NameEnd(runes, r)
    {
      r := r + 1;
    }
  }

  /** The scanner's variables between two tokens. */
  datatype Machine = Machine(depth: int, multipliers: seq<int>, pending: nat, analysis: Analysis)

  /** The machine's variables hold the unbounded state `st`. */
  function Machined(st: State): (m: Machine)
    requires st.Valid()
    ensures |m.multipliers| == |st.multipliers|
  {
    Machine(st.depth, WrapAll(st.multipliers), st.pending, Report(st))
  }

  method OpenBrace(m: Machine, ghost st: State) returns (r: Machine)
    requires st.Valid() && m == Machined(st)
    ensures r == Machined(st.Open())
  {
    var depth := m.depth + 1;
    var analysis := m.analysis;
    if depth > analysis.depth {
      analysis := analysis.(depth := depth);
    }
    var parent := m.multipliers[|m.multipliers| - 1];
    WrapProduct(st.Top(), m.pending);
    r := Machine(depth, m.multipliers + [Wrap(parent * m.pending)], 1, analysis);
    assert r.multipliers == WrapAll(st.Open().multipliers);
  }

  method CloseBrace(m: Machine, ghost st: State) returns (r: Machine)
    requires st.Valid() && m == Machined(st)
    ensures r == Machined(st.Close())
  {
    var multipliers := m.multipliers;
    if |multipliers| > 1 {
      multipliers := multipliers[..|multipliers| - 1];
    }
    r := m.(depth := m.depth - 1, multipliers := multipliers, pending := 1);
    assert r.multipliers == WrapAll(st.Close().multipliers);
  }

  method SelectName(m: Machine, name: string, ghost st: State) returns (r: Machine)
    requires st.Valid() && m == Machined(st)
    ensures r == Machined(st.Select(name))
  {
    if IsReservedWord(name) {
      return m;
    }
    var analysis := m.analysis;
    if "__" <= name {
      analysis := analysis.(introspection := true);
    }
    if m.depth >= 1 {
      WrapSum(st.cost, st.Top());
      analysis := analysis.(fields := analysis.fields + 1,
                            cost := Wrap(analysis.cost + m.multipliers[|m.multipliers| - 1]));
    }
    return m.(analysis := analysis);
  }

  /** The name case: measure the name, drop it when a colon follows, otherwise select it. */
  method ScanName(runes: string, i: nat, m: Machine, ghost st: State) returns (j: nat, r: Machine)
    requires i < |runes| && IsNameStart(runes[i])
    requires st.Valid() && m == Machined(st)
    ensures j == FrontEnd(runes, i)
    ensures r == Machined(if IsAlias(runes, i) then st else st.Select(runes[i..NameEnd(runes, i)]))
  {
    j := SkipName(runes, i);
    var name := runes[i..j];
    var rest := SkipSpace(runes, j);
    if rest < |runes| && runes[rest] == ':' {
      return rest + 1, m;
    }
    r := SelectName(m, name, st);
  }

  /** One turn of the scanner's loop, at index i; None is the panic. */
  method ScanToken(runes: string, i: nat, m: Machine, ghost st: State, maxPage: nat)
    returns (r: Option<(nat, Machine)>)
    requires i < |runes|
    requires st.Valid() && m == Machined(st) && maxPage >= 1
    ensures r.None? <==> StuckAt(runes, i)
    ensures r.Some? ==> r.value == (FrontEnd(runes, i), Machined(Turned(runes, i, st, maxPage)))
  {
    var c := runes[i];
    if c == '#' {
      var j := SkipComment(runes, i);
      return Some((j, m));
    } else if c == '"' {
      var j := SkipString(runes, i);
      return Some((j, m));
    } else if c == '(' {
      var end := MatchParen(runes, i);
      if end < i + 1 {
        return None;
      }
      var pending := ReadPageMultiplier(runes[i + 1..end], maxPage);
      return Some((end + 1, m.(pending := pending)));
    } else if c == '{' {
      var deeper := OpenBrace(m, st);
      return Some((i + 1, deeper));
    } else if c == '}' {
      var closed := CloseBrace(m, st);
      return Some((i + 1, closed));
    } else if IsNameStart(c) {
      var j, named := ScanName(runes, i, m, st);
      return Some((j, named));
    }
    return Some((i + 1, m));
  }

  method Analyze(document: string, maxPageSize: int) returns (r: Option<Analysis>)
    ensures r == Analyzed(document, maxPageSize)
  {
    var maxPage := if maxPageSize <= 0 then 100 else maxPageSize;
    var machine := Machine(0, [1], 1, Analysis(0, 0, 0, false));
    ghost var st := INITIAL;
    ghost var goal := Scan(document, maxPage);
    assert machine == Machined(st);
    var i := 0;
    while i < |document|
      invariant i <= |document|
      invariant st.Valid() && machine == Machined(st)
      invariant goal == Run(Lex(document, i), st, maxPage)
    {
      LexStep(document, i, st, maxPage);
      var next := ScanToken(document, i, machine, st, maxPage);
      if next.None? {
        return None;
      }
      st := Turned(document, i, st, maxPage);
      i, machine := next.value.0, next.value.1;
    }
    return Some(machine.analysis);
  }

  /** Bytes of the UTF-8 form, which is what Go's len counts. */
  function ByteLength(s: string): nat {
    if s == [] then 0
    else (var c := s[0] as int;
          if c < 0x80 then 1 else if c < 0x800 then 2 else if c < 0x10000 then 3 else 4)
         + ByteLength(s[1..])
  }

  /** Check's verdict on a finished analysis: the first limit it breaks, in the order checked. */
  function Verdict(a: Analysis, limits: Limits): (v: Option<Rejection>)
    ensures v == Some(IntrospectionDisabled) <==> a.introspection && !limits.allowIntrospection
    ensures v == Some(TooDeep) <==> (a.introspection ==> limits.allowIntrospection) && a.depth > limits.maxDepth > 0
    ensures v == Some(TooExpensive) <==>
              && (a.introspection ==> limits.allowIntrospection) && (limits.maxDepth > 0 ==> a.depth <= limits.maxDepth)
              && a.cost > limits.maxComplexity > 0
    ensures v != Some(TooLarge)
    ensures v.None? <==>
              && (a.introspection ==> limits.allowIntrospection)
              && (limits.maxDepth > 0 ==> a.depth <= limits.maxDepth)
              && (limits.maxComplexity > 0 ==> a.cost <= limits.maxComplexity)
  {
    if a.introspection && !limits.allowIntrospection then Some(IntrospectionDisabled)
    else if limits.maxDepth > 0 && a.depth > limits.maxDepth then Some(TooDeep)
    else if limits.maxComplexity > 0 && a.cost > limits.maxComplexity then Some(TooExpensive)
    else None
  }

  /** Check: the analysis, and a rejection unless the document is accepted. None is the panic. */
  method Check(document: string, limits: Limits) returns (r: Option<(Analysis, Option<Rejection>)>)
    ensures limits.maxBytes > 0 && ByteLength(document) > limits.maxBytes
            ==> r == Some((Analysis(0, 0, 0, false), Some(TooLarge)))
    ensures !(limits.maxBytes > 0 && ByteLength(document) > limits.maxBytes)
            ==> var a := Analyzed(document, limits.maxPageSize);
                r == if a.None? then None else Some((a.value, Verdict(a.value, limits)))
    ensures Accepted(document, limits) <==> r.Some? && r.value.1 == None
  {
    if limits.maxBytes > 0 && ByteLength(document) > limits.maxBytes {
      return Some((Analysis(0, 0, 0, false), Some(TooLarge)));
    }
    var scanned := Analyze(document, limits.maxPageSize);
    if scanned.None? {
      return None;
    }
    var analysis := scanned.value;
    if analysis.introspection && !limits.allowIntrospection {
      return Some((analysis, Some(IntrospectionDisabled)));
    }
    if limits.maxDepth > 0 && analysis.depth > limits.maxDepth {
      return Some((analysis, Some(TooDeep)));
    }
    if limits.maxComplexity > 0 && analysis.cost > limits.maxComplexity {
      return Some((analysis, Some(TooExpensive)));
    }
    return Some((analysis, None));
  }

  /** The documents Check lets through. */
  predicate Accepted(document: string, limits: Limits) {
    var a := Analyzed(document, limits.maxPageSize);
    && (limits.maxBytes > 0 ==> ByteLength(document) <= limits.maxBytes)
    && a.Some?
    && (a.value.introspection ==> limits.allowIntrospection)
    && (limits.maxDepth > 0 ==> a.value.depth <= limits.maxDepth)
    && (limits.maxComplexity > 0 ==> a.value.cost <= limits.maxComplexity)
  }
}
