/** The page size a resolver serves (graph/resolver.go) against the multiplier the analyzer
    reads (graph/complexity.go), and the resulting bound on what execution resolves. */
module Paging {
  import opened Text
  import opened Scanner
  import opened Syntax
  import opened Meaning

  /** Resolver.pagination. `page` and `pageSize` are the integer arguments, when supplied. */
  method Pagination(defaultPageSize: int, maxPageSize: int, givenPage: Option<int>, givenPageSize: Option<int>)
    returns (page: int, pageSize: int)
    ensures pageSize == PageSizeFor(defaultPageSize, maxPageSize, givenPageSize)
    ensures var max := if maxPageSize > 0 then maxPageSize else 100;
            && 1 <= pageSize <= max
            && (givenPageSize.Some? && 0 < givenPageSize.value <= max ==> pageSize == givenPageSize.value)
            && (givenPageSize.Some? && givenPageSize.value > max ==> pageSize == max)
            && (givenPageSize.None? || givenPageSize.value <= 0 ==>
                  && (0 < defaultPageSize <= max ==> pageSize == defaultPageSize)
                  && (defaultPageSize <= 0 && max >= 20 ==> pageSize == 20))
    ensures page == (if givenPage.Some? && givenPage.value > 0 then givenPage.value else 1) && page >= 1
  {
    page := 1;
    pageSize := defaultPageSize;
    if pageSize <= 0 {
      pageSize := 20;
    }
    if givenPage.Some? && givenPage.value > 0 {
      page := givenPage.value;
    }
    if givenPageSize.Some? && givenPageSize.value > 0 {
      pageSize := givenPageSize.value;
    }
    var max := maxPageSize;
    if max <= 0 {
      max := 100;
    }
    if pageSize > max {
      pageSize := max;
    }
  }

  function PageSizeFor(defaultPageSize: int, maxPageSize: int, given: Option<int>): (n: nat)
    ensures 1 <= n <= EffectiveMax(maxPageSize)
  {
    var wanted := if given.Some? && given.value > 0 then given.value
                  else if defaultPageSize <= 0 then 20 else defaultPageSize;
    if wanted > EffectiveMax(maxPageSize) then EffectiveMax(maxPageSize) else wanted
  }

  // ---- the page size execution receives ----------------------------------------------------

  /** The argument as the resolver reads it (graph/resolver.go:597). */
  const PAGE_SIZE: string := "pageSize"

  /** The list from its pageSize argument on; argument names are unique (section 5.4.2). */
  function From(l: Arguments): (r: Arguments)
    ensures r.Argument? ==> r.name == PAGE_SIZE
  {
    if l.NoArguments? || l.name == PAGE_SIZE then l else From(l.more)
  }

  /** The text in front of it. */
  function Before(l: Arguments): string {
    if l.NoArguments? || l.name == PAGE_SIZE then ""
    else l.name + (GapText(l.space) + (":" + (GapText(l.lead) + (ValueText(l.value) + (GapText(l.after) + Before(l.more))))))
  }

  /** Rejected: a value that is no 64-bit integer and not null fails validation, so nothing is
      executed (sections 3.5.1 and 5.6.1). Unknown: the text is not an argument list. */
  datatype PageArg = Absent | Null | Literal(n: int) | Variable | Rejected | Unknown

  function ValueArg(v: Value): PageArg {
    match v
    case Var(_, _) => Variable
    case Int(negative, n) =>
      var x: int := n;
      if x <= INT64_MAX || (negative && x == INT64_MAX + 1) then Literal(if negative then -x else x) else Rejected
    case Bare(text) => if text == "null" then Null else Rejected
    case _ => Rejected
  }

  function PageArgOf(a: Args): PageArg {
    match a
    case NoArgs => Absent
    case Balanced(_, _) => Unknown
    case Listed(_, list, _) => if From(list).NoArguments? then Absent else ValueArg(From(list).value)
  }

  /** The integers a resolver may be given for the argument. */
  predicate Supplies(a: PageArg, given: Option<int>) {
    match a
    case Absent => given.None?
    case Null => given.None?
    case Literal(n) => given == Some(n)
    case Variable => true
    case Rejected => false
    case Unknown => true
  }

  /** The largest page the argument can ask for. */
  function LargestPage(a: PageArg, defaultPageSize: int, maxPageSize: int): nat {
    match a
    case Literal(n) => PageSizeFor(defaultPageSize, maxPageSize, Some(n))
    case Variable => EffectiveMax(maxPageSize)
    case Unknown => EffectiveMax(maxPageSize)
    case _ => PageSizeFor(defaultPageSize, maxPageSize, None)
  }

  /** A page size is asked for: by a variable or a positive literal. */
  predicate Asks(a: PageArg) { a.Variable? || (a.Literal? && a.n > 0) }

  // ---- where the analyzer looks ------------------------------------------------------------

  /** The first "pageSize" in the text is the name of the page argument, and white space alone
      surrounds its colon. */
  predicate InPlace(a: Args) {
    && a.Listed? && From(a.list).Argument?
    && Index(InsideText(a), PAGE_SIZE) == |GapText(a.lead)| + |Before(a.list)|
    && AllSpace(GapText(From(a.list).space)) && AllSpace(GapText(From(a.list).lead))
  }

  /** The analyzer looks at the page argument where there is one, and at nothing else. */
  predicate ReadsItself(a: Args) {
    a.NoArgs? || InPlace(a) || (PageArgOf(a).Absent? && Index(InsideText(a), PAGE_SIZE) < 0)
  }

  predicate NoOtherKey(text: string) {
    forall k :: 1 <= k < |PAGE_KEYS| ==> Index(text, PAGE_KEYS[k]) < 0
  }

  /** What the analyzer falls back to: the first of the other keys with a readable value, or 1. */
  function OtherHint(a: Args, maxPage: nat): (m: nat)
    requires maxPage >= 1
    ensures 1 <= m <= maxPage
  {
    FirstHint(InsideText(a), PAGE_KEYS[1..], maxPage)
  }

  /** What stands behind the first "pageSize" of the text, whatever that is. */
  function FirstSeen(a: Args, maxPage: nat): nat
    requires maxPage >= 1
  {
    var seen := KeyHint(InsideText(a), PAGE_SIZE, maxPage);
    if seen.Some? then seen.value else OtherHint(a, maxPage)
  }

  lemma {:induction false} SpaceSpan(gap: string, rest: string)
    requires AllSpace(gap) && (rest != [] ==> !IsSpace(rest[0]))
    ensures TrimLeft(gap + rest) == rest
  {
    if gap == [] {
      assert gap + rest == rest;
    } else {
      assert (gap + rest)[1..] == gap[1..] + rest;
      SpaceSpan(gap[1..], rest);
    }
  }

  lemma {:induction false} DigitSpan(digits: string, rest: string)
    requires AllDigits(digits) && (rest != [] ==> !IsDigit(rest[0]))
    ensures DigitLength(digits + rest) == |digits| && (digits + rest)[..|digits|] == digits
  {
    if digits == [] {
      assert digits + rest == rest;
    } else {
      assert (digits + rest)[1..] == digits[1..] + rest;
      DigitSpan(digits[1..], rest);
    }
  }

  /** A numeral is read as its value, up to the maximum; zero and what does not fit in 64 bits
      are passed over. */
  lemma NumeralHint(n: nat, rest: string, maxPage: nat)
    requires rest != [] ==> !IsDigit(rest[0])
    ensures ValueHint(Numeral(n) + rest, maxPage)
            == if n > INT64_MAX || n == 0 then None else Some(if n > maxPage then maxPage else n)
    ensures !IsSpace((Numeral(n) + rest)[0])
  {
    var v := Numeral(n) + rest;
    assert v[0] == Numeral(n)[0];
    DigitSpan(Numeral(n), rest);
    NumeralReadsBack(n);
  }

  /** What is read for a page argument in place. */
  function ArgHint(a: PageArg, maxPage: nat): Option<nat> {
    match a
    case Variable => Some(maxPage)
    case Literal(n) => if n <= 0 then None else Some(if n > maxPage then maxPage else n)
    case _ => None
  }

  /** A variable counts as the maximum, and what starts with no digit is passed over. */
  lemma HintByFirst(value: string, maxPage: nat)
    requires value != [] && !IsDigit(value[0])
    ensures ValueHint(value, maxPage) == if value[0] == '$' then Some(maxPage) else None
  {
    assert DigitLength(value) == 0;
  }

  lemma ValueFirst(v: Value)
    requires ValueOk(v) && !ValueArg(v).Rejected?
    ensures var text := ValueText(v);
            && text != [] && !IsSpace(text[0])
            && (v.Var? ==> text[0] == '$')
            && (v.Int? && v.negative ==> text[0] == '-')
            && (v.Bare? ==> text[0] == 'n')
  {
  }

  lemma ValueReads(v: Value, rest: string, maxPage: nat)
    requires ValueOk(v) && !ValueArg(v).Rejected? && (rest != [] ==> !IsDigit(rest[0]))
    ensures ValueText(v) != [] && !IsSpace(ValueText(v)[0])
    ensures ValueHint(ValueText(v) + rest, maxPage) == ArgHint(ValueArg(v), maxPage)
  {
    var text := ValueText(v) + rest;
    ValueFirst(v);
    assert text[0] == ValueText(v)[0];
    if v.Int? && !v.negative {
      NumeralHint(v.n, rest, maxPage);
    } else {
      HintByFirst(text, maxPage);
    }
  }

  /** A key whose first occurrence is followed by a colon past white space is read there. */
  lemma KeyReads(text: string, before: string, key: string, gap: string, colonGap: string, value: string, maxPage: nat)
    requires text == before + (key + (gap + (":" + (colonGap + value)))) && Index(text, key) == |before|
    requires AllSpace(gap) && AllSpace(colonGap) && value != [] && !IsSpace(value[0])
    ensures KeyHint(text, key, maxPage) == ValueHint(value, maxPage)
  {
    var colon := ":" + (colonGap + value);
    assert text == (before + key) + (gap + colon);
    assert text[|before| + |key|..] == gap + colon;
    SpaceSpan(gap, colon);
    assert colon[1..] == colonGap + value;
    SpaceSpan(colonGap, value);
  }

  lemma Regroup(a: string, b: string, c: string, d: string, e: string, f: string, x: string, y: string)
    ensures a + (b + (c + (d + (e + (f + (x + y)))))) == (a + (b + (c + (d + (e + (f + x)))))) + y
  {
  }

  lemma {:induction false} SplitsAtPage(l: Arguments)
    ensures ArgumentsText(l) == Before(l) + ArgumentsText(From(l))
    ensures ArgumentsOk(l) ==> ArgumentsOk(From(l))
    decreases l
  {
    if l.NoArguments? || l.name == PAGE_SIZE {
      assert "" + ArgumentsText(l) == ArgumentsText(l);
    } else {
      SplitsAtPage(l.more);
      Regroup(l.name, GapText(l.space), ":", GapText(l.lead), ValueText(l.value), GapText(l.after),
              Before(l.more), ArgumentsText(From(l)));
    }
  }

  /** No digit follows a value: a gap or a name does. */
  lemma NoDigitBehind(after: Gap, more: Arguments)
    requires GapOk(after) && ArgumentsOk(more)
    ensures var rest := GapText(after) + ArgumentsText(more); rest != [] ==> !IsDigit(rest[0])
  {
    match after
    case Tight =>
      assert GapText(after) + ArgumentsText(more) == ArgumentsText(more);
      if more.Argument? { assert ArgumentsText(more)[0] == more.name[0]; }
    case Blank(c, _) => assert (GapText(after) + ArgumentsText(more))[0] == c;
    case Remark(_, _) => assert (GapText(after) + ArgumentsText(more))[0] == '#';
  }

  lemma InPlaceText(a: Args) returns (before: string, rest: string)
    requires ArgsOk(a) && InPlace(a)
    ensures var page := From(a.list);
            && ValueOk(page.value) && (rest != [] ==> !IsDigit(rest[0])) && Index(InsideText(a), PAGE_SIZE) == |before|
            && InsideText(a)
               == before + (PAGE_SIZE + (GapText(page.space) + (":" + (GapText(page.lead) + (ValueText(page.value) + rest)))))
  {
    var page := From(a.list);
    rest := GapText(page.after) + ArgumentsText(page.more);
    before := GapText(a.lead) + Before(a.list);
    SplitsAtPage(a.list);
    NoDigitBehind(page.after, page.more);
    Associative(GapText(a.lead), Before(a.list), ArgumentsText(page));
  }

  /** A page argument in place is read as it stands, whatever else the list holds. */
  lemma InPlaceReads(a: Args, maxPage: nat)
    requires ArgsOk(a) && InPlace(a) && !PageArgOf(a).Rejected?
    ensures KeyHint(InsideText(a), PAGE_SIZE, maxPage) == ArgHint(PageArgOf(a), maxPage)
  {
    var page := From(a.list);
    var before, rest := InPlaceText(a);
    ValueReads(page.value, rest, maxPage);
    var value := ValueText(page.value) + rest;
    assert value[0] == ValueText(page.value)[0];
    KeyReads(InsideText(a), before, PAGE_SIZE, GapText(page.space), GapText(page.lead), value, maxPage);
  }

  /** The multiplier of any list is what its first occurrence of the key shows. */
  lemma MultiplierIsFirstSeen(a: Args, maxPage: nat)
    requires maxPage >= 1
    ensures Multiplier(a, maxPage) == FirstSeen(a, maxPage)
  {
    var text := InsideText(a);
    assert PAGE_KEYS[0..] == PAGE_KEYS && PAGE_KEYS[1..] == PAGE_KEYS[0..][1..];
    assert FirstHint(text, PAGE_KEYS, maxPage) == FirstSeen(a, maxPage);
    if a.NoArgs? { EmptyHint(0, maxPage); }
  }

  lemma {:induction false} EmptyHint(k: nat, maxPage: nat)
    requires k <= |PAGE_KEYS| && maxPage >= 1
    ensures FirstHint("", PAGE_KEYS[k..], maxPage) == 1
    decreases |PAGE_KEYS| - k
  {
    if k < |PAGE_KEYS| {
      assert PAGE_KEYS[k] != "";
      EmptyHint(k + 1, maxPage);
      assert PAGE_KEYS[k..][1..] == PAGE_KEYS[k + 1..];
    }
  }

  lemma {:induction false} NoHint(text: string, k: nat, maxPage: nat)
    requires 1 <= k <= |PAGE_KEYS| && NoOtherKey(text) && maxPage >= 1
    ensures FirstHint(text, PAGE_KEYS[k..], maxPage) == 1
    decreases |PAGE_KEYS| - k
  {
    if k < |PAGE_KEYS| {
      NoHint(text, k + 1, maxPage);
      assert PAGE_KEYS[k..][1..] == PAGE_KEYS[k + 1..];
    }
  }

  /** What the analyzer charges for a page size that is asked for in place: the maximum for a
      variable, min(n, max) for a positive literal. */
  lemma MultiplierReadsArgument(a: Args, maxPage: nat)
    requires ArgsOk(a) && InPlace(a) && Asks(PageArgOf(a)) && maxPage >= 1
    ensures Multiplier(a, maxPage) == ArgHint(PageArgOf(a), maxPage).value
  {
    InPlaceReads(a, maxPage);
    MultiplierIsFirstSeen(a, maxPage);
  }

  /** Where no page size is asked for and no other key occurs, nothing is multiplied. */
  lemma UnaskedIsOne(a: Args, maxPage: nat)
    requires ArgsOk(a) && ReadsItself(a) && !Asks(PageArgOf(a)) && !PageArgOf(a).Rejected? && maxPage >= 1
    ensures Multiplier(a, maxPage) == OtherHint(a, maxPage)
    ensures NoOtherKey(InsideText(a)) ==> OtherHint(a, maxPage) == 1
  {
    MultiplierIsFirstSeen(a, maxPage);
    if InPlace(a) { InPlaceReads(a, maxPage); }
    if NoOtherKey(InsideText(a)) { NoHint(InsideText(a), 1, maxPage); }
  }

  // ---- when the multiplier covers the page served ---------------------------------------------

  /** Whatever the resolver is given for the argument, the page it serves is within the
      multiplier the analyzer charged. */
  ghost predicate Covers(a: Args, defaultPageSize: int, maxPageSize: int) {
    forall given :: Supplies(PageArgOf(a), given) ==>
      PageSizeFor(defaultPageSize, maxPageSize, given) <= Multiplier(a, EffectiveMax(maxPageSize))
  }

  lemma CoversLargest(a: Args, defaultPageSize: int, maxPageSize: int)
    requires !PageArgOf(a).Rejected?
    ensures Covers(a, defaultPageSize, maxPageSize)
            <==> LargestPage(PageArgOf(a), defaultPageSize, maxPageSize) <= Multiplier(a, EffectiveMax(maxPageSize))
  {
    var arg, max := PageArgOf(a), EffectiveMax(maxPageSize);
    var given := match arg
      case Literal(n) => Some(n)
      case Variable => Some(max)
      case Unknown => Some(max)
      case _ => None;
    assert Supplies(arg, given);
    assert PageSizeFor(defaultPageSize, maxPageSize, given) == LargestPage(arg, defaultPageSize, maxPageSize);
  }

  lemma AskedIsCovered(a: Args, defaultPageSize: int, maxPageSize: int)
    requires ArgsOk(a) && InPlace(a) && Asks(PageArgOf(a))
    ensures LargestPage(PageArgOf(a), defaultPageSize, maxPageSize) == Multiplier(a, EffectiveMax(maxPageSize))
  {
    MultiplierReadsArgument(a, EffectiveMax(maxPageSize));
  }

  lemma UnaskedIsDefault(arg: PageArg, defaultPageSize: int, maxPageSize: int)
    requires !Asks(arg) && !arg.Unknown?
    ensures LargestPage(arg, defaultPageSize, maxPageSize) == PageSizeFor(defaultPageSize, maxPageSize, None)
  {
  }

  lemma ReadsItselfOnly(a: Args)
    requires ReadsItself(a)
    ensures !PageArgOf(a).Unknown? && (Asks(PageArgOf(a)) ==> InPlace(a))
  {
  }

  lemma CoversUnasked(a: Args, defaultPageSize: int, maxPageSize: int)
    requires ArgsOk(a) && ReadsItself(a) && !PageArgOf(a).Rejected? && !Asks(PageArgOf(a))
    ensures LargestPage(PageArgOf(a), defaultPageSize, maxPageSize) == PageSizeFor(defaultPageSize, maxPageSize, None)
    ensures Multiplier(a, EffectiveMax(maxPageSize)) == OtherHint(a, EffectiveMax(maxPageSize))
  {
    ReadsItselfOnly(a);
    UnaskedIsOne(a, EffectiveMax(maxPageSize));
    UnaskedIsDefault(PageArgOf(a), defaultPageSize, maxPageSize);
  }

  lemma CoversInPlace(a: Args, defaultPageSize: int, maxPageSize: int)
    requires ArgsOk(a) && ReadsItself(a) && !PageArgOf(a).Rejected?
    ensures Covers(a, defaultPageSize, maxPageSize) <==>
              Asks(PageArgOf(a)) || PageSizeFor(defaultPageSize, maxPageSize, None) <= OtherHint(a, EffectiveMax(maxPageSize))
  {
    var largest, m := LargestPage(PageArgOf(a), defaultPageSize, maxPageSize), Multiplier(a, EffectiveMax(maxPageSize));
    assert Covers(a, defaultPageSize, maxPageSize) <==> largest <= m by {
      CoversLargest(a, defaultPageSize, maxPageSize);
    }
    if Asks(PageArgOf(a)) {
      assert largest == m by {
        ReadsItselfOnly(a);
        AskedIsCovered(a, defaultPageSize, maxPageSize);
      }
    } else {
      CoversUnasked(a, defaultPageSize, maxPageSize);
    }
  }

  /** Exactly when the analyzer covers the served page, for every argument list. Where the key
      stands in place: when a page size is asked for; an absent, null or non-positive one is
      served as the default page, which only another key's hint can cover. Where the letters
      of the key occur earlier, or no colon is found behind them: when what is read instead is no
      smaller than the page. */
  lemma CoversServedPagesExactly(a: Args, defaultPageSize: int, maxPageSize: int)
    requires ArgsOk(a)
    ensures var arg, max := PageArgOf(a), EffectiveMax(maxPageSize);
            Covers(a, defaultPageSize, maxPageSize) <==>
              || arg.Rejected?
              || (if ReadsItself(a) then Asks(arg) || PageSizeFor(defaultPageSize, maxPageSize, None) <= OtherHint(a, max)
                  else LargestPage(arg, defaultPageSize, maxPageSize) <= FirstSeen(a, max))
  {
    if PageArgOf(a).Rejected? {
    } else if ReadsItself(a) {
      CoversInPlace(a, defaultPageSize, maxPageSize);
    } else {
      CoversLargest(a, defaultPageSize, maxPageSize);
      MultiplierIsFirstSeen(a, EffectiveMax(maxPageSize));
    }
  }

  lemma OnlyOccurrence(text: string, before: string, key: string, rest: string)
    requires text == before + (key + rest)
    requires forall i, j :: OccursAt(text, key, i) && OccursAt(text, key, j) ==> i == j
    ensures Index(text, key) == |before|
  {
    assert text[|before|..|before| + |key|] == key;
    assert OccursAt(text, key, |before|);
    IndexIsFirst(text, key);
  }

  /** A key that occurs once in the text of the list stands in place. */
  lemma OnceIsInPlace(a: Args)
    requires a.Listed? && From(a.list).Argument?
    requires forall i, j :: OccursAt(InsideText(a), PAGE_SIZE, i) && OccursAt(InsideText(a), PAGE_SIZE, j) ==> i == j
    ensures Index(InsideText(a), PAGE_SIZE) == |GapText(a.lead)| + |Before(a.list)|
  {
    var rest := PageBehindName(a.list);
    Associative(GapText(a.lead), Before(a.list), PAGE_SIZE + rest);
    OnlyOccurrence(InsideText(a), GapText(a.lead) + Before(a.list), PAGE_SIZE, rest);
  }

  lemma PageBehindName(l: Arguments) returns (rest: string)
    requires From(l).Argument?
    ensures ArgumentsText(l) == Before(l) + (PAGE_SIZE + rest)
  {
    var page := From(l);
    SplitsAtPage(l);
    rest := GapText(page.space)
            + (":" + (GapText(page.lead) + (ValueText(page.value) + (GapText(page.after) + ArgumentsText(page.more)))));
  }

  // ---- inputs that are not covered ------------------------------------------------------------

  /** A text without quotes and backslashes, inside a string. */
  function RawChars(s: string): (cs: Chars)
    ensures CharsText(cs) == s
    ensures (forall k :: 0 <= k < |s| ==> s[k] != '"' && s[k] != '\\') ==> CharsOk(cs)
  {
    if s == [] then NoChars else Raw(s[0], RawChars(s[1..]))
  }

  lemma FirstBehind(before: string, key: string, rest: string)
    requires key != [] && key[0] !in before
    ensures Index(before + (key + rest), key) == |before|
  {
    var text := before + (key + rest);
    assert text[|before|..|before| + |key|] == key;
    assert OccursAt(text, key, |before|);
    IndexIsFirst(text, key);
    var r := Index(text, key);
    assert text[r..r + |key|][0] == text[r];
    assert forall k :: 0 <= k < |before| ==> text[k] == before[k] && text[k] != key[0];
  }

  /** `event:"pageSize:m",pageSize:n`. */
  function Decoyed(m: nat, n: nat): Args {
    Listed(Tight, Argument("event", Tight, Tight, Str(RawChars(PAGE_SIZE + (":" + Numeral(m)))), Blank(',', Tight),
                           Argument(PAGE_SIZE, Tight, Tight, Int(false, n), Tight, NoArguments)), Tight)
  }

  const EVENT: string := "event"

  lemma DecoyGroup(e: string, c: string, q: string, key: string, num: string, tail: string)
    ensures e + (c + ((q + ((key + (c + num)) + q)) + tail)) == (e + (c + q)) + (key + (c + (num + (q + tail))))
  {
  }

  lemma DecoyedOk(m: nat, n: nat)
    ensures ArgsOk(Decoyed(m, n))
  {
    var inner := PAGE_SIZE + (":" + Numeral(m));
    forall k | 0 <= k < |inner| ensures inner[k] != '"' && inner[k] != '\\' {
      if k > |PAGE_SIZE| { assert inner[k] == Numeral(m)[k - |PAGE_SIZE| - 1]; }
    }
    assert IsName(EVENT) && IsName(PAGE_SIZE);
    assert GapText(Tight) == "" && GapText(Blank(',', Tight)) == ",";
  }

  lemma TightArgument(name: string, v: Value, after: Gap, more: Arguments)
    ensures ArgumentsText(Argument(name, Tight, Tight, v, after, more))
            == name + (":" + (ValueText(v) + (GapText(after) + ArgumentsText(more))))
  {
    var behind := ValueText(v) + (GapText(after) + ArgumentsText(more));
    assert "" + behind == behind && "" + (":" + behind) == ":" + behind;
  }

  /** The text of a list whose first argument is a string, with the key inside. */
  lemma DecoyedText(m: nat, n: nat) returns (rest: string)
    ensures InsideText(Decoyed(m, n)) == (EVENT + (":" + "\"")) + (PAGE_SIZE + (":" + (Numeral(m) + ("\"" + rest))))
  {
    var l := Decoyed(m, n).list;
    rest := GapText(l.after) + ArgumentsText(l.more);
    assert GapText(Tight) + ArgumentsText(l) == ArgumentsText(l);
    TightArgument(EVENT, l.value, l.after, l.more);
    DecoyGroup(EVENT, ":", "\"", PAGE_SIZE, Numeral(m), rest);
  }

  lemma DecoyedMultiplier(m: nat, n: nat, maxPage: nat)
    requires 1 <= m <= INT64_MAX && maxPage >= 1
    ensures Multiplier(Decoyed(m, n), maxPage) == if m > maxPage then maxPage else m
  {
    var a := Decoyed(m, n);
    var rest := DecoyedText(m, n);
    var before, value := EVENT + (":" + "\""), Numeral(m) + ("\"" + rest);
    FirstBehind(before, PAGE_SIZE, ":" + value);
    NumeralHint(m, "\"" + rest, maxPage);
    assert "" + (":" + ("" + value)) == ":" + value;
    KeyReads(InsideText(a), before, PAGE_SIZE, "", "", value, maxPage);
    MultiplierIsFirstSeen(a, maxPage);
  }

  /** A page size written in a string argument decides the charge of the list, whatever page is
      asked for: `auditLogs(event:"pageSize:1",pageSize:100)` is charged one row and serves 100. */
  lemma StringDecidesThePage(m: nat, n: nat, defaultPageSize: int, maxPageSize: int)
    requires 1 <= m <= INT64_MAX && 1 <= n <= INT64_MAX
    ensures var a, max := Decoyed(m, n), EffectiveMax(maxPageSize);
            && ArgsOk(a) && PageArgOf(a) == Literal(n)
            && Multiplier(a, max) == (if m > max then max else m)
            && (Covers(a, defaultPageSize, maxPageSize) <==> n <= m || max <= m)
  {
    DecoyedOk(m, n);
    DecoyedMultiplier(m, n, EffectiveMax(maxPageSize));
    DecoyedPage(m, n);
    CoversLargest(Decoyed(m, n), defaultPageSize, maxPageSize);
  }

  lemma DecoyedPage(m: nat, n: nat)
    requires n <= INT64_MAX
    ensures PageArgOf(Decoyed(m, n)) == Literal(n)
  {
    var l := Decoyed(m, n).list;
    assert EVENT != PAGE_SIZE;
    assert From(l) == From(l.more) == l.more;
  }

  /** The input above, under the default configuration. */
  lemma BypassIsNotCovered(m: nat, n: nat, maxPageSize: int)
    requires m == 1 && n == 100 && maxPageSize == 100
    ensures Multiplier(Decoyed(m, n), 100) == 1 && PageSizeFor(20, maxPageSize, Some(100)) == 100
    ensures !Covers(Decoyed(m, n), 20, maxPageSize)
  {
    StringDecidesThePage(m, n, 20, maxPageSize);
  }

  /** Where the first "pageSize" in the text is not followed by a colon (it ends a variable's
      name, or starts a longer argument name), a real pageSize argument in `rest` goes unread,
      whatever page it asks for. */
  lemma EarlierOccurrenceHidesTheArgument(before: string, rest: string, maxPage: nat)
    requires Index(before + (PAGE_SIZE + rest), PAGE_SIZE) == |before|
    requires TrimLeft(rest) == [] || TrimLeft(rest)[0] != ':'
    requires NoOtherKey(before + (PAGE_SIZE + rest)) && maxPage >= 1
    ensures PageMultiplier(before + (PAGE_SIZE + rest), maxPage) == 1
  {
    var text := before + (PAGE_SIZE + rest);
    assert text[|before| + |PAGE_SIZE|..] == rest;
    NoHint(text, 1, maxPage);
    assert PAGE_KEYS[0..] == PAGE_KEYS && PAGE_KEYS[1..] == PAGE_KEYS[0..][1..];
  }

  /** A page size printed in decimal reads back as min(n, max), up to the largest 64-bit value. */
  lemma PageSizeNumeralReadsBack(n: nat, maxPage: nat)
    requires 1 <= n <= INT64_MAX && maxPage >= 1
    ensures PageMultiplier("pageSize" + (":" + Numeral(n)), maxPage) == if n > maxPage then maxPage else n
  {
    KeyAlone(PAGE_SIZE, n, maxPage);
    FirstKeyWins(PAGE_SIZE + (":" + Numeral(n)), PAGE_KEYS, maxPage);
  }

  lemma KeyInFront(key: string, value: string, maxPage: nat)
    requires value != [] && !IsSpace(value[0])
    ensures KeyHint(key + (":" + value), key, maxPage) == ValueHint(value, maxPage)
  {
    var text := key + (":" + value);
    assert text[..|key|] == key && |text| >= |key|;
    assert Index(text, key) == 0;
    assert text == "" + (key + ("" + (":" + ("" + value)))) by {
      assert "" + (":" + ("" + value)) == ":" + value;
    }
    KeyReads(text, "", key, "", "", value, maxPage);
  }

  lemma KeyAlone(key: string, n: nat, maxPage: nat)
    requires 1 <= n <= INT64_MAX
    ensures KeyHint(key + (":" + Numeral(n)), key, maxPage) == Some(if n > maxPage then maxPage else n)
  {
    NumeralHint(n, "", maxPage);
    assert Numeral(n) + "" == Numeral(n);
    KeyInFront(key, Numeral(n), maxPage);
  }

  /** A key with a letter that the text lacks is not found. */
  lemma LetterMissing(key: string, n: nat, other: string, c: char, maxPage: nat)
    requires c in other && c !in key && c != ':' && !IsDigit(c)
    ensures KeyHint(key + (":" + Numeral(n)), other, maxPage) == None
  {
    var text := key + (":" + Numeral(n));
    assert c !in text by { assert c !in Numeral(n); }
    IndexIsFirst(text, other);
  }

  lemma NextKey(text: string, k: nat, maxPage: nat)
    requires k < |PAGE_KEYS| && maxPage >= 1
    ensures FirstHint(text, PAGE_KEYS[k..], maxPage)
            == if KeyHint(text, PAGE_KEYS[k], maxPage).Some? then KeyHint(text, PAGE_KEYS[k], maxPage).value
               else FirstHint(text, PAGE_KEYS[k + 1..], maxPage)
  {
    assert PAGE_KEYS[k..][1..] == PAGE_KEYS[k + 1..];
  }

  /** The five spellings, in the order in which they are looked for. */
  lemma FiveKeys(text: string, maxPage: nat)
    requires maxPage >= 1
    ensures var camel, snake := KeyHint(text, "pageSize", maxPage), KeyHint(text, "page_size", maxPage);
            var first, last := KeyHint(text, "first", maxPage), KeyHint(text, "last", maxPage);
            var limit := KeyHint(text, "limit", maxPage);
            PageMultiplier(text, maxPage)
            == if camel.Some? then camel.value else if snake.Some? then snake.value else if first.Some? then first.value
               else if last.Some? then last.value else if limit.Some? then limit.value else 1
  {
    assert PAGE_KEYS[0..] == PAGE_KEYS;
    NextKey(text, 0, maxPage);
    NextKey(text, 1, maxPage);
    NextKey(text, 2, maxPage);
    NextKey(text, 3, maxPage);
    NextKey(text, 4, maxPage);
  }

  /** Each of the other four spellings, alone in a list, is read as min(n, max) too. */
  lemma OtherKeysReadBack(key: string, n: nat, maxPage: nat)
    requires key in {"page_size", "first", "last", "limit"} && 1 <= n <= INT64_MAX && maxPage >= 1
    ensures PageMultiplier(key + (":" + Numeral(n)), maxPage) == if n > maxPage then maxPage else n
  {
    KeyAlone(key, n, maxPage);
    FiveKeys(key + (":" + Numeral(n)), maxPage);
    EarlierKeysMissing(key, n, maxPage);
  }

  lemma EarlierKeysMissing(key: string, n: nat, maxPage: nat)
    requires key in {"page_size", "first", "last", "limit"}
    ensures KeyHint(key + (":" + Numeral(n)), "pageSize", maxPage).None?
    ensures key != "page_size" ==> KeyHint(key + (":" + Numeral(n)), "page_size", maxPage).None?
    ensures key in {"last", "limit"} ==> KeyHint(key + (":" + Numeral(n)), "first", maxPage).None?
    ensures key == "limit" ==> KeyHint(key + (":" + Numeral(n)), "last", maxPage).None?
  {
    LetterMissing(key, n, "pageSize", 'S', maxPage);
    if key != "page_size" { LetterMissing(key, n, "page_size", '_', maxPage); }
    if key in {"last", "limit"} { LetterMissing(key, n, "first", 'r', maxPage); }
    if key == "limit" { LetterMissing(key, n, "last", 'a', maxPage); }
  }

  lemma FirstKeyWins(text: string, keys: seq<string>, maxPage: nat)
    requires keys != [] && maxPage >= 1 && KeyHint(text, keys[0], maxPage).Some?
    ensures FirstHint(text, keys, maxPage) == KeyHint(text, keys[0], maxPage).value
  {
  }
}
