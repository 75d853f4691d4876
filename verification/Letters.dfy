/** Where in an argument list the analyzer finds the letters of its key (graph/complexity.go:177),
    said by the structure of the list, and what it reads there. */
module Letters {
  import opened Text
  import opened Scanner
  import opened Syntax
  import opened Meaning
  import opened Paging

  // ---- searching a text of parts ---------------------------------------------------------

  /** No occurrence of the key can run from a into b. */
  predicate Apart(a: string, b: string, key: string) {
    a == "" || b == "" || a[|a| - 1] !in key || b[0] !in key
  }

  /** The position in a + b, from the positions in a and in b. */
  function Either(i: int, n: nat, j: int): int { if i >= 0 then i else if j >= 0 then n + j else -1 }

  lemma OccursLeft(a: string, b: string, key: string, i: int)
    requires i + |key| <= |a|
    ensures OccursAt(a, key, i) <==> OccursAt(a + b, key, i)
  {
    if i >= 0 { assert (a + b)[i..i + |key|] == a[i..i + |key|]; }
  }

  lemma OccursRight(a: string, b: string, key: string, i: int)
    requires i >= |a|
    ensures OccursAt(b, key, i - |a|) <==> OccursAt(a + b, key, i)
  {
    if i + |key| <= |a| + |b| { assert (a + b)[i..i + |key|] == b[i - |a|..i - |a| + |key|]; }
  }

  lemma NoStraddle(a: string, b: string, key: string, i: int)
    requires Apart(a, b, key) && i < |a| < i + |key|
    ensures !OccursAt(a + b, key, i)
  {
    if 0 <= i && i + |key| <= |a + b| {
      var s := (a + b)[i..i + |key|];
      assert s[|a| - 1 - i] == a[|a| - 1] && s[|a| - i] == b[0];
      assert a[|a| - 1] in s && b[0] in s;
    }
  }

  lemma IndexOf(s: string, key: string, r: int)
    requires key != "" && (if r < 0 then r == -1 else OccursAt(s, key, r))
    requires forall i :: OccursAt(s, key, i) ==> 0 <= r <= i
    ensures Index(s, key) == r
  {
    IndexIsFirst(s, key);
  }

  lemma IndexOfParts(a: string, b: string, key: string)
    requires key != "" && Apart(a, b, key)
    ensures Index(a + b, key) == Either(Index(a, key), |a|, Index(b, key))
  {
    var i, j := Index(a, key), Index(b, key);
    var r := Either(i, |a|, j);
    IndexIsFirst(a, key);
    IndexIsFirst(b, key);
    if i >= 0 { OccursLeft(a, b, key, i); } else if j >= 0 { OccursRight(a, b, key, |a| + j); }
    forall k | OccursAt(a + b, key, k) ensures 0 <= r <= k {
      if k + |key| <= |a| {
        OccursLeft(a, b, key, k);
      } else if k >= |a| {
        OccursRight(a, b, key, k);
      } else {
        NoStraddle(a, b, key, k);
      }
    }
    IndexOf(a + b, key, r);
  }

  // ---- the letters in an argument list --------------------------------------------------------

  function In(s: string): int { Index(s, PAGE_SIZE) }

  /** The first letters, by the tree: in a name, in a comment, or in a value. */
  function Position(l: Arguments): int {
    if l.NoArguments? then -1
    else
      Either(In(l.name), |l.name|,
        Either(In(GapText(l.space)), |GapText(l.space)|,
          Either(-1, 1,
            Either(In(GapText(l.lead)), |GapText(l.lead)|,
              Either(In(ValueText(l.value)), |ValueText(l.value)|,
                Either(In(GapText(l.after)), |GapText(l.after)|, Position(l.more)))))))
  }

  predicate IsLetter(c: char) { c in PAGE_SIZE }

  lemma {:induction false} GapEnds(g: Gap)
    requires GapOk(g) && !g.Tight?
    ensures var t := GapText(g); t != "" && !IsLetter(t[0]) && !IsLetter(t[|t| - 1])
    decreases g
  {
    var t := GapText(g);
    var more := GapText(g.more);
    if !g.more.Tight? { GapEnds(g.more); }
    if g.Blank? {
      assert t == [g.c] + more;
    } else {
      assert t == "#" + (g.text + ("\n" + more));
      assert t[|t| - 1] == if more == "" then '\n' else more[|more| - 1];
    }
  }

  /** A value that nothing runs into ends in a quote or a bracket. */
  lemma ValueEnds(v: Value)
    requires ValueOk(v) && !Runs(v)
    ensures var t := ValueText(v); t != "" && !IsLetter(t[|t| - 1])
  {
    var t := ValueText(v);
    match v
    case Str(chars) => assert t[|t| - 1] == '"';
    case Block(text) => assert t[|t| - 1] == '"';
    case List(lead, items) => assert t[|t| - 1] == ']';
    case Object(lead, members) => assert t[|t| - 1] == '}';
  }

  lemma NothingInColon()
    ensures In(":") == -1
  {
    NeverOccurs(":", PAGE_SIZE);
  }

  /** The parts of one argument, from its value on. */
  lemma ValueParts(l: Arguments)
    requires l.Argument? && ArgumentsOk(l)
    ensures In(ValueText(l.value) + (GapText(l.after) + ArgumentsText(l.more)))
            == Either(In(ValueText(l.value)), |ValueText(l.value)|,
                 Either(In(GapText(l.after)), |GapText(l.after)|, In(ArgumentsText(l.more))))
  {
    var v, after, more := ValueText(l.value), GapText(l.after), ArgumentsText(l.more);
    if l.after.Tight? {
      assert after + more == more;
      if l.more.Argument? { ValueEnds(l.value); }
    } else {
      GapEnds(l.after);
      assert (after + more)[0] == after[0];
    }
    IndexOfParts(after, more, PAGE_SIZE);
    IndexOfParts(v, after + more, PAGE_SIZE);
  }

  /** A gap in front of any text keeps the two apart. */
  lemma GapParts(g: Gap, rest: string)
    requires GapOk(g)
    ensures In(GapText(g) + rest) == Either(In(GapText(g)), |GapText(g)|, In(rest))
  {
    if !g.Tight? { GapEnds(g); }
    IndexOfParts(GapText(g), rest, PAGE_SIZE);
  }

  lemma NameParts(l: Arguments, rest: string)
    requires l.Argument? && ArgumentsOk(l)
    ensures In(l.name + (GapText(l.space) + (":" + rest)))
            == Either(In(l.name), |l.name|,
                 Either(In(GapText(l.space)), |GapText(l.space)|, Either(-1, 1, In(rest))))
  {
    var colon := ":" + rest;
    NothingInColon();
    IndexOfParts(":", rest, PAGE_SIZE);
    GapParts(l.space, colon);
    if l.space.Tight? {
      assert GapText(l.space) + colon == colon;
    } else {
      GapEnds(l.space);
      assert (GapText(l.space) + colon)[0] == GapText(l.space)[0];
    }
    IndexOfParts(l.name, GapText(l.space) + colon, PAGE_SIZE);
  }

  /** The letters the analyzer finds stand where the tree says: inside one name, one comment or
      one value. They never run from one part of the list into the next. */
  lemma {:induction false} LettersStandInOnePart(l: Arguments)
    requires ArgumentsOk(l)
    ensures In(ArgumentsText(l)) == Position(l)
    decreases l
  {
    if l.Argument? {
      LettersStandInOnePart(l.more);
      ValueParts(l);
      GapParts(l.lead, ValueText(l.value) + (GapText(l.after) + ArgumentsText(l.more)));
      NameParts(l, GapText(l.lead) + (ValueText(l.value) + (GapText(l.after) + ArgumentsText(l.more))));
    }
  }

  // ---- letters in the name of another argument ------------------------------------------------

  /** The list from the first argument that holds the letters in its name, when none before it
      holds them anywhere. */
  function Bearer(l: Arguments): Arguments {
    if l.NoArguments? || In(l.name) >= 0 then l
    else if Elsewhere(l) then NoArguments
    else Bearer(l.more)
  }

  /** Letters in the argument, but not in its name. */
  predicate Elsewhere(l: Arguments)
    requires l.Argument?
  {
    In(GapText(l.space)) >= 0 || In(GapText(l.lead)) >= 0 || In(ValueText(l.value)) >= 0 || In(GapText(l.after)) >= 0
  }

  function Ahead(l: Arguments): string {
    if l.NoArguments? || In(l.name) >= 0 || Elsewhere(l) then ""
    else
      l.name + (GapText(l.space) + (":" + (GapText(l.lead) + (ValueText(l.value) + (GapText(l.after) + Ahead(l.more))))))
  }

  /** The length of an argument without the ones behind it. */
  function Width(l: Arguments): nat
    requires l.Argument?
  {
    |l.name| + |GapText(l.space)| + 1 + |GapText(l.lead)| + |ValueText(l.value)| + |GapText(l.after)|
  }

  lemma PositionSkips(l: Arguments)
    requires l.Argument? && In(l.name) < 0 && !Elsewhere(l)
    ensures Position(l) == if Position(l.more) < 0 then -1 else Width(l) + Position(l.more)
  {
  }

  lemma AheadSkips(l: Arguments)
    requires l.Argument? && In(l.name) < 0 && !Elsewhere(l)
    ensures |Ahead(l)| == Width(l) + |Ahead(l.more)|
  {
  }

  lemma {:induction false} PositionAtBearer(l: Arguments)
    requires Bearer(l).Argument?
    ensures In(Bearer(l).name) >= 0 && Position(l) == |Ahead(l)| + In(Bearer(l).name)
    ensures ArgumentsOk(l) ==> ArgumentsOk(Bearer(l))
    decreases l
  {
    if In(l.name) < 0 {
      PositionAtBearer(l.more);
      PositionSkips(l);
      AheadSkips(l);
    }
  }

  lemma {:induction false} SplitsAtBearer(l: Arguments)
    requires Bearer(l).Argument?
    ensures ArgumentsText(l) == Ahead(l) + ArgumentsText(Bearer(l))
    decreases l
  {
    if In(l.name) >= 0 {
      assert "" + ArgumentsText(l) == ArgumentsText(l);
    } else {
      SplitsAtBearer(l.more);
      Regroup(l.name, GapText(l.space), ":", GapText(l.lead), ValueText(l.value), GapText(l.after),
              Ahead(l.more), ArgumentsText(Bearer(l)));
    }
  }

  lemma NameSplits(name: string, o: nat, rest: string)
    requires o + |PAGE_SIZE| <= |name| && name[o..o + |PAGE_SIZE|] == PAGE_SIZE
    ensures name + rest == name[..o] + (PAGE_SIZE + (name[o + |PAGE_SIZE|..] + rest))
  {
    assert name == name[..o] + (name[o..o + |PAGE_SIZE|] + name[o + |PAGE_SIZE|..]);
  }

  /** What stands behind the letters in a name. */
  function Behind(l: Arguments): string
    requires l.Argument? && In(l.name) >= 0
  {
    l.name[In(l.name) + |PAGE_SIZE|..]
  }

  /** The text of an argument behind its name. */
  function AfterName(l: Arguments): string
    requires l.Argument?
  {
    GapText(l.space) + (":" + (GapText(l.lead) + (ValueText(l.value) + (GapText(l.after) + ArgumentsText(l.more)))))
  }

  lemma BearerPosition(a: Args)
    requires ArgsOk(a) && a.Listed? && In(GapText(a.lead)) < 0 && Bearer(a.list).Argument?
    ensures ArgumentsOk(Bearer(a.list)) && In(Bearer(a.list).name) >= 0
    ensures In(InsideText(a)) == |GapText(a.lead)| + |Ahead(a.list)| + In(Bearer(a.list).name)
  {
    PositionAtBearer(a.list);
    LettersStandInOnePart(a.list);
    GapParts(a.lead, ArgumentsText(a.list));
  }

  lemma BearerText(a: Args) returns (before: string)
    requires ArgsOk(a) && a.Listed? && In(GapText(a.lead)) < 0 && Bearer(a.list).Argument?
    ensures var b := Bearer(a.list);
            && ArgumentsOk(b) && In(b.name) >= 0
            && InsideText(a) == before + (PAGE_SIZE + (Behind(b) + AfterName(b))) && In(InsideText(a)) == |before|
  {
    var b := Bearer(a.list);
    BearerPosition(a);
    SplitsAtBearer(a.list);
    IndexIsFirst(b.name, PAGE_SIZE);
    before := Surround(GapText(a.lead), Ahead(a.list), b.name, In(b.name), AfterName(b));
  }

  lemma Surround(lead: string, ahead: string, name: string, o: nat, rest: string) returns (before: string)
    requires o + |PAGE_SIZE| <= |name| && name[o..o + |PAGE_SIZE|] == PAGE_SIZE
    ensures lead + (ahead + (name + rest)) == before + (PAGE_SIZE + (name[o + |PAGE_SIZE|..] + rest))
    ensures |before| == |lead| + |ahead| + o
  {
    var tail := PAGE_SIZE + (name[o + |PAGE_SIZE|..] + rest);
    NameSplits(name, o, rest);
    before := lead + (ahead + name[..o]);
    Associative(ahead, name[..o], tail);
    Associative(lead, ahead + name[..o], tail);
  }

  lemma NoColonUnread(text: string, before: string, rest: string, maxPage: nat)
    requires text == before + (PAGE_SIZE + rest) && In(text) == |before|
    requires rest != "" && !IsSpace(rest[0]) && rest[0] != ':'
    ensures KeyHint(text, PAGE_SIZE, maxPage) == None
  {
    assert text[|before| + |PAGE_SIZE|..] == rest;
    SpaceSpan("", rest);
    assert "" + rest == rest;
  }

  /** Letters in the middle of a name are not read. Letters at the end of a name, be it the page
      argument's own or a longer one, make that argument's value count as the page size. */
  lemma NameDecides(a: Args, maxPage: nat)
    requires ArgsOk(a) && a.Listed? && In(GapText(a.lead)) < 0 && Bearer(a.list).Argument?
    ensures var b := Bearer(a.list);
            && In(b.name) >= 0
            && (Behind(b) != "" ==> KeyHint(InsideText(a), PAGE_SIZE, maxPage) == None)
            && (Behind(b) == "" && AllSpace(GapText(b.space)) && AllSpace(GapText(b.lead)) && !ValueArg(b.value).Rejected? ==>
                  KeyHint(InsideText(a), PAGE_SIZE, maxPage) == ArgHint(ValueArg(b.value), maxPage))
  {
    var b := Bearer(a.list);
    var before := BearerText(a);
    var rest := AfterName(b);
    if Behind(b) != "" {
      var c := Behind(b)[0];
      assert c == b.name[In(b.name) + |PAGE_SIZE|] && ContinuesName(c);
      assert (Behind(b) + rest)[0] == c;
      NoColonUnread(InsideText(a), before, Behind(b) + rest, maxPage);
    } else if AllSpace(GapText(b.space)) && AllSpace(GapText(b.lead)) && !ValueArg(b.value).Rejected? {
      var tail := GapText(b.after) + ArgumentsText(b.more);
      NoDigitBehind(b.after, b.more);
      ValueReads(b.value, tail, maxPage);
      assert (ValueText(b.value) + tail)[0] == ValueText(b.value)[0];
      assert Behind(b) + rest == rest;
      KeyReads(InsideText(a), before, PAGE_SIZE, GapText(b.space), GapText(b.lead), ValueText(b.value) + tail, maxPage);
    }
  }

  /** So where the first letters end the name of another argument with a readable value, the page
      is covered exactly when that value is as large. */
  lemma CoversByAnotherName(a: Args, defaultPageSize: int, maxPageSize: int)
    requires ArgsOk(a) && a.Listed? && In(GapText(a.lead)) < 0 && Bearer(a.list).Argument? && !PageArgOf(a).Rejected?
    requires var b := Bearer(a.list);
             && In(b.name) >= 0 && Behind(b) == "" && AllSpace(GapText(b.space)) && AllSpace(GapText(b.lead))
             && Asks(ValueArg(b.value))
    ensures Covers(a, defaultPageSize, maxPageSize)
            <==> LargestPage(PageArgOf(a), defaultPageSize, maxPageSize)
                 <= ArgHint(ValueArg(Bearer(a.list).value), EffectiveMax(maxPageSize)).value
  {
    var max := EffectiveMax(maxPageSize);
    NameDecides(a, max);
    MultiplierIsFirstSeen(a, max);
    CoversLargest(a, defaultPageSize, maxPageSize);
  }
}
