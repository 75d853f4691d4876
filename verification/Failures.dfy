/** Inputs at which the code parts from its description, one for each condition proved elsewhere. */
module Failures {
  import opened Text
  import opened Scanner
  import opened Syntax
  import opened Meaning
  import opened Paging
  import opened Costs
  import opened Analyzer
  import opened Panics
  import opened Execution
  import Encoding
  import SignedPath
  import SignedQuery

  // ---- an untidy document -----------------------------------------------------------------

  const FIRST: string := "first"
  const ID: string := "id"
  const DEACTIVATE: string := "deactivateApiKey"
  const EXPORT: string := "requestUsageExport"

  /** `(id:"first:h")`, the argument of a leaf. */
  function IdArgs(h: nat): Args {
    Listed(Tight, Argument(ID, Tight, Tight, Str(RawChars(FIRST + (":" + Numeral(h)))), Tight, NoArguments),
           Blank(' ', Tight))
  }

  function Leafy(name: string, args: Args): Field { Field(NoAlias, name, Tight, args, Leaf) }

  function Branch(name: string, inner: Fields): Field { Field(NoAlias, name, Tight, NoArgs, Body(Tight, inner, Tight)) }

  /** `mutation{deactivateApiKey(id:"first:h") requestUsageExport{id}}` */
  function Untidy(h: nat): Document {
    Next(Operation(Keyword("mutation", Tight), NoArgs, Tight,
                   Then(Leafy(DEACTIVATE, IdArgs(h)),
                        Then(Branch(EXPORT, Then(Leafy(ID, NoArgs), NoFields)), NoFields)), Tight),
         NoOperations)
  }

  lemma IdArgsOk(h: nat)
    ensures ArgsOk(IdArgs(h))
  {
    var inner := FIRST + (":" + Numeral(h));
    forall k | 0 <= k < |inner| ensures inner[k] != '"' && inner[k] != '\\' {
      if k > |FIRST| { assert inner[k] == Numeral(h)[k - |FIRST| - 1]; }
    }
    assert IsName(ID);
    assert GapText(Tight) == "";
  }

  lemma IdArgsText(h: nat)
    ensures InsideText(IdArgs(h)) == (ID + (":" + "\"")) + (FIRST + (":" + (Numeral(h) + "\"")))
  {
    var l := IdArgs(h).list;
    TightArgument(ID, l.value, Tight, NoArguments);
    assert GapText(Tight) + ArgumentsText(NoArguments) == "";
    DecoyGroup(ID, ":", "\"", FIRST, Numeral(h), "");
    assert "\"" + "" == "\"";
    assert GapText(Tight) + ArgumentsText(l) == ArgumentsText(l);
  }

  lemma NoPageKey(h: nat)
    ensures 'p' !in InsideText(IdArgs(h))
  {
    IdArgsText(h);
    var text, before, digits := InsideText(IdArgs(h)), ID + (":" + "\""), Numeral(h);
    forall k | 0 <= k < |text| ensures text[k] != 'p' {
      if k < 4 {
        assert text[k] == before[k];
      } else if k < 9 {
        assert text[k] == FIRST[k - 4];
      } else if 10 <= k < 10 + |digits| {
        assert text[k] == digits[k - 10] && IsDigit(digits[k - 10]);
      }
    }
  }

  /** A key that does not occur is passed over. */
  lemma SkipKey(text: string, keys: seq<string>, maxPage: nat)
    requires keys != [] && Index(text, keys[0]) < 0 && maxPage >= 1
    ensures FirstHint(text, keys, maxPage) == FirstHint(text, keys[1..], maxPage)
  {
  }

  lemma ThirdKeyLeft(text: string, maxPage: nat)
    requires 'p' !in text && maxPage >= 1
    ensures PageMultiplier(text, maxPage) == FirstHint(text, PAGE_KEYS[2..], maxPage)
  {
    NeverOccurs(text, PAGE_KEYS[0]);
    NeverOccurs(text, PAGE_KEYS[1]);
    SkipKey(text, PAGE_KEYS, maxPage);
    SkipKey(text, PAGE_KEYS[1..], maxPage);
    assert PAGE_KEYS[1..][1..] == PAGE_KEYS[2..];
  }

  lemma FirstIsRead(before: string, value: string, maxPage: nat)
    requires FIRST[0] !in before && value != [] && !IsSpace(value[0])
    ensures KeyHint(before + (FIRST + (":" + value)), FIRST, maxPage) == ValueHint(value, maxPage)
  {
    FirstBehind(before, FIRST, ":" + value);
    assert "" + (":" + ("" + value)) == ":" + value;
    KeyReads(before + (FIRST + (":" + value)), before, FIRST, "", "", value, maxPage);
  }

  lemma IdArgsMultiply(h: nat, maxPage: nat)
    requires 1 <= h <= INT64_MAX && maxPage >= 1
    ensures Multiplier(IdArgs(h), maxPage) == if h > maxPage then maxPage else h
  {
    var text, before, value := InsideText(IdArgs(h)), ID + (":" + "\""), Numeral(h) + "\"";
    IdArgsText(h);
    NoPageKey(h);
    ThirdKeyLeft(text, maxPage);
    NumeralHint(h, "\"", maxPage);
    FirstIsRead(before, value, maxPage);
    assert PAGE_KEYS[2..][0] == FIRST;
    FirstKeyWins(text, PAGE_KEYS[2..], maxPage);
  }

  lemma PairOk(f: Field, g: Field)
    requires FieldOk(f) && FieldOk(g) && !EndsInName(f)
    ensures FieldsOk(Then(f, Then(g, NoFields)))
  {
    assert FieldsOk(Then(g, NoFields));
  }

  lemma LeafyOk(name: string, args: Args)
    requires IsName(name) && !IsKeyword(name) && ArgsOk(args)
    ensures FieldOk(Leafy(name, args)) && FieldsOk(Then(Leafy(name, args), NoFields))
  {
  }

  lemma BranchOk(name: string, inner: Fields)
    requires IsName(name) && !IsKeyword(name) && FieldsOk(inner)
    ensures FieldOk(Branch(name, inner)) && FieldsOk(Then(Branch(name, inner), NoFields))
  {
  }

  lemma LeafyMeasures(name: string, args: Args, m: nat, p: nat, maxPage: nat)
    requires maxPage >= 1
    ensures var f := Leafy(name, args);
            && FieldCharge(f, m, p, maxPage) == FieldCost(f, m, maxPage) == m
            && Charge(Then(f, NoFields), m, p, maxPage) == Cost(Then(f, NoFields), m, maxPage) == m
            && FieldLeaves(f, p, maxPage) == if args.NoArgs? then p else Multiplier(args, maxPage)
  {
    assert Charge(NoFields, m, FieldLeaves(Leafy(name, args), p, maxPage), maxPage) == 0;
  }

  lemma BranchMeasures(name: string, inner: Fields, m: nat, p: nat, maxPage: nat)
    requires maxPage >= 1
    ensures FieldCharge(Branch(name, inner), m, p, maxPage) == m + Charge(inner, m * p, 1, maxPage)
    ensures FieldCost(Branch(name, inner), m, maxPage) == m + Cost(inner, m, maxPage)
  {
    assert m * 1 == m;
  }

  lemma PairMeasures(f: Field, g: Field, m: nat, p: nat, maxPage: nat)
    requires maxPage >= 1
    ensures var fs := Then(f, Then(g, NoFields));
            && Charge(fs, m, p, maxPage) == FieldCharge(f, m, p, maxPage) + FieldCharge(g, m, FieldLeaves(f, p, maxPage), maxPage)
            && Cost(fs, m, maxPage) == FieldCost(f, m, maxPage) + FieldCost(g, m, maxPage)
  {
    var rest, left := Then(g, NoFields), FieldLeaves(f, p, maxPage);
    assert Charge(rest, m, left, maxPage) == FieldCharge(g, m, left, maxPage);
    assert Cost(rest, m, maxPage) == FieldCost(g, m, maxPage);
  }

  lemma OneOperation(o: Operation, maxPage: nat)
    requires maxPage >= 1 && o.variables.NoArgs?
    ensures var d := Next(o, NoOperations);
            && DocumentCharge(d, maxPage) == Charge(o.fields, 1, 1, maxPage)
            && DocumentCost(d, maxPage) == Cost(o.fields, 1, maxPage)
  {
    assert DocumentCharge(NoOperations, maxPage) == 0 && DocumentCost(NoOperations, maxPage) == 0;
  }

  lemma NamesOk()
    ensures IsName(DEACTIVATE) && IsName(EXPORT) && IsName(ID)
    ensures !IsKeyword(DEACTIVATE) && !IsKeyword(EXPORT) && !IsKeyword(ID)
  {
    assert |DEACTIVATE| == 16 && |EXPORT| == 18 && |ID| == 2 && ID[0] == 'i';
  }

  lemma UntidyOk(h: nat)
    ensures DocumentOk(Untidy(h))
  {
    IdArgsOk(h);
    NamesOk();
    LeafyOk(DEACTIVATE, IdArgs(h));
    LeafyOk(ID, NoArgs);
    var inner := Then(Leafy(ID, NoArgs), NoFields);
    BranchOk(EXPORT, inner);
    PairOk(Leafy(DEACTIVATE, IdArgs(h)), Branch(EXPORT, inner));
    var o := Untidy(h).first;
    assert FieldsOk(o.fields) && OperationOk(o) && DocumentOk(NoOperations);
  }

  /** The string of a leaf's argument multiplies what its sibling selects: three fields are
      charged 2 + h. */
  lemma UntidyIsOvercharged(h: nat, maxPage: nat)
    requires 2 <= h <= maxPage && h <= INT64_MAX
    ensures DocumentOk(Untidy(h)) && !DocumentTidy(Untidy(h), maxPage)
    ensures DocumentCharge(Untidy(h), maxPage) == 2 + h && DocumentCost(Untidy(h), maxPage) == 3
  {
    var inner := Then(Leafy(ID, NoArgs), NoFields);
    var f, g := Leafy(DEACTIVATE, IdArgs(h)), Branch(EXPORT, inner);
    UntidyOk(h);
    IdArgsMultiply(h, maxPage);
    LeafyMeasures(DEACTIVATE, IdArgs(h), 1, 1, maxPage);
    LeafyMeasures(ID, NoArgs, 1 * h, 1, maxPage);
    LeafyMeasures(ID, NoArgs, 1, 1, maxPage);
    BranchMeasures(EXPORT, inner, 1, h, maxPage);
    PairMeasures(f, g, 1, 1, maxPage);
    OneOperation(Untidy(h).first, maxPage);
    DocumentChargeExact(Untidy(h), maxPage);
  }

  // ---- a list that is not paged --------------------------------------------------------------

  const API_KEYS: string := "apiKeys"
  const NAME: string := "name"

  /** `{apiKeys{id name}}` */
  function KeyList(): Document {
    Next(Operation(Shorthand, NoArgs, Tight, Then(KeyField(), NoFields), Tight), NoOperations)
  }

  function KeyField(): Field { Branch(API_KEYS, IdAndName()) }

  function IdAndName(): Fields {
    Then(Field(NoAlias, ID, Blank(' ', Tight), NoArgs, Leaf), Then(Leafy(NAME, NoArgs), NoFields))
  }

  lemma KeyListOk()
    ensures DocumentOk(KeyList())
  {
    assert IsName(API_KEYS) && IsName(ID) && IsName(NAME) && GapOk(Blank(' ', Tight));
    var id := Field(NoAlias, ID, Blank(' ', Tight), NoArgs, Leaf);
    LeafyOk(NAME, NoArgs);
    assert FieldOk(id) && !EndsInName(id);
    PairOk(id, Leafy(NAME, NoArgs));
    BranchOk(API_KEYS, IdAndName());
    assert OperationOk(KeyList().first) && DocumentOk(NoOperations);
  }

  lemma KeyListMeasures(maxPage: nat)
    requires maxPage >= 1
    ensures DocumentCharge(KeyList(), maxPage) == DocumentCost(KeyList(), maxPage) == 3
    ensures Honest(IdAndName(), maxPage) && Cost(IdAndName(), 1, maxPage) == 2
  {
    var id, name := Field(NoAlias, ID, Blank(' ', Tight), NoArgs, Leaf), Leafy(NAME, NoArgs);
    assert FieldCharge(id, 1, 1, maxPage) == 1 && FieldCost(id, 1, maxPage) == 1 && FieldLeaves(id, 1, maxPage) == 1;
    LeafyMeasures(NAME, NoArgs, 1, 1, maxPage);
    PairMeasures(id, name, 1, 1, maxPage);
    BranchMeasures(API_KEYS, IdAndName(), 1, 1, maxPage);
    assert 1 * 1 == 1;
    var field := Branch(API_KEYS, IdAndName());
    assert Charge(Then(field, NoFields), 1, 1, maxPage) == FieldCharge(field, 1, 1, maxPage);
    assert Cost(Then(field, NoFields), 1, maxPage) == FieldCost(field, 1, maxPage);
    OneOperation(KeyList().first, maxPage);
    assert HonestArgs(NoArgs, maxPage) && Honest(NoFields, maxPage);
    assert Honest(Then(name, NoFields), maxPage);
  }

  /** A tenant with n keys: three are charged and 1 + 2n are resolved. */
  lemma KeyListOverruns(n: nat, cfg: Pages) returns (t: Trace)
    ensures DocumentOk(KeyList()) && DocumentCharge(KeyList(), EffectiveMax(cfg.maxSize)) == 3
    ensures t.served == Listing(n) && Serves(KeyField(), t, 1, cfg) && Resolutions(t) == 1 + 2 * n
  {
    KeyListOk();
    KeyListMeasures(EffectiveMax(cfg.maxSize));
    t := Overrun(KeyField(), Listing(n), cfg);
    assert n * 2 == 2 * n;
  }

  // ---- signing ---------------------------------------------------------------------------------

  const SPACED: Encoding.Bytes := "a b"

  /** A bucket name with a blank, in path style: what is signed is not what is sent. */
  lemma SpacedBucketMismatches(key: Encoding.Bytes)
    ensures SignedPath.CanonicalPath(SignedPath.ObjectPath(Some(SPACED), key)) != SignedPath.ObjectPath(Some(SPACED), key)
  {
    assert SPACED[1..][0] == ' ';
    assert !Encoding.IsEncoded(SPACED[1..], true);
    assert !Encoding.IsEncoded(SPACED, true);
    SignedPath.SignedPathIsSentPath(Some(SPACED), key);
  }

  /** A URL that was presigned before: the receiver takes out both signatures, while one of them
      was signed. */
  lemma PresignedTwiceMismatches(earlier: Encoding.Bytes, credential: Encoding.Bytes, date: Encoding.Bytes, seconds: int,
                                 token: Encoding.Bytes, order: seq<Encoding.Bytes>, signature: Encoding.Bytes,
                                 emittedOrder: seq<Encoding.Bytes>)
    requires var v := SignedQuery.SignedValues(map[SignedQuery.SIGNATURE := [earlier]], credential, date, seconds, token);
             SignedQuery.IsOrder(v, order) && SignedQuery.IsOrder(SignedQuery.WithSignature(v, signature), emittedOrder)
    ensures var v := SignedQuery.SignedValues(map[SignedQuery.SIGNATURE := [earlier]], credential, date, seconds, token);
            var read := SignedQuery.ReadQuery(SignedQuery.CanonicalQueryOf(SignedQuery.WithSignature(v, signature), emittedOrder));
            && read.Some?
            && SignedQuery.Render(SignedQuery.Without(read.value, SignedQuery.SIGNATURE)) != SignedQuery.CanonicalQueryOf(v, order)
  {
    var q: SignedQuery.Values := map[SignedQuery.SIGNATURE := [earlier]];
    assert SignedQuery.SIGNATURE in q && q[SignedQuery.SIGNATURE] != [];
    SignedQuery.PresignedQueryReadsBack(q, credential, date, seconds, token, order, signature, emittedOrder);
  }

  // ---- a panic ---------------------------------------------------------------------------------

  /** `{a(` ends in a parenthesis that stands in open text. */
  lemma UnclosedListPanics(text: string, maxPageSize: int)
    requires text == "{a("
    ensures Analyzed(text, maxPageSize).None?
  {
    assert text[0] == '{' && text[1] == 'a' && text[2] == '(';
    PlainMode(text, 0, 2);
    PanicsExactly(text, maxPageSize);
  }
}
