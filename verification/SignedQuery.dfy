/** The canonical query string and query presigning (pkg/awssig/sigv4.go). */
module Sorting {
  import opened Encoding

  /** Go's order on strings: bytewise, shorter first. */
  predicate Leq(a: Bytes, b: Bytes) {
    a == [] || (b != [] && (a[0] < b[0] || (a[0] == b[0] && Leq(a[1..], b[1..]))))
  }

  lemma {:induction false} LeqTotal(a: Bytes, b: Bytes)
    ensures Leq(a, b) || Leq(b, a)
  {
    if a != [] && b != [] && a[0] == b[0] { LeqTotal(a[1..], b[1..]); }
  }

  lemma {:induction false} LeqAntisymmetric(a: Bytes, b: Bytes)
    requires Leq(a, b) && Leq(b, a)
    ensures a == b
  {
    if a != [] {
      LeqAntisymmetric(a[1..], b[1..]);
      assert a == [a[0]] + a[1..] && b == [b[0]] + b[1..];
    }
  }

  lemma {:induction false} LeqTransitive(a: Bytes, b: Bytes, c: Bytes)
    requires Leq(a, b) && Leq(b, c)
    ensures Leq(a, c)
  {
    if a != [] && a[0] == b[0] && b[0] == c[0] { LeqTransitive(a[1..], b[1..], c[1..]); }
  }

  predicate Sorted(s: seq<Bytes>) { forall i, j :: 0 <= i < j < |s| ==> Leq(s[i], s[j]) }

  function Insert(x: Bytes, s: seq<Bytes>): (r: seq<Bytes>)
    ensures multiset(r) == multiset(s) + multiset{x}
  {
    if s == [] then [x]
    else if Leq(x, s[0]) then [x] + s
    else
      assert s == [s[0]] + s[1..];
      [s[0]] + Insert(x, s[1..])
  }

  /** sort.Strings. */
  function Sort(s: seq<Bytes>): (r: seq<Bytes>)
    ensures multiset(r) == multiset(s)
  {
    if s == [] then []
    else
      assert s == [s[0]] + s[1..];
      Insert(s[0], Sort(s[1..]))
  }

  lemma {:induction false} InsertSorted(x: Bytes, s: seq<Bytes>)
    requires Sorted(s)
    ensures Sorted(Insert(x, s))
  {
    if s != [] {
      if Leq(x, s[0]) {
        forall j | 0 <= j < |s| ensures Leq(x, s[j]) { if j > 0 { LeqTransitive(x, s[0], s[j]); } }
      } else {
        LeqTotal(x, s[0]);
        InsertSorted(x, s[1..]);
        var t := Insert(x, s[1..]);
        forall j | 0 <= j < |t| ensures Leq(s[0], t[j]) {
          assert t[j] in multiset(t);
          if t[j] != x { assert t[j] in s[1..]; }
        }
      }
    }
  }

  lemma {:induction false} SortSorts(s: seq<Bytes>)
    ensures Sorted(Sort(s))
  {
    if s != [] {
      SortSorts(s[1..]);
      InsertSorted(s[0], Sort(s[1..]));
    }
  }

  lemma SortedHeads(a: seq<Bytes>, b: seq<Bytes>)
    requires Sorted(a) && Sorted(b) && multiset(a) == multiset(b) && a != [] && b != []
    ensures a[0] == b[0]
  {
    assert a[0] in multiset(b) && b[0] in multiset(a);
    var i :| 0 <= i < |b| && b[i] == a[0];
    var j :| 0 <= j < |a| && a[j] == b[0];
    if i > 0 && j > 0 { LeqAntisymmetric(a[0], b[0]); }
  }

  /** A multiset has one sorted enumeration. */
  lemma {:induction false} SortedUnique(a: seq<Bytes>, b: seq<Bytes>)
    requires Sorted(a) && Sorted(b) && multiset(a) == multiset(b)
    ensures a == b
  {
    assert |a| == |multiset(a)| == |multiset(b)| == |b|;
    if a != [] {
      SortedHeads(a, b);
      assert a == [a[0]] + a[1..] && b == [b[0]] + b[1..];
      assert multiset(a[1..]) == multiset(a) - multiset{a[0]} == multiset(b[1..]);
      SortedUnique(a[1..], b[1..]);
    }
  }

  lemma SortIgnoresOrder(a: seq<Bytes>, b: seq<Bytes>)
    requires multiset(a) == multiset(b)
    ensures Sort(a) == Sort(b)
  {
    SortSorts(a);
    SortSorts(b);
    SortedUnique(Sort(a), Sort(b));
  }
}

module SignedQuery {
  import opened Text
  import opened Encoding
  import opened SignedPath
  import opened Sorting

  /** url.Values: a map, so without an order, from keys to value lists. */
  type Values = map<Bytes, seq<Bytes>>
  type Pair = (Bytes, Bytes)

  /** An order in which a map may be iterated. */
  predicate IsOrder(q: Values, order: seq<Bytes>) { multiset(order) == multiset(q.Keys) }

  function ValuePairs(k: Bytes, vs: seq<Bytes>): (r: seq<Pair>)
    ensures |r| == |vs| && forall i :: 0 <= i < |vs| ==> r[i] == (k, vs[i])
  {
    if vs == [] then [] else [(k, vs[0])] + ValuePairs(k, vs[1..])
  }

  /** The pairs under the listed keys, each key's values sorted. */
  function PairsFor(q: Values, keys: seq<Bytes>): seq<Pair>
    requires forall k :: k in keys ==> k in q
  {
    if keys == [] then [] else ValuePairs(keys[0], Sort(q[keys[0]])) + PairsFor(q, keys[1..])
  }

  function PairText(p: Pair): Bytes { Encode(p.0, false) + (['='] + Encode(p.1, false)) }

  function Texts(pairs: seq<Pair>): (r: seq<Bytes>)
    ensures |r| == |pairs| && forall i :: 0 <= i < |pairs| ==> r[i] == PairText(pairs[i])
  {
    seq(|pairs|, i requires 0 <= i < |pairs| => PairText(pairs[i]))
  }

  function Render(pairs: seq<Pair>): Bytes { Join(Texts(pairs), '&') }

  lemma OrderKeys(q: Values, order: seq<Bytes>)
    requires IsOrder(q, order)
    ensures forall k :: k in Sort(order) <==> k in q
  {
    forall k ensures k in Sort(order) <==> k in q {
      assert k in Sort(order) <==> k in multiset(Sort(order));
      assert k in multiset(q.Keys) <==> k in q.Keys;
    }
  }

  function Pairs(q: Values, order: seq<Bytes>): seq<Pair>
    requires IsOrder(q, order)
  {
    OrderKeys(q, order);
    PairsFor(q, Sort(order))
  }

  function CanonicalQueryOf(q: Values, order: seq<Bytes>): Bytes
    requires IsOrder(q, order)
  {
    Render(Pairs(q, order))
  }

  lemma {:induction false} PairsForConcat(q: Values, a: seq<Bytes>, b: seq<Bytes>)
    requires forall k :: k in a ==> k in q
    requires forall k :: k in b ==> k in q
    ensures forall k :: k in a + b ==> k in q
    ensures PairsFor(q, a + b) == PairsFor(q, a) + PairsFor(q, b)
  {
    if a == [] {
      assert a + b == b;
      assert PairsFor(q, a) == [];
    } else {
      var rest: seq<Bytes> := a[1..];
      var all: seq<Bytes> := a + b;
      assert all[0] == a[0] && all[1..] == rest + b;
      PairsForConcat(q, rest, b);
      Associative(ValuePairs(a[0], Sort(q[a[0]])), PairsFor(q, rest), PairsFor(q, b));
    }
  }

  lemma OneMoreText(pairs: seq<Pair>, vs: seq<Pair>, j: nat)
    requires j < |vs|
    ensures Texts(pairs + vs[..j + 1]) == Texts(pairs + vs[..j]) + [PairText(vs[j])]
  {
  }

  /** The inner loop: one encoded pair per value. */
  method AppendValues(k: Bytes, vs: seq<Bytes>, texts: seq<Bytes>, ghost pairs: seq<Pair>) returns (r: seq<Bytes>)
    requires texts == Texts(pairs)
    ensures r == Texts(pairs + ValuePairs(k, vs))
  {
    r := texts;
    for j := 0 to |vs|
      invariant r == Texts(pairs + ValuePairs(k, vs)[..j])
    {
      var ek := UriEncode(k, true);
      var ev := UriEncode(vs[j], true);
      r := r + [ek + (['='] + ev)];
      OneMoreText(pairs, ValuePairs(k, vs), j);
    }
    assert ValuePairs(k, vs)[..|vs|] == ValuePairs(k, vs);
  }

  lemma PairsForStep(q: Values, keys: seq<Bytes>, i: nat)
    requires (forall k :: k in keys ==> k in q) && i < |keys|
    ensures PairsFor(q, keys[..i + 1]) == PairsFor(q, keys[..i]) + ValuePairs(keys[i], Sort(q[keys[i]]))
  {
    var single: seq<Bytes> := [keys[i]];
    assert keys[..i + 1] == keys[..i] + single;
    PairsForConcat(q, keys[..i], single);
    assert single[1..] == [];
  }

  /** The outer loop, over the sorted keys. */
  method RenderKeys(q: Values, keys: seq<Bytes>) returns (r: Bytes)
    requires forall k :: k in keys ==> k in q
    ensures r == Render(PairsFor(q, keys))
  {
    var texts: seq<Bytes> := [];
    for i := 0 to |keys|
      invariant texts == Texts(PairsFor(q, keys[..i]))
    {
      PairsForStep(q, keys, i);
      texts := AppendValues(keys[i], Sort(q[keys[i]]), texts, PairsFor(q, keys[..i]));
    }
    assert keys[..|keys|] == keys;
    r := Join(texts, '&');
  }

  /** canonicalQuery, with the order in which the map happens to be iterated. */
  method CanonicalQuery(q: Values, order: seq<Bytes>) returns (r: Bytes)
    requires IsOrder(q, order)
    ensures r == CanonicalQueryOf(q, order)
  {
    var keys: seq<Bytes> := [];
    for i := 0 to |order|
      invariant keys == order[..i]
    {
      keys := keys + [order[i]];
    }
    assert keys == order;
    OrderKeys(q, order);
    r := RenderKeys(q, Sort(keys));
  }

  // ---- independence of order ---------------------------------------------------------------

  lemma {:induction false} PairsForSame(q: Values, q': Values, keys: seq<Bytes>)
    requires forall k :: k in keys ==> k in q && k in q' && multiset(q[k]) == multiset(q'[k])
    ensures PairsFor(q, keys) == PairsFor(q', keys)
  {
    if keys != [] {
      SortIgnoresOrder(q[keys[0]], q'[keys[0]]);
      PairsForSame(q, q', keys[1..]);
    }
  }

  /** The canonical query depends neither on the order in which the map is iterated nor on the
      order of the values under a key. */
  lemma OrderIrrelevant(q: Values, order: seq<Bytes>, q': Values, order': seq<Bytes>)
    requires IsOrder(q, order) && IsOrder(q', order') && q.Keys == q'.Keys
    requires forall k :: k in q ==> multiset(q[k]) == multiset(q'[k])
    ensures CanonicalQueryOf(q, order) == CanonicalQueryOf(q', order')
  {
    SortIgnoresOrder(order, order');
    OrderKeys(q, order);
    PairsForSame(q, q', Sort(order));
  }

  // ---- the canonical query determines its pairs ----------------------------------------------

  /** Reading a query string: pairs between '&', key and value around the first '='. */
  function ReadPair(t: Bytes): Option<Pair> {
    var parts := Split(t, '=');
    if |parts| != 2 || Decode(parts[0]).None? || Decode(parts[1]).None? then None
    else Some((Decode(parts[0]).value, Decode(parts[1]).value))
  }

  function ReadPairs(texts: seq<Bytes>): Option<seq<Pair>> {
    if texts == [] then Some([])
    else
      var p, rest := ReadPair(texts[0]), ReadPairs(texts[1..]);
      if p.None? || rest.None? then None else Some([p.value] + rest.value)
  }

  function ReadQuery(s: Bytes): Option<seq<Pair>> {
    if s == [] then Some([]) else ReadPairs(Split(s, '&'))
  }

  lemma {:induction false} EncodingAvoidsDelimiters(s: Bytes)
    ensures '=' !in Encode(s, false) && '&' !in Encode(s, false) && '/' !in Encode(s, false)
  {
    if s != [] { EncodingAvoidsDelimiters(s[1..]); }
  }

  lemma PairReadsBack(p: Pair)
    ensures ReadPair(PairText(p)) == Some(p)
    ensures Split(PairText(p), '=') == [Encode(p.0, false), Encode(p.1, false)]
    ensures '&' !in PairText(p) && '/' !in PairText(p) && PairText(p) != []
  {
    EncodingAvoidsDelimiters(p.0);
    EncodingAvoidsDelimiters(p.1);
    SplitFirst(Encode(p.0, false), Encode(p.1, false), '=');
    SplitFirst(Encode(p.1, false), [], '=');
    DecodeUndoesEncode(p.0, false);
    DecodeUndoesEncode(p.1, false);
  }

  lemma {:induction false} TextsReadBack(pairs: seq<Pair>)
    ensures ReadPairs(Texts(pairs)) == Some(pairs)
  {
    if pairs != [] {
      PairReadsBack(pairs[0]);
      assert Texts(pairs)[1..] == Texts(pairs[1..]);
      TextsReadBack(pairs[1..]);
      assert pairs == [pairs[0]] + pairs[1..];
    }
  }

  /** Round trip: a rendered query reads back as its pairs. */
  lemma QueryReadsBack(pairs: seq<Pair>)
    ensures ReadQuery(Render(pairs)) == Some(pairs)
  {
    if pairs != [] {
      forall k | 0 <= k < |pairs| ensures '&' !in Texts(pairs)[k] { PairReadsBack(pairs[k]); }
      PairReadsBack(pairs[0]);
      SplitUndoesJoin(Texts(pairs), '&');
      assert Render(pairs) != [] by { assert Texts(pairs)[0] == PairText(pairs[0]); }
      TextsReadBack(pairs);
    }
  }

  // ---- the text of the canonical query --------------------------------------------------------

  /** A query string, split at '&' and every piece at '='. */
  function RawParts(s: Bytes): (r: seq<seq<Bytes>>)
    ensures s != [] ==> |r| == |Split(s, '&')|
  {
    if s == [] then []
    else
      var texts := Split(s, '&');
      seq(|texts|, i requires 0 <= i < |texts| => Split(texts[i], '='))
  }

  lemma {:induction false} JoinAvoids(parts: seq<Bytes>, sep: Octet, c: Octet)
    requires c != sep && forall k :: 0 <= k < |parts| ==> c !in parts[k]
    ensures c !in Join(parts, sep)
  {
    if |parts| > 1 { JoinAvoids(parts[1..], sep, c); }
  }

  lemma RenderParts(pairs: seq<Pair>)
    ensures var s := Render(pairs);
            && '/' !in s && |RawParts(s)| == |pairs|
            && forall i :: 0 <= i < |pairs| ==> RawParts(s)[i] == [Encode(pairs[i].0, false), Encode(pairs[i].1, false)]
  {
    var texts := Texts(pairs);
    forall k | 0 <= k < |pairs|
      ensures '&' !in texts[k] && '/' !in texts[k]
      ensures Split(texts[k], '=') == [Encode(pairs[k].0, false), Encode(pairs[k].1, false)]
    {
      PairReadsBack(pairs[k]);
    }
    JoinAvoids(texts, '&', '/');
    if pairs != [] {
      PairReadsBack(pairs[0]);
      SplitUndoesJoin(texts, '&');
      assert Render(pairs) != [] by { assert texts[0] == PairText(pairs[0]); }
    }
  }

  /** The text that is signed: as many pieces as pairs, each a name and a value in canonical form
      that decode to the pair, and no slash anywhere. */
  lemma CanonicalQueryParts(q: Values, order: seq<Bytes>)
    requires IsOrder(q, order)
    ensures var s, pairs := CanonicalQueryOf(q, order), Pairs(q, order);
            && '/' !in s && |RawParts(s)| == |pairs|
            && forall i :: 0 <= i < |pairs| ==>
                 && |RawParts(s)[i]| == 2
                 && IsEncoded(RawParts(s)[i][0], false) && Decode(RawParts(s)[i][0]) == Some(pairs[i].0)
                 && IsEncoded(RawParts(s)[i][1], false) && Decode(RawParts(s)[i][1]) == Some(pairs[i].1)
  {
    var pairs := Pairs(q, order);
    RenderParts(pairs);
    forall i | 0 <= i < |pairs|
      ensures IsEncoded(Encode(pairs[i].0, false), false) && Decode(Encode(pairs[i].0, false)) == Some(pairs[i].0)
      ensures IsEncoded(Encode(pairs[i].1, false), false) && Decode(Encode(pairs[i].1, false)) == Some(pairs[i].1)
    {
      EncodeIsEncoded(pairs[i].0, false);
      EncodeIsEncoded(pairs[i].1, false);
      DecodeUndoesEncode(pairs[i].0, false);
      DecodeUndoesEncode(pairs[i].1, false);
    }
  }

  function CountOf(q: Values, p: Pair): nat {
    if p.0 in q then multiset(q[p.0])[p.1] else 0
  }

  lemma CountCons<T>(x: T, s: seq<T>, y: T)
    ensures multiset([x] + s)[y] == (if x == y then 1 else 0) + multiset(s)[y]
  {
    assert multiset([x] + s) == multiset{x} + multiset(s);
  }

  lemma {:induction false} ValuePairsCount(k: Bytes, vs: seq<Bytes>, p: Pair)
    ensures multiset(ValuePairs(k, vs))[p] == if p.0 == k then multiset(vs)[p.1] else 0
  {
    if vs != [] {
      ValuePairsCount(k, vs[1..], p);
      CountCons(vs[0], vs[1..], p.1);
      CountCons((k, vs[0]), ValuePairs(k, vs[1..]), p);
      assert vs == [vs[0]] + vs[1..];
    }
  }

  lemma CountAppend<T>(a: seq<T>, b: seq<T>, y: T)
    ensures multiset(a + b)[y] == multiset(a)[y] + multiset(b)[y]
  {
  }

  lemma HeadOnce<T>(s: seq<T>)
    requires s != [] && NoRepeats(s)
    ensures NoRepeats(s[1..]) && s[0] !in s[1..]
    ensures forall x :: x in s <==> x == s[0] || x in s[1..]
  {
    assert s == [s[0]] + s[1..];
  }

  lemma {:induction false} PairsForCount(q: Values, keys: seq<Bytes>, p: Pair)
    requires forall k :: k in keys ==> k in q
    requires NoRepeats(keys)
    ensures multiset(PairsFor(q, keys))[p] == if p.0 in keys then CountOf(q, p) else 0
  {
    if keys != [] {
      HeadOnce(keys);
      PairsForCount(q, keys[1..], p);
      ValuePairsCount(keys[0], Sort(q[keys[0]]), p);
      CountAppend(ValuePairs(keys[0], Sort(q[keys[0]])), PairsFor(q, keys[1..]), p);
    }
  }

  lemma OrderDistinct(q: Values, order: seq<Bytes>)
    requires IsOrder(q, order)
    ensures NoRepeats(Sort(order))
  {
    var keys := Sort(order);
    forall i, j | 0 <= i < j < |keys| ensures keys[i] != keys[j] {
      if keys[i] == keys[j] { CountedTwice(keys, i, j); }
    }
  }

  /** The pairs of a canonical query are exactly the map's pairs, with their multiplicities. */
  lemma PairsCount(q: Values, order: seq<Bytes>, p: Pair)
    requires IsOrder(q, order)
    ensures multiset(Pairs(q, order))[p] == CountOf(q, p)
  {
    OrderKeys(q, order);
    OrderDistinct(q, order);
    PairsForCount(q, Sort(order), p);
  }

  /** Two value maps have the same canonical query only if they hold the same pairs equally often. */
  lemma CanonicalQueryInjective(q: Values, order: seq<Bytes>, q': Values, order': seq<Bytes>)
    requires IsOrder(q, order) && IsOrder(q', order')
    requires CanonicalQueryOf(q, order) == CanonicalQueryOf(q', order')
    ensures forall p: Pair :: CountOf(q, p) == CountOf(q', p)
  {
    QueryReadsBack(Pairs(q, order));
    QueryReadsBack(Pairs(q', order'));
    forall p: Pair ensures CountOf(q, p) == CountOf(q', p) {
      PairsCount(q, order, p);
      PairsCount(q', order', p);
    }
  }

  // ---- presigning ------------------------------------------------------------------------------

  const SIGNATURE: Bytes := "X-Amz-Signature"
  const ALGORITHM_KEY: Bytes := "X-Amz-Algorithm"
  const CREDENTIAL_KEY: Bytes := "X-Amz-Credential"
  const DATE_KEY: Bytes := "X-Amz-Date"
  const EXPIRES_KEY: Bytes := "X-Amz-Expires"
  const HEADERS_KEY: Bytes := "X-Amz-SignedHeaders"
  const TOKEN_KEY: Bytes := "X-Amz-Security-Token"
  const ALGORITHM: Bytes := "AWS4-HMAC-SHA256"
  const HOST: Bytes := "host"

  function Distance(a: int, b: int): nat { if a <= b then b - a else a - b }

  /** The expiry in seconds, clamped to what the protocol allows. */
  function ExpiresIn(seconds: int): (e: int)
    ensures 1 <= e <= 604800
    ensures 1 <= seconds <= 604800 ==> e == seconds
    ensures forall other: int :: 1 <= other <= 604800 ==> Distance(seconds, e) <= Distance(seconds, other)
  {
    if seconds < 1 then 1 else if seconds > 604800 then 604800 else seconds
  }

  /** The query parameters that are signed. */
  function SignedValues(q: Values, credential: Bytes, date: Bytes, seconds: int, token: Bytes): Values {
    var r := q[ALGORITHM_KEY := [ALGORITHM]][CREDENTIAL_KEY := [credential]][DATE_KEY := [date]]
      [EXPIRES_KEY := [NumeralBytes(ExpiresIn(seconds))]][HEADERS_KEY := [HOST]];
    if token == [] then r else r[TOKEN_KEY := [token]]
  }

  function NumeralBytes(n: nat): Bytes {
    var s := Numeral(n);
    seq(|s|, i requires 0 <= i < |s| => s[i] as Octet)
  }

  /** The keys that presigning sets; the token's only where there is a token. */
  function PresignKeys(token: Bytes): set<Bytes> {
    {ALGORITHM_KEY, CREDENTIAL_KEY, DATE_KEY, EXPIRES_KEY, HEADERS_KEY} + if token == [] then {} else {TOKEN_KEY}
  }

  lemma KeysDiffer()
    ensures NoRepeats([ALGORITHM_KEY, CREDENTIAL_KEY, DATE_KEY, EXPIRES_KEY, HEADERS_KEY, TOKEN_KEY])
  {
    assert |ALGORITHM_KEY| == 15 && |CREDENTIAL_KEY| == 16 && |DATE_KEY| == 10;
    assert |EXPIRES_KEY| == 13 && |HEADERS_KEY| == 19 && |TOKEN_KEY| == 20;
  }

  /** Assignments under different keys do not overwrite one another. */
  lemma AllSet(q: Values, k: seq<Bytes>, v: seq<seq<Bytes>>)
    requires |k| == |v| == 5 && NoRepeats(k)
    ensures var r := q[k[0] := v[0]][k[1] := v[1]][k[2] := v[2]][k[3] := v[3]][k[4] := v[4]];
            && r.Keys == q.Keys + {k[0], k[1], k[2], k[3], k[4]}
            && (forall i :: 0 <= i < 5 ==> r[k[i]] == v[i])
            && (forall x :: x in q && x !in k ==> r[x] == q[x])
  {
  }

  /** Presigning sets every authentication parameter once, whatever the URL said before, and keeps
      all the URL's other parameters. */
  lemma SignedParameters(q: Values, credential: Bytes, date: Bytes, seconds: int, token: Bytes)
    ensures var v := SignedValues(q, credential, date, seconds, token);
            var names: set<Bytes> := {"X-Amz-Algorithm", "X-Amz-Credential", "X-Amz-Date", "X-Amz-Expires", "X-Amz-SignedHeaders"}
                                     + if token == [] then {} else {"X-Amz-Security-Token"};
            && v.Keys == q.Keys + names
            && (forall k :: k in q && k !in names ==> v[k] == q[k])
            && v["X-Amz-Algorithm"] == ["AWS4-HMAC-SHA256"] && v["X-Amz-Credential"] == [credential] && v["X-Amz-Date"] == [date]
            && |v["X-Amz-Expires"]| == 1 && v["X-Amz-Expires"][0] == Numeral(ExpiresIn(seconds))
            && v["X-Amz-SignedHeaders"] == ["host"]
            && (token != [] ==> v["X-Amz-Security-Token"] == [token])
  {
    assert PresignKeys([]) == {"X-Amz-Algorithm", "X-Amz-Credential", "X-Amz-Date", "X-Amz-Expires", "X-Amz-SignedHeaders"};
    var keys := [ALGORITHM_KEY, CREDENTIAL_KEY, DATE_KEY, EXPIRES_KEY, HEADERS_KEY];
    var all := keys + [TOKEN_KEY];
    KeysDiffer();
    assert all == [ALGORITHM_KEY, CREDENTIAL_KEY, DATE_KEY, EXPIRES_KEY, HEADERS_KEY, TOKEN_KEY];
    assert forall i :: 0 <= i < 5 ==> keys[i] == all[i] && all[i] != all[5];
    AllSet(q, keys, [[ALGORITHM], [credential], [date], [NumeralBytes(ExpiresIn(seconds))], [HOST]]);
  }

  /** The parameters that are emitted: those signed, and the signature. */
  function WithSignature(v: Values, signature: Bytes): (r: Values)
    ensures r.Keys == v.Keys + {"X-Amz-Signature"} && r["X-Amz-Signature"] == [signature]
    ensures forall k :: k in v && k != "X-Amz-Signature" ==> r[k] == v[k]
  {
    v[SIGNATURE := [signature]]
  }

  /** Query presigning: `sign` stands for the signing of a canonical query string; `order` and
      `emittedOrder` are the two iteration orders of the parameter map. */
  method PresignQuery(q: Values, credential: Bytes, date: Bytes, seconds: int, token: Bytes,
                      sign: Bytes -> Bytes, order: seq<Bytes>, emittedOrder: seq<Bytes>)
    returns (signed: Bytes, emitted: Bytes)
    requires var v := SignedValues(q, credential, date, seconds, token);
             IsOrder(v, order) && IsOrder(WithSignature(v, []), emittedOrder)
    ensures var v := SignedValues(q, credential, date, seconds, token);
            && signed == CanonicalQueryOf(v, order)
            && emitted == CanonicalQueryOf(WithSignature(v, sign(signed)), emittedOrder)
  {
    var v := SignedValues(q, credential, date, seconds, token);
    signed := CanonicalQuery(v, order);
    v := v[SIGNATURE := [sign(signed)]];
    emitted := CanonicalQuery(v, emittedOrder);
  }

  /** The query without the pairs under one key. */
  function Without(pairs: seq<Pair>, key: Bytes): seq<Pair> {
    if pairs == [] then []
    else (if pairs[0].0 == key then [] else [pairs[0]]) + Without(pairs[1..], key)
  }

  lemma {:induction false} WithoutConcat(a: seq<Pair>, b: seq<Pair>, key: Bytes)
    ensures Without(a + b, key) == Without(a, key) + Without(b, key)
  {
    if a == [] {
      assert a + b == b;
    } else {
      assert (a + b)[1..] == a[1..] + b;
      WithoutConcat(a[1..], b, key);
    }
  }

  lemma {:induction false} WithoutValuePairs(k: Bytes, vs: seq<Bytes>, key: Bytes)
    ensures Without(ValuePairs(k, vs), key) == if k == key then [] else ValuePairs(k, vs)
  {
    if vs != [] {
      assert ValuePairs(k, vs)[1..] == ValuePairs(k, vs[1..]);
      WithoutValuePairs(k, vs[1..], key);
    }
  }

  function Dropped(keys: seq<Bytes>, key: Bytes): (r: seq<Bytes>)
    ensures forall k :: k in r <==> k in keys && k != key
  {
    if keys == [] then []
    else if keys[0] == key then Dropped(keys[1..], key)
    else [keys[0]] + Dropped(keys[1..], key)
  }

  lemma {:induction false} DroppedSorted(keys: seq<Bytes>, key: Bytes)
    requires Sorted(keys)
    ensures Sorted(Dropped(keys, key)) && multiset(Dropped(keys, key)) == multiset(keys)[key := 0]
  {
    if keys != [] {
      DroppedSorted(keys[1..], key);
      assert keys == [keys[0]] + keys[1..];
      forall k | k in Dropped(keys[1..], key) ensures Leq(keys[0], k) {
        var i :| 0 <= i < |keys[1..]| && keys[1..][i] == k;
        assert keys[i + 1] == k;
      }
    }
  }

  /** Removing a key's pairs leaves the pairs of the other keys. */
  lemma {:induction false} WithoutPairsFor(q: Values, q': Values, keys: seq<Bytes>, key: Bytes)
    requires forall k :: k in keys ==> k in q'
    requires forall k :: k in keys && k != key ==> k in q && q'[k] == q[k]
    ensures Without(PairsFor(q', keys), key) == PairsFor(q, Dropped(keys, key))
  {
    if keys != [] {
      var head, rest := ValuePairs(keys[0], Sort(q'[keys[0]])), PairsFor(q', keys[1..]);
      WithoutPairsFor(q, q', keys[1..], key);
      assert PairsFor(q', keys) == head + rest;
      WithoutConcat(head, rest, key);
      WithoutValuePairs(keys[0], Sort(q'[keys[0]]), key);
      if keys[0] == key {
        assert Dropped(keys, key) == Dropped(keys[1..], key);
      } else {
        var dropped := Dropped(keys, key);
        assert dropped[1..] == Dropped(keys[1..], key);
        assert PairsFor(q, dropped) == ValuePairs(keys[0], Sort(q[keys[0]])) + PairsFor(q, dropped[1..]);
      }
    }
  }

  lemma {:induction false} NoPairsUnder(q: Values, keys: seq<Bytes>, key: Bytes)
    requires (forall k :: k in keys ==> k in q) && (key in q ==> q[key] == [])
    ensures Without(PairsFor(q, keys), key) == PairsFor(q, keys)
  {
    if keys != [] {
      NoPairsUnder(q, keys[1..], key);
      WithoutConcat(ValuePairs(keys[0], Sort(q[keys[0]])), PairsFor(q, keys[1..]), key);
      WithoutValuePairs(keys[0], Sort(q[keys[0]]), key);
    }
  }

  lemma TakeOut(keys: set<Bytes>, key: Bytes)
    requires key !in keys
    ensures multiset(keys + {key})[key := 0] == multiset(keys)
  {
  }

  lemma SortedKeysWithoutNewKey(v: Values, order: seq<Bytes>, key: Bytes, value: Bytes, emittedOrder: seq<Bytes>)
    requires IsOrder(v, order) && IsOrder(v[key := [value]], emittedOrder) && key !in v
    ensures multiset(Sort(emittedOrder))[key := 0] == multiset(Sort(order))
  {
    assert v[key := [value]].Keys == v.Keys + {key};
    TakeOut(v.Keys, key);
  }

  lemma KeysWithoutNewKey(v: Values, order: seq<Bytes>, key: Bytes, value: Bytes, emittedOrder: seq<Bytes>)
    requires IsOrder(v, order) && IsOrder(v[key := [value]], emittedOrder) && key !in v
    ensures Dropped(Sort(emittedOrder), key) == Sort(order)
  {
    var keys := Sort(emittedOrder);
    SortSorts(order);
    SortSorts(emittedOrder);
    DroppedSorted(keys, key);
    SortedKeysWithoutNewKey(v, order, key, value, emittedOrder);
    SortedUnique(Dropped(keys, key), Sort(order));
  }

  lemma WithoutNewKey(v: Values, order: seq<Bytes>, key: Bytes, value: Bytes, emittedOrder: seq<Bytes>)
    requires IsOrder(v, order) && IsOrder(v[key := [value]], emittedOrder) && key !in v
    ensures Without(Pairs(v[key := [value]], emittedOrder), key) == Pairs(v, order)
  {
    OrderKeys(v, order);
    OrderKeys(v[key := [value]], emittedOrder);
    WithoutPairsFor(v, v[key := [value]], Sort(emittedOrder), key);
    KeysWithoutNewKey(v, order, key, value, emittedOrder);
  }

  lemma WithoutEmptyKey(v: Values, order: seq<Bytes>, key: Bytes, value: Bytes, emittedOrder: seq<Bytes>)
    requires IsOrder(v, order) && IsOrder(v[key := [value]], emittedOrder) && key in v && v[key] == []
    ensures Without(Pairs(v[key := [value]], emittedOrder), key) == Pairs(v, order)
  {
    var v' := v[key := [value]];
    var keys := Sort(order);
    assert v'.Keys == v.Keys;
    SortIgnoresOrder(order, emittedOrder);
    OrderKeys(v, order);
    WithoutPairsFor(v, v', keys, key);
    WithoutPairsFor(v, v, keys, key);
    NoPairsUnder(v, keys, key);
  }

  lemma {:induction false} WithoutHasNone(pairs: seq<Pair>, key: Bytes, value: Bytes)
    ensures (key, value) !in Without(pairs, key)
  {
    if pairs != [] { WithoutHasNone(pairs[1..], key, value); }
  }

  lemma StrippingAKey(v: Values, order: seq<Bytes>, key: Bytes, value: Bytes, emittedOrder: seq<Bytes>)
    requires IsOrder(v, order) && IsOrder(v[key := [value]], emittedOrder)
    ensures Without(Pairs(v[key := [value]], emittedOrder), key) == Pairs(v, order) <==> key !in v || v[key] == []
  {
    if key !in v {
      WithoutNewKey(v, order, key, value, emittedOrder);
    } else if v[key] == [] {
      WithoutEmptyKey(v, order, key, value, emittedOrder);
    } else {
      var p := (key, v[key][0]);
      PairsCount(v, order, p);
      assert p in Pairs(v, order);
      WithoutHasNone(Pairs(v[key := [value]], emittedOrder), key, p.1);
    }
  }

  /** Removing the signature pair from the emitted query leaves exactly the signed query when the
      signed parameters had no signature, and only then. */
  lemma StrippingTheSignature(v: Values, order: seq<Bytes>, signature: Bytes, emittedOrder: seq<Bytes>)
    requires IsOrder(v, order) && IsOrder(WithSignature(v, signature), emittedOrder)
    ensures var read := ReadQuery(CanonicalQueryOf(WithSignature(v, signature), emittedOrder));
            && read.Some?
            && (Render(Without(read.value, SIGNATURE)) == CanonicalQueryOf(v, order)
                <==> SIGNATURE !in v || v[SIGNATURE] == [])
  {
    var emitted := Pairs(WithSignature(v, signature), emittedOrder);
    QueryReadsBack(emitted);
    StrippingAKey(v, order, SIGNATURE, signature, emittedOrder);
    QueryReadsBack(Without(emitted, SIGNATURE));
    QueryReadsBack(Pairs(v, order));
  }

  lemma SignatureIsNotSigned(q: Values, credential: Bytes, date: Bytes, seconds: int, token: Bytes)
    ensures var v := SignedValues(q, credential, date, seconds, token);
            (SIGNATURE in v <==> SIGNATURE in q) && (SIGNATURE in q ==> v[SIGNATURE] == q[SIGNATURE])
  {
    assert SIGNATURE[6] == 'S' && SIGNATURE[9] == 'n' && |SIGNATURE| == 15;
  }

  /** The service that receives a presigned URL sees the signed query, once it has taken out the
      signature, exactly when the URL that was presigned carried no signature itself. */
  lemma PresignedQueryReadsBack(q: Values, credential: Bytes, date: Bytes, seconds: int, token: Bytes,
                                order: seq<Bytes>, signature: Bytes, emittedOrder: seq<Bytes>)
    requires var v := SignedValues(q, credential, date, seconds, token);
             IsOrder(v, order) && IsOrder(WithSignature(v, signature), emittedOrder)
    ensures var v := SignedValues(q, credential, date, seconds, token);
            var read := ReadQuery(CanonicalQueryOf(WithSignature(v, signature), emittedOrder));
            && read.Some?
            && (Render(Without(read.value, SIGNATURE)) == CanonicalQueryOf(v, order)
                <==> SIGNATURE !in q || q[SIGNATURE] == [])
  {
    SignatureIsNotSigned(q, credential, date, seconds, token);
    StrippingTheSignature(SignedValues(q, credential, date, seconds, token), order, signature, emittedOrder);
  }
}
