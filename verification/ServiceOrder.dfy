/** The order of the canonical query (pkg/awssig/sigv4.go:307-323) against the protocol's: the code
    sorts keys and values before it encodes them, AWS Signature Version 4 orders the encoded text. */
module ServiceOrder {
  import opened Text
  import opened Encoding
  import opened Sorting
  import opened SignedPath
  import opened SignedQuery

  /** At their first difference, the smaller byte is literal and the larger is encoded, so that
      encoding reverses their order: '%' is smaller than every literal byte. */
  predicate Flips(a: Bytes, b: Bytes) {
    && a != [] && b != []
    && if a[0] == b[0] then Flips(a[1..], b[1..])
       else if a[0] < b[0] then Literal(a[0], false) && !Literal(b[0], false)
       else Literal(b[0], false) && !Literal(a[0], false)
  }

  lemma {:induction false} LeqPrefix(p: Bytes, x: Bytes, y: Bytes)
    ensures Leq(p + x, p + y) <==> Leq(x, y)
  {
    if p == [] {
      assert p + x == x && p + y == y;
    } else {
      assert (p + x)[1..] == p[1..] + x && (p + y)[1..] == p[1..] + y;
      LeqPrefix(p[1..], x, y);
    }
  }

  lemma LeqFirst(x: Bytes, y: Bytes)
    requires x != [] && y != [] && x[0] != y[0]
    ensures Leq(x, y) <==> x[0] < y[0]
  {
  }

  lemma HexOrder(m: nat, n: nat)
    requires m < 16 && n < 16
    ensures HexDigit(m) < HexDigit(n) <==> m < n
    ensures HexDigit(m) == HexDigit(n) <==> m == n
  {
  }

  /** Two encoded bytes compare like the bytes. */
  lemma EscapesOrder(a: Octet, b: Octet, x: Bytes, y: Bytes)
    requires a != b && !Kept(a, false) && !Kept(b, false)
    ensures Leq(EncodeByte(a, false) + x, EncodeByte(b, false) + y) <==> a < b
  {
    var i, j := a as int, b as int;
    var s := [HexDigit(i / 16), HexDigit(i % 16)] + x;
    var t := [HexDigit(j / 16), HexDigit(j % 16)] + y;
    assert EncodeByte(a, false) + x == ['%'] + s && EncodeByte(b, false) + y == ['%'] + t;
    LeqPrefix(['%'], s, t);
    HexOrder(i / 16, j / 16);
    if i / 16 != j / 16 {
      LeqFirst(s, t);
    } else {
      HexOrder(i % 16, j % 16);
      assert s == [HexDigit(i / 16)] + ([HexDigit(i % 16)] + x) && t == [HexDigit(i / 16)] + ([HexDigit(j % 16)] + y);
      LeqPrefix([HexDigit(i / 16)], [HexDigit(i % 16)] + x, [HexDigit(j % 16)] + y);
      LeqFirst([HexDigit(i % 16)] + x, [HexDigit(j % 16)] + y);
    }
  }

  lemma BytesOrder(a: Octet, b: Octet, x: Bytes, y: Bytes)
    requires a != b
    ensures Leq(EncodeByte(a, false) + x, EncodeByte(b, false) + y)
            <==> if Kept(a, false) == Kept(b, false) then a < b else Kept(b, false)
  {
    var s, t := EncodeByte(a, false) + x, EncodeByte(b, false) + y;
    if !Kept(a, false) && !Kept(b, false) {
      EscapesOrder(a, b, x, y);
    } else {
      assert s[0] == (if Kept(a, false) then a else '%') && t[0] == (if Kept(b, false) then b else '%');
      LeqFirst(s, t);
    }
  }

  /** Encoding keeps the order of two strings, except of those it flips. */
  lemma {:induction false} EncodedOrder(a: Bytes, b: Bytes)
    ensures Leq(Encode(a, false), Encode(b, false)) <==> if Flips(a, b) then !Leq(a, b) else Leq(a, b)
  {
    if a != [] && b != [] {
      var x, y := Encode(a[1..], false), Encode(b[1..], false);
      if a[0] == b[0] {
        EncodedOrder(a[1..], b[1..]);
        LeqPrefix(EncodeByte(a[0], false), x, y);
      } else {
        BytesOrder(a[0], b[0], x, y);
      }
    }
  }

  lemma {:induction false} SameNeverFlips(a: Bytes)
    ensures !Flips(a, a)
  {
    if a != [] { SameNeverFlips(a[1..]); }
  }

  predicate AllLiteral(a: Bytes) { forall k :: 0 <= k < |a| ==> Literal(a[k], false) }

  lemma {:induction false} LiteralNeverFlips(a: Bytes, b: Bytes)
    requires AllLiteral(a) && AllLiteral(b)
    ensures !Flips(a, b)
  {
    if a != [] && b != [] && a[0] == b[0] { LiteralNeverFlips(a[1..], b[1..]); }
  }

  // ---- pairs ---------------------------------------------------------------------------------

  /** The protocol's order of two pieces of a query: by encoded name, then by encoded value. */
  predicate PieceLeq(p: seq<Bytes>, r: seq<Bytes>)
    requires |p| == |r| == 2
  {
    if p[0] == r[0] then Leq(p[1], r[1]) else Leq(p[0], r[0])
  }

  /** The text of a query is in the protocol's order. */
  predicate InServiceOrder(query: Bytes) {
    var parts := RawParts(query);
    && (forall i :: 0 <= i < |parts| ==> |parts[i]| == 2)
    && (forall i, j :: 0 <= i < j < |parts| ==> PieceLeq(parts[i], parts[j]))
  }

  predicate ServiceLeq(p: Pair, r: Pair) {
    if p.0 == r.0 then Leq(Encode(p.1, false), Encode(r.1, false)) else Leq(Encode(p.0, false), Encode(r.0, false))
  }

  lemma PieceOrder(p: Pair, r: Pair)
    ensures PieceLeq([Encode(p.0, false), Encode(p.1, false)], [Encode(r.0, false), Encode(r.1, false)]) <==> ServiceLeq(p, r)
  {
    DecodeUndoesEncode(p.0, false);
    DecodeUndoesEncode(r.0, false);
  }

  /** The code's order: by name, then by value. */
  predicate PairLeq(p: Pair, r: Pair) { if p.0 == r.0 then Leq(p.1, r.1) else Leq(p.0, r.0) }

  predicate PairFlips(p: Pair, r: Pair) { if p.0 == r.0 then Flips(p.1, r.1) else Flips(p.0, r.0) }

  predicate FlipFree(pairs: seq<Pair>) {
    forall i, j :: 0 <= i < j < |pairs| ==> !PairFlips(pairs[i], pairs[j])
  }

  lemma {:induction false} PairsForKeys(q: Values, keys: seq<Bytes>)
    requires forall k :: k in keys ==> k in q
    ensures forall i :: 0 <= i < |PairsFor(q, keys)| ==> PairsFor(q, keys)[i].0 in keys
  {
    if keys != [] {
      var head, tail := ValuePairs(keys[0], Sort(q[keys[0]])), PairsFor(q, keys[1..]);
      PairsForKeys(q, keys[1..]);
      var all: seq<Pair> := head + tail;
      forall i | 0 <= i < |all| ensures all[i].0 in keys {
        if i >= |head| { assert tail[i - |head|].0 in keys[1..]; }
      }
    }
  }

  /** The first key is smaller than the keys of all later pairs. */
  lemma LaterKey(q: Values, keys: seq<Bytes>, j: nat)
    requires (forall k :: k in keys ==> k in q) && keys != [] && Sorted(keys) && NoRepeats(keys)
    requires forall k :: k in keys[1..] ==> k in q
    requires j < |PairsFor(q, keys[1..])|
    ensures var k := PairsFor(q, keys[1..])[j].0; keys[0] != k && Leq(keys[0], k)
  {
    PairsForKeys(q, keys[1..]);
    var k := PairsFor(q, keys[1..])[j].0;
    var at :| 0 <= at < |keys[1..]| && keys[1..][at] == k;
    assert keys[at + 1] == k;
  }

  predicate Ordered(pairs: seq<Pair>) {
    forall i, j :: 0 <= i < j < |pairs| ==> PairLeq(pairs[i], pairs[j])
  }

  lemma ConcatOrdered(a: seq<Pair>, b: seq<Pair>)
    requires Ordered(a) && Ordered(b)
    requires forall i, j :: 0 <= i < |a| && 0 <= j < |b| ==> PairLeq(a[i], b[j])
    ensures Ordered(a + b)
  {
  }

  lemma HeadOrdered(k: Bytes, vs: seq<Bytes>)
    ensures Ordered(ValuePairs(k, Sort(vs)))
  {
    SortSorts(vs);
  }

  lemma {:induction false} PairsForOrdered(q: Values, keys: seq<Bytes>)
    requires (forall k :: k in keys ==> k in q) && Sorted(keys) && NoRepeats(keys)
    ensures Ordered(PairsFor(q, keys))
  {
    if keys != [] {
      var head, tail := ValuePairs(keys[0], Sort(q[keys[0]])), PairsFor(q, keys[1..]);
      HeadOrdered(keys[0], q[keys[0]]);
      PairsForOrdered(q, keys[1..]);
      forall i, j | 0 <= i < |head| && 0 <= j < |tail| ensures PairLeq(head[i], tail[j]) {
        LaterKey(q, keys, j);
      }
      ConcatOrdered(head, tail);
    }
  }

  lemma PairsOrdered(q: Values, order: seq<Bytes>)
    requires IsOrder(q, order)
    ensures Ordered(Pairs(q, order))
  {
    OrderKeys(q, order);
    OrderDistinct(q, order);
    SortSorts(order);
    PairsForOrdered(q, Sort(order));
  }

  lemma ServiceLeqExactly(p: Pair, r: Pair)
    requires PairLeq(p, r)
    ensures ServiceLeq(p, r) <==> !PairFlips(p, r)
  {
    if p.0 == r.0 { EncodedOrder(p.1, r.1); } else { EncodedOrder(p.0, r.0); }
  }

  /** The canonical query is in the protocol's order exactly when encoding flips no two of its
      names, and no two values under one name. */
  lemma ServiceOrderExactly(q: Values, order: seq<Bytes>)
    requires IsOrder(q, order)
    ensures InServiceOrder(CanonicalQueryOf(q, order)) <==> FlipFree(Pairs(q, order))
  {
    var pairs := Pairs(q, order);
    PairsOrdered(q, order);
    RenderParts(pairs);
    var parts := RawParts(Render(pairs));
    forall i, j | 0 <= i < j < |pairs| ensures PieceLeq(parts[i], parts[j]) <==> !PairFlips(pairs[i], pairs[j]) {
      PieceOrder(pairs[i], pairs[j]);
      ServiceLeqExactly(pairs[i], pairs[j]);
    }
  }

  /** Two names the code orders otherwise than the protocol: "aB" before "a[", but "a%5B" before "aB". */
  lemma BracketsFlip(a: Bytes, b: Bytes)
    requires a == "aB" && b == "a["
    ensures Leq(a, b) && Flips(a, b) && !Leq(Encode(a, false), Encode(b, false))
  {
    assert a[1..] == ['B'] && b[1..] == ['['];
    assert Flips(a[1..], b[1..]);
    EncodedOrder(a, b);
  }

  // ---- what the S3 adapter presigns ------------------------------------------------------------

  /** One value under each name, and nothing to encode in the names. */
  predicate Simple(q: Values) { forall k :: k in q ==> AllLiteral(k) && |q[k]| == 1 }

  lemma SimplePairs(q: Values, order: seq<Bytes>, i: nat)
    requires IsOrder(q, order) && Simple(q) && i < |Pairs(q, order)|
    ensures var p := Pairs(q, order)[i]; p.0 in q && q[p.0] == [p.1]
  {
    var p := Pairs(q, order)[i];
    assert p in multiset(Pairs(q, order));
    PairsCount(q, order, p);
    assert p.0 in q && p.1 in multiset(q[p.0]);
  }

  lemma SimpleInServiceOrder(q: Values, order: seq<Bytes>)
    requires IsOrder(q, order) && Simple(q)
    ensures InServiceOrder(CanonicalQueryOf(q, order))
  {
    var pairs := Pairs(q, order);
    forall i, j | 0 <= i < j < |pairs| ensures !PairFlips(pairs[i], pairs[j]) {
      SimplePairs(q, order, i);
      SimplePairs(q, order, j);
      if pairs[i].0 == pairs[j].0 {
        SameNeverFlips(pairs[i].1);
      } else {
        LiteralNeverFlips(pairs[i].0, pairs[j].0);
      }
    }
    ServiceOrderExactly(q, order);
  }

  lemma PresignKeysLiteral(token: Bytes, k: Bytes)
    requires k in PresignKeys(token)
    ensures AllLiteral(k)
  {
  }

  /** Object URLs carry no query of their own, so what is signed for a download is in the
      protocol's order, whatever the credentials and the date hold. */
  lemma DownloadsInServiceOrder(credential: Bytes, date: Bytes, seconds: int, token: Bytes, order: seq<Bytes>)
    requires IsOrder(SignedValues(map[], credential, date, seconds, token), order)
    ensures InServiceOrder(CanonicalQueryOf(SignedValues(map[], credential, date, seconds, token), order))
  {
    var v := SignedValues(map[], credential, date, seconds, token);
    SignedParameters(map[], credential, date, seconds, token);
    forall k | k in v ensures AllLiteral(k) && |v[k]| == 1 {
      PresignKeysLiteral(token, k);
    }
    SimpleInServiceOrder(v, order);
  }
}
