/** Percent-encoding as request signing uses it (pkg/awssig/sigv4.go, internal/cloud/s3.go;
    RFC 3986, section 2.1). Strings are byte strings, as in Go. */
module Encoding {
  import opened Text

  type Octet = c: char | c as int < 256
  type Bytes = seq<Octet>

  /** Bytes never encoded; '/' among them only in paths. */
  predicate Kept(c: Octet, slash: bool) {
    || 'A' <= c <= 'Z' || 'a' <= c <= 'z' || '0' <= c <= '9'
    || c == '-' || c == '_' || c == '.' || c == '~' || (c == '/' && slash)
  }

  function HexDigit(n: nat): (c: Octet)
    requires n < 16
    ensures c != '%' && c != '/' && c != '&' && c != '='
  {
    if n < 10 then '0' + n as char else 'A' + (n - 10) as char
  }

  /** The hexadecimal digits in order, in both cases. */
  lemma HexDigitsRead(k: nat)
    requires k < 16
    ensures HexDigit(k) == "0123456789ABCDEF"[k]
    ensures HexValue("0123456789ABCDEF"[k]) == Some(k) && HexValue("0123456789abcdef"[k]) == Some(k)
  {
  }

  /** The value of a hexadecimal digit in either case. */
  function HexValue(c: Octet): (r: Option<nat>)
    ensures r.Some? ==> r.value < 16
  {
    if '0' <= c <= '9' then Some(c as int - '0' as int)
    else if 'A' <= c <= 'F' then Some(c as int - 'A' as int + 10)
    else if 'a' <= c <= 'f' then Some(c as int - 'a' as int + 10)
    else None
  }

  function EncodeByte(c: Octet, slash: bool): (r: Bytes)
    ensures r != []
  {
    if Kept(c, slash) then [c] else ['%', HexDigit(c as int / 16), HexDigit(c as int % 16)]
  }

  function Encode(s: Bytes, slash: bool): Bytes {
    if s == [] then [] else EncodeByte(s[0], slash) + Encode(s[1..], slash)
  }

  lemma {:induction false} EncodeConcat(a: Bytes, b: Bytes, slash: bool)
    ensures Encode(a + b, slash) == Encode(a, slash) + Encode(b, slash)
  {
    if a == [] {
      assert a + b == b;
    } else {
      assert (a + b)[1..] == a[1..] + b;
      EncodeConcat(a[1..], b, slash);
    }
  }

  lemma EncodeOne(c: Octet, slash: bool)
    ensures Encode([c], slash) == EncodeByte(c, slash)
  {
    assert [c][1..] == [];
  }

  /** uriEncode; `escapeKeySegment` is the case that encodes the slash too. */
  method UriEncode(s: Bytes, encodeSlash: bool) returns (b: Bytes)
    ensures b == Encode(s, !encodeSlash)
  {
    b := [];
    for i := 0 to |s|
      invariant b == Encode(s[..i], !encodeSlash)
    {
      var c := s[i];
      assert s[..i + 1] == s[..i] + [c];
      EncodeConcat(s[..i], [c], !encodeSlash);
      EncodeOne(c, !encodeSlash);
      if 'A' <= c <= 'Z' || 'a' <= c <= 'z' || '0' <= c <= '9' {
        b := b + [c];
      } else if c == '-' || c == '_' || c == '.' || c == '~' {
        b := b + [c];
      } else if c == '/' && !encodeSlash {
        b := b + [c];
      } else {
        b := b + ['%', HexDigit(c as int / 16), HexDigit(c as int % 16)];
      }
    }
    assert s[..|s|] == s;
  }

  /** url.PathUnescape: None where a '%' is not followed by two hexadecimal digits. */
  function Decode(s: Bytes): Option<Bytes> {
    if s == [] then Some([])
    else if s[0] != '%' then Prefixed(s[0], Decode(s[1..]))
    else if |s| < 3 || HexValue(s[1]).None? || HexValue(s[2]).None? then None
    else Prefixed((16 * HexValue(s[1]).value + HexValue(s[2]).value) as char, Decode(s[3..]))
  }

  function Prefixed(c: Octet, r: Option<Bytes>): Option<Bytes> {
    if r.None? then None else Some([c] + r.value)
  }

  lemma DecodeByte(c: Octet, slash: bool, rest: Bytes)
    ensures Decode(EncodeByte(c, slash) + rest) == Prefixed(c, Decode(rest))
  {
    var s := EncodeByte(c, slash) + rest;
    if Kept(c, slash) {
      assert s[1..] == rest;
    } else {
      assert s[3..] == rest;
      assert (16 * (c as int / 16) + c as int % 16) as char == c;
    }
  }

  /** Round trip: percent-decoding undoes uriEncode on all byte strings. */
  lemma {:induction false} DecodeUndoesEncode(s: Bytes, slash: bool)
    ensures Decode(Encode(s, slash)) == Some(s)
  {
    if s != [] {
      DecodeByte(s[0], slash, Encode(s[1..], slash));
      DecodeUndoesEncode(s[1..], slash);
      assert [s[0]] + s[1..] == s;
    }
  }

  // ---- the canonical form ----------------------------------------------------------------

  predicate IsUpperHex(c: Octet) { '0' <= c <= '9' || 'A' <= c <= 'F' }

  /** The unreserved characters of RFC 3986 (section 2.3), and the slash where it separates. */
  predicate Literal(c: Octet, slash: bool) {
    || 'A' <= c <= 'Z' || 'a' <= c <= 'z' || '0' <= c <= '9'
    || c == '-' || c == '.' || c == '_' || c == '~' || (slash && c == '/')
  }

  /** Canonical text: literal bytes as themselves, every other byte as '%' and two uppercase digits. */
  predicate IsEncoded(s: Bytes, slash: bool) {
    s == [] || (CodeLength(s) <= |s| && IsCode(s[..CodeLength(s)], slash) && IsEncoded(s[CodeLength(s)..], slash))
  }

  function CodeLength(s: Bytes): nat
    requires s != []
  {
    if s[0] == '%' then 3 else 1
  }

  /** The code of one byte. */
  predicate IsCode(t: Bytes, slash: bool) {
    if |t| == 1 then Literal(t[0], slash)
    else
      && |t| == 3 && t[0] == '%' && IsUpperHex(t[1]) && IsUpperHex(t[2])
      && !Literal((16 * HexValue(t[1]).value + HexValue(t[2]).value) as char, slash)
  }

  lemma {:induction false} EncodeIsEncoded(s: Bytes, slash: bool)
    ensures IsEncoded(Encode(s, slash), slash)
  {
    if s != [] {
      var code, rest := EncodeByte(s[0], slash), Encode(s[1..], slash);
      EncodeIsEncoded(s[1..], slash);
      EncodeByteIsCode(s[0], slash);
      assert (code + rest)[..|code|] == code && (code + rest)[|code|..] == rest;
    }
  }

  lemma EncodeByteIsCode(c: Octet, slash: bool)
    ensures IsCode(EncodeByte(c, slash), slash) && CodeLength(EncodeByte(c, slash)) == |EncodeByte(c, slash)|
  {
    assert (16 * (c as int / 16) + c as int % 16) as char == c;
  }

  lemma HexReads(c: Octet)
    requires IsUpperHex(c)
    ensures HexValue(c).Some? && HexDigit(HexValue(c).value) == c
  {
  }

  /** An escape is the code of the byte it names. */
  lemma EscapeReads(high: Octet, low: Octet) returns (c: Octet)
    requires IsUpperHex(high) && IsUpperHex(low)
    ensures c == (16 * HexValue(high).value + HexValue(low).value) as char
    ensures HexDigit(c as int / 16) == high && HexDigit(c as int % 16) == low
  {
    HexReads(high);
    HexReads(low);
    c := (16 * HexValue(high).value + HexValue(low).value) as char;
  }

  /** The first byte of canonical text: its code is what encodes that byte. */
  lemma FirstByte(s: Bytes, slash: bool) returns (c: Octet, n: nat)
    requires IsEncoded(s, slash) && s != []
    ensures 1 <= n <= |s| && IsEncoded(s[n..], slash)
    ensures EncodeByte(c, slash) == s[..n]
    ensures Decode(s) == Prefixed(c, Decode(s[n..]))
  {
    n := CodeLength(s);
    if s[0] == '%' {
      assert s[..3] == ['%', s[1], s[2]];
      c := EscapeReads(s[1], s[2]);
    } else {
      c := s[0];
      assert s[..1] == [c];
    }
  }

  /** Encoding undoes decoding on canonical text. */
  lemma {:induction false} EncodeUndoesDecode(s: Bytes, slash: bool)
    requires IsEncoded(s, slash)
    ensures Decode(s).Some? && Encode(Decode(s).value, slash) == s
  {
    if s != [] {
      var c, n := FirstByte(s, slash);
      EncodeUndoesDecode(s[n..], slash);
      var u := Decode(s[n..]).value;
      assert ([c] + u)[1..] == u;
      assert s[..n] + s[n..] == s;
    }
  }

  lemma {:induction false} EncodedConcat(a: Bytes, b: Bytes, slash: bool)
    requires IsEncoded(a, slash) && IsEncoded(b, slash)
    ensures IsEncoded(a + b, slash)
  {
    if a == [] {
      assert a + b == b;
    } else {
      var n := CodeLength(a);
      assert (a + b)[..n] == a[..n] && (a + b)[n..] == a[n..] + b;
      EncodedConcat(a[n..], b, slash);
    }
  }

  /** A separator cannot stand inside an escape, so canonical text splits at slashes. */
  lemma {:induction false} EncodedAroundSlash(a: Bytes, b: Bytes)
    ensures IsEncoded(a + ['/'] + b, true) <==> IsEncoded(a, true) && IsEncoded(b, true)
    decreases |a|
  {
    var t := a + ['/'] + b;
    if a == [] {
      assert t[0] == '/' && t[1..] == b;
    } else if Literal(a[0], true) {
      assert t[1..] == a[1..] + ['/'] + b;
      EncodedAroundSlash(a[1..], b);
    } else if a[0] == '%' && |a| >= 3 {
      assert t[3..] == a[3..] + ['/'] + b;
      EncodedAroundSlash(a[3..], b);
    } else {
      assert t[|a|] == '/';
    }
  }

  // ---- which text can be decoded -----------------------------------------------------------

  predicate IsHex(c: Octet) { '0' <= c <= '9' || 'A' <= c <= 'F' || 'a' <= c <= 'f' }

  /** Behind every '%' stand two hexadecimal digits. */
  predicate WellEscaped(s: Bytes) {
    forall k :: 0 <= k < |s| && s[k] == '%' ==> k + 2 < |s| && IsHex(s[k + 1]) && IsHex(s[k + 2])
  }

  lemma WellEscapedRest(s: Bytes, n: nat)
    requires 0 < n <= |s| && forall k :: 0 <= k < n && s[k] == '%' ==> k + 2 < |s| && IsHex(s[k + 1]) && IsHex(s[k + 2])
    ensures WellEscaped(s) <==> WellEscaped(s[n..])
  {
    if WellEscaped(s[n..]) {
      forall k | 0 <= k < |s| && s[k] == '%' ensures k + 2 < |s| && IsHex(s[k + 1]) && IsHex(s[k + 2]) {
        if k >= n { assert s[n..][k - n] == '%'; }
      }
    }
  }

  /** Text decodes exactly when every escape in it is complete. */
  lemma {:induction false} DecodesExactly(s: Bytes)
    ensures Decode(s).Some? <==> WellEscaped(s)
  {
    if s == [] {
    } else if s[0] != '%' {
      WellEscapedRest(s, 1);
      DecodesExactly(s[1..]);
    } else if |s| >= 3 && IsHex(s[1]) && IsHex(s[2]) {
      WellEscapedRest(s, 3);
      DecodesExactly(s[3..]);
    }
  }
}
