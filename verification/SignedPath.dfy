/** The path a request is sent to (internal/cloud/s3.go) and the path that is signed
    (pkg/awssig/sigv4.go). */
module SignedPath {
  import opened Text
  import opened Encoding

  // ---- splitting and joining (strings.Split, strings.Join) ----------------------------------

  function Split(s: Bytes, sep: Octet): (parts: seq<Bytes>)
    ensures |parts| >= 1
  {
    if s == [] then [[]]
    else
      var rest := Split(s[1..], sep);
      if s[0] == sep then [[]] + rest else [[s[0]] + rest[0]] + rest[1..]
  }

  function Join(parts: seq<Bytes>, sep: Octet): Bytes {
    if |parts| == 0 then []
    else if |parts| == 1 then parts[0]
    else parts[0] + ([sep] + Join(parts[1..], sep))
  }

  predicate Free(parts: seq<Bytes>, sep: Octet) { forall k :: 0 <= k < |parts| ==> sep !in parts[k] }

  lemma {:induction false} JoinUndoesSplit(s: Bytes, sep: Octet)
    ensures Join(Split(s, sep), sep) == s && Free(Split(s, sep), sep)
  {
    if s != [] {
      JoinUndoesSplit(s[1..], sep);
      var rest := Split(s[1..], sep);
      var parts := Split(s, sep);
      assert s == [s[0]] + s[1..];
      if s[0] == sep {
        assert parts[1..] == rest;
      } else {
        assert parts[1..] == rest[1..];
        if |rest| > 1 {
          var tail := [sep] + Join(rest[1..], sep);
          assert ([s[0]] + rest[0]) + tail == [s[0]] + (rest[0] + tail);
        }
      }
    }
  }

  /** A separator-free first part splits off. */
  lemma {:induction false} SplitFirst(part: Bytes, tail: Bytes, sep: Octet)
    requires sep !in part
    ensures Split(part + ([sep] + tail), sep) == [part] + Split(tail, sep)
    ensures Split(part, sep) == [part]
  {
    var s := part + ([sep] + tail);
    if part == [] {
      assert s[1..] == tail;
    } else {
      assert s[1..] == part[1..] + ([sep] + tail);
      SplitFirst(part[1..], tail, sep);
      assert [part[0]] + part[1..] == part;
      assert ([part[1..]] + Split(tail, sep))[1..] == Split(tail, sep);
    }
  }

  lemma {:induction false} SplitUndoesJoin(parts: seq<Bytes>, sep: Octet)
    requires |parts| >= 1 && Free(parts, sep)
    ensures Split(Join(parts, sep), sep) == parts
  {
    if |parts| == 1 {
      SplitFirst(parts[0], [], sep);
    } else {
      SplitUndoesJoin(parts[1..], sep);
      SplitFirst(parts[0], Join(parts[1..], sep), sep);
    }
  }

  // ---- the signed path ------------------------------------------------------------------------

  /** One segment: decoded where it can be, then encoded with slashes kept. */
  function CanonicalSegment(seg: Bytes): Bytes {
    var u := Decode(seg);
    Encode(if u.Some? then u.value else seg, true)
  }

  function CanonicalSegments(parts: seq<Bytes>): (r: seq<Bytes>)
    ensures |r| == |parts|
    ensures forall k :: 0 <= k < |parts| ==> r[k] == CanonicalSegment(parts[k])
  {
    seq(|parts|, k requires 0 <= k < |parts| => CanonicalSegment(parts[k]))
  }

  function CanonicalPath(path: Bytes): Bytes {
    if path == [] then ['/']
    else
      var joined := Join(CanonicalSegments(Split(path, '/')), '/');
      if ['/'] <= joined then joined else ['/'] + joined
  }

  /** canonicalURI, of the escaped path of the URL. */
  method CanonicalURI(path: Bytes) returns (joined: Bytes)
    ensures joined == CanonicalPath(path)
  {
    if path == [] {
      return ['/'];
    }
    var parts := Split(path, '/');
    var segments := parts;
    for i := 0 to |segments|
      invariant |segments| == |parts|
      invariant forall k :: 0 <= k < i ==> segments[k] == CanonicalSegment(parts[k])
      invariant forall k :: i <= k < |parts| ==> segments[k] == parts[k]
    {
      var unescaped := Decode(segments[i]);
      var encoded := UriEncode(if unescaped.Some? then unescaped.value else segments[i], false);
      segments := segments[i := encoded];
    }
    assert segments == CanonicalSegments(parts);
    joined := Join(segments, '/');
    if !(['/'] <= joined) {
      joined := ['/'] + joined;
    }
  }

  predicate AllEncoded(parts: seq<Bytes>) { forall k :: 0 <= k < |parts| ==> IsEncoded(parts[k], true) }

  lemma {:induction false} JoinEncoded(parts: seq<Bytes>)
    ensures IsEncoded(Join(parts, '/'), true) <==> AllEncoded(parts)
  {
    if |parts| > 1 {
      JoinEncoded(parts[1..]);
      EncodedAroundSlash(parts[0], Join(parts[1..], '/'));
      assert parts[0] + ['/'] + Join(parts[1..], '/') == Join(parts, '/');
      assert parts == [parts[0]] + parts[1..];
    }
  }

  /** The paths that are signed as they stand: rooted, and canonical throughout. */
  lemma CanonicalPathFixpoints(path: Bytes)
    ensures CanonicalPath(path) == path <==> ['/'] <= path && IsEncoded(path, true)
  {
    var parts := Split(path, '/');
    var canon := CanonicalSegments(parts);
    JoinUndoesSplit(path, '/');
    JoinEncoded(parts);
    if ['/'] <= path && IsEncoded(path, true) {
      forall k | 0 <= k < |parts| ensures canon[k] == parts[k] {
        EncodeUndoesDecode(parts[k], true);
      }
      assert canon == parts;
    }
    CanonicalPathIsCanonical(path);
  }

  lemma CanonicalPathIsCanonical(path: Bytes)
    ensures ['/'] <= CanonicalPath(path) && IsEncoded(CanonicalPath(path), true)
  {
    var canon := CanonicalSegments(Split(path, '/'));
    forall k | 0 <= k < |canon| ensures IsEncoded(canon[k], true) {
      var seg := Split(path, '/')[k];
      EncodeIsEncoded(if Decode(seg).Some? then Decode(seg).value else seg, true);
    }
    JoinEncoded(canon);
    SlashEncoded();
    EncodedConcat(['/'], Join(canon, '/'), true);
  }

  lemma SlashEncoded()
    ensures IsEncoded(['/'], true)
  {
    assert ['/'][1..] == [];
  }

  /** Signing is stable: canonicalising twice changes nothing, on any path whatever. */
  lemma CanonicalPathIdempotent(path: Bytes)
    ensures CanonicalPath(CanonicalPath(path)) == CanonicalPath(path)
  {
    CanonicalPathIsCanonical(path);
    CanonicalPathFixpoints(CanonicalPath(path));
  }

  /** The bytes a segment names: what its escapes decode to when they are all complete, and the
      segment as it stands otherwise. */
  function Named(seg: Bytes): Bytes {
    DecodesExactly(seg);
    if WellEscaped(seg) then Decode(seg).value else seg
  }

  function NamedPath(path: Bytes): Bytes {
    var parts := Split(path, '/');
    Join(seq(|parts|, k requires 0 <= k < |parts| => Named(parts[k])), '/')
  }

  lemma {:induction false} JoinEncodes(parts: seq<Bytes>, encoded: seq<Bytes>)
    requires |encoded| == |parts| && forall k :: 0 <= k < |parts| ==> encoded[k] == Encode(parts[k], true)
    ensures Join(encoded, '/') == Encode(Join(parts, '/'), true)
  {
    if |parts| > 1 {
      JoinEncodes(parts[1..], encoded[1..]);
      var tail := Join(parts[1..], '/');
      EncodeConcat(parts[0], ['/'] + tail, true);
      EncodeConcat(['/'], tail, true);
      EncodeOne('/', true);
    }
  }

  lemma SlashFirst(s: Bytes)
    ensures ['/'] <= Encode(s, true) <==> ['/'] <= s
  {
  }

  /** What is signed for any path: the bytes its segments name, rooted, encoded once. */
  lemma CanonicalPathIsEncoding(path: Bytes)
    ensures var plain := NamedPath(path);
            CanonicalPath(path) == Encode(if ['/'] <= plain then plain else ['/'] + plain, true)
  {
    var parts, plain := Split(path, '/'), NamedPath(path);
    var named := seq(|parts|, k requires 0 <= k < |parts| => Named(parts[k]));
    var canon := CanonicalSegments(parts);
    forall k | 0 <= k < |parts| ensures canon[k] == Encode(named[k], true) { DecodesExactly(parts[k]); }
    JoinEncodes(named, canon);
    SlashFirst(plain);
    EncodeConcat(['/'], plain, true);
    EncodeOne('/', true);
  }

  // ---- the sent path ---------------------------------------------------------------------------

  /** strings.TrimPrefix(key, "/"). */
  function Trimmed(key: Bytes): Bytes {
    if key != [] && key[0] == '/' then key[1..] else key
  }

  function EscapedSegments(parts: seq<Bytes>): (r: seq<Bytes>)
    ensures |r| == |parts|
    ensures forall k :: 0 <= k < |parts| ==> r[k] == Encode(parts[k], false)
  {
    seq(|parts|, k requires 0 <= k < |parts| => Encode(parts[k], false))
  }

  function EscapedKey(key: Bytes): Bytes {
    Join(EscapedSegments(Split(Trimmed(key), '/')), '/')
  }

  /** escapeKeySegment. */
  method EscapeKeySegment(s: Bytes) returns (b: Bytes)
    ensures b == Encode(s, false)
  {
    b := [];
    for i := 0 to |s|
      invariant b == Encode(s[..i], false)
    {
      var c := s[i];
      assert s[..i + 1] == s[..i] + [c];
      EncodeConcat(s[..i], [c], false);
      EncodeOne(c, false);
      if 'A' <= c <= 'Z' || 'a' <= c <= 'z' || '0' <= c <= '9' || c == '-' || c == '_' || c == '.' || c == '~' {
        b := b + [c];
      } else {
        b := b + ['%', HexDigit(c as int / 16), HexDigit(c as int % 16)];
      }
    }
    assert s[..|s|] == s;
  }

  /** escapeKeyPath. */
  method EscapeKeyPath(key: Bytes) returns (r: Bytes)
    ensures r == EscapedKey(key)
  {
    var parts := Split(Trimmed(key), '/');
    var segments := parts;
    for i := 0 to |segments|
      invariant |segments| == |parts|
      invariant forall k :: 0 <= k < i ==> segments[k] == Encode(parts[k], false)
      invariant forall k :: i <= k < |parts| ==> segments[k] == parts[k]
    {
      var escaped := EscapeKeySegment(segments[i]);
      segments := segments[i := escaped];
    }
    assert segments == EscapedSegments(parts);
    r := Join(segments, '/');
  }

  /** On slash-free text the two escapers agree. */
  lemma {:induction false} EscapersAgree(s: Bytes)
    requires '/' !in s
    ensures Encode(s, true) == Encode(s, false)
  {
    if s != [] { EscapersAgree(s[1..]); }
  }

  /** Escaping segment by segment is encoding the whole key with its slashes kept. */
  lemma {:induction false} EscapeBySegment(parts: seq<Bytes>)
    requires |parts| >= 1 && Free(parts, '/')
    ensures Join(EscapedSegments(parts), '/') == Encode(Join(parts, '/'), true)
  {
    EscapersAgree(parts[0]);
    if |parts| > 1 {
      EscapeBySegment(parts[1..]);
      assert EscapedSegments(parts)[1..] == EscapedSegments(parts[1..]);
      var tail := Join(parts[1..], '/');
      EncodeConcat(parts[0], ['/'] + tail, true);
      EncodeConcat(['/'], tail, true);
      EncodeOne('/', true);
    }
  }

  lemma EscapedKeyIsEncoding(key: Bytes)
    ensures EscapedKey(key) == Encode(Trimmed(key), true)
  {
    JoinUndoesSplit(Trimmed(key), '/');
    EscapeBySegment(Split(Trimmed(key), '/'));
  }

  /** The path decodes to the key, so different keys (past one leading slash) have different paths. */
  lemma KeyReadsBack(key: Bytes)
    ensures !(['/'] <= key) ==> Decode(EscapedKey(key)) == Some(key)
    ensures ['/'] <= key ==> Decode(EscapedKey(key)) == Some(key[1..])
  {
    EscapedKeyIsEncoding(key);
    DecodeUndoesEncode(Trimmed(key), true);
  }

  /** The path part of objectURL: virtual-hosted style without a bucket, path style with it. */
  function ObjectPath(bucket: Option<Bytes>, key: Bytes): Bytes {
    (if bucket.None? then [] else ['/'] + bucket.value) + ['/'] + EscapedKey(key)
  }

  /** Signed path equals sent path, for every key: always in virtual-hosted style, and in path
      style exactly when the bucket name, which is inserted unescaped, is canonical itself. */
  lemma SignedPathIsSentPath(bucket: Option<Bytes>, key: Bytes)
    ensures CanonicalPath(ObjectPath(bucket, key)) == ObjectPath(bucket, key)
            <==> bucket.None? || IsEncoded(bucket.value, true)
  {
    EscapedKeyIsEncoding(key);
    EncodeIsEncoded(Trimmed(key), true);
    CanonicalPathFixpoints(ObjectPath(bucket, key));
    var base := if bucket.None? then [] else ['/'] + bucket.value;
    EncodedAroundSlash(base, EscapedKey(key));
    if bucket.Some? {
      EncodedAroundSlash([], bucket.value);
      assert [] + ['/'] + bucket.value == base;
    }
  }
}
