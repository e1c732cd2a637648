/** Percent-encoding of URL parts and the query strings built from it. */
module UrlEncoding {
  import opened Prelude

  const PERCENT: byte := 0x25
  const AMPERSAND: byte := 0x26
  const EQUALS: byte := 0x3D

  /** The bytes that are copied unchanged: letters, digits and - _ . ~ : / , ( ) ' ! * @ ; = $ */
  predicate Allowed(b: byte) {
    || 0x41 <= b <= 0x5A || 0x61 <= b <= 0x7A || 0x30 <= b <= 0x39
    || b in {0x2D, 0x5F, 0x2E, 0x7E, 0x3A, 0x2F, 0x2C, 0x28, 0x29, 0x27, 0x21, 0x2A, 0x40, 0x3B, 0x3D, 0x24}
  }

  /** Upper-case hexadecimal digit. */
  function HexDigit(n: nat): byte
    requires n < 16
  {
    if n < 10 then 0x30 + n else 0x41 + (n - 10)
  }

  function HexValue(b: byte): Option<nat> {
    if 0x30 <= b <= 0x39 then Some(b - 0x30)
    else if 0x41 <= b <= 0x46 then Some(b - 0x41 + 10)
    else if 0x61 <= b <= 0x66 then Some(b - 0x61 + 10)
    else None
  }

  function EncodeByte(b: byte): bytes {
    if Allowed(b) then [b] else [PERCENT, HexDigit(b / 16), HexDigit(b % 16)]
  }

  function Encode(s: bytes): bytes {
    if s == [] then [] else EncodeByte(s[0]) + Encode(s[1..])
  }

  lemma {:induction false} EncodeSnoc(s: bytes, b: byte)
    ensures Encode(s + [b]) == Encode(s) + EncodeByte(b)
  {
    if s == [] {
      assert s + [b] == [b] && [b][1..] == [];
    } else {
      assert (s + [b])[1..] == s[1..] + [b];
      EncodeSnoc(s[1..], b);
    }
  }

  method UrlEncode(s: bytes) returns (result: bytes)
    ensures result == Encode(s)
  {
    result := [];
    for i := 0 to |s|
      invariant result == Encode(s[..i])
    {
      var b := s[i];
      EncodeSnoc(s[..i], b);
      assert s[..i] + [b] == s[..i + 1];
      var piece: bytes;
      if Allowed(b) {
        piece := [b];
      } else if b == 0x20 {
        piece := [PERCENT, 0x32, 0x30];
      } else {
        piece := [PERCENT, HexDigit(b / 16), HexDigit(b % 16)];
      }
      assert piece == EncodeByte(b);
      result := result + piece;
    }
    assert s[..|s|] == s;
  }

  /** Percent-decoding, section 2.1 of RFC 3986; malformed escapes are rejected. */
  function Decode(s: bytes): Option<bytes> {
    if s == [] then Some([])
    else if s[0] != PERCENT then
      match Decode(s[1..])
      case None => None
      case Some(rest) => Some([s[0]] + rest)
    else if |s| < 3 || HexValue(s[1]).None? || HexValue(s[2]).None? then None
    else
      match Decode(s[3..])
      case None => None
      case Some(rest) => Some([16 * HexValue(s[1]).value + HexValue(s[2]).value] + rest)
  }

  lemma {:induction false} DecodeUndoesEncode(s: bytes)
    ensures Decode(Encode(s)) == Some(s)
  {
    if s != [] {
      DecodeUndoesEncode(s[1..]);
      var head, tail := EncodeByte(s[0]), Encode(s[1..]);
      assert Encode(s) == head + tail;
      assert (head + tail)[|head|..] == tail;
      assert [s[0]] + s[1..] == s;
    }
  }

  predicate UpperHex(b: byte) {
    0x30 <= b <= 0x39 || 0x41 <= b <= 0x46
  }

  /** The output holds only allowed bytes and complete escapes of other bytes. */
  predicate WellFormed(s: bytes) {
    s == [] || (if s[0] == PERCENT
                then |s| >= 3 && UpperHex(s[1]) && UpperHex(s[2]) && WellFormed(s[3..])
                else Allowed(s[0]) && WellFormed(s[1..]))
  }

  /** No control byte, space, non-ASCII byte, and none of " # & + < > ? [ \ ] ^ ` { | } */
  predicate Printable(b: byte) {
    0x21 <= b <= 0x7E
    && b !in {0x22, 0x23, 0x26, 0x2B, 0x3C, 0x3E, 0x3F, 0x5B, 0x5C, 0x5D, 0x5E, 0x60, 0x7B, 0x7C, 0x7D}
  }

  /** Text without percent signs and bytes that are not printable is its own encoding. */
  lemma {:induction false} PlainTextIsCopied(s: bytes)
    requires forall i :: 0 <= i < |s| ==> Printable(s[i]) && s[i] != PERCENT
    ensures Encode(s) == s
  {
    if s != [] {
      assert Printable(s[0]);
      PlainTextIsCopied(s[1..]);
      assert [s[0]] + s[1..] == s;
    }
  }

  lemma {:induction false} EncodeIsWellFormed(s: bytes)
    ensures WellFormed(Encode(s)) && AMPERSAND !in Encode(s)
    ensures forall i :: 0 <= i < |Encode(s)| ==> Printable(Encode(s)[i])
  {
    if s != [] {
      EncodeIsWellFormed(s[1..]);
      var head, tail := EncodeByte(s[0]), Encode(s[1..]);
      assert Encode(s) == head + tail && (head + tail)[|head|..] == tail;
    }
  }

  /* ---- Query strings ---- */

  datatype Param = Param(key: bytes, value: bytes)

  function RenderParam(p: Param): bytes {
    p.key + [EQUALS] + Encode(p.value)
  }

  /** `key=value` pairs joined by ampersands. */
  function Render(params: seq<Param>): bytes {
    if params == [] then []
    else if |params| == 1 then RenderParam(params[0])
    else RenderParam(params[0]) + [AMPERSAND] + Render(params[1..])
  }

  /** Position of the first `sep`, or the length. */
  function Find(s: bytes, sep: byte): (n: nat)
    ensures n <= |s|
  {
    if s == [] || s[0] == sep then 0 else 1 + Find(s[1..], sep)
  }

  lemma {:induction false} FindAfter(a: bytes, sep: byte, b: bytes)
    requires sep !in a
    ensures Find(a + [sep] + b, sep) == |a|
    ensures Find(a, sep) == |a|
  {
    if a != [] {
      assert (a + [sep] + b)[1..] == a[1..] + [sep] + b;
      FindAfter(a[1..], sep, b);
    }
  }

  /** A server's reading of one `key=value`: split at the first equals sign. */
  function ParseParam(s: bytes): Option<Param> {
    var n := Find(s, EQUALS);
    if n == |s| then None
    else match Decode(s[n + 1..])
         case None => None
         case Some(v) => Some(Param(s[..n], v))
  }

  function ParseQuery(s: bytes): Option<seq<Param>>
    decreases |s|
  {
    var n := Find(s, AMPERSAND);
    match ParseParam(s[..n])
    case None => None
    case Some(p) =>
      if n == |s| then Some([p])
      else match ParseQuery(s[n + 1..])
           case None => None
           case Some(ps) => Some([p] + ps)
  }

  /** The keys of the client are fixed words: no separator occurs in them. */
  predicate PlainKey(p: Param) {
    AMPERSAND !in p.key && EQUALS !in p.key
  }

  lemma ParamRoundTrip(p: Param)
    requires PlainKey(p)
    ensures ParseParam(RenderParam(p)) == Some(p)
    ensures AMPERSAND !in RenderParam(p)
  {
    var s, v := RenderParam(p), Encode(p.value);
    FindAfter(p.key, EQUALS, v);
    assert s[|p.key| + 1..] == v && s[..|p.key|] == p.key;
    DecodeUndoesEncode(p.value);
    EncodeIsWellFormed(p.value);
  }

  /** An assembled query splits back into exactly its keys and values, even when the
      values contain ampersands, percent signs or equals signs. */
  lemma {:induction false} QueryRoundTrip(params: seq<Param>)
    requires params != [] && PlainKeys(params)
    ensures ParseQuery(Render(params)) == Some(params)
  {
    var head := RenderParam(params[0]);
    ParamRoundTrip(params[0]);
    if |params| == 1 {
      FindAfter(head, AMPERSAND, []);
      assert Render(params)[..|head|] == head;
      assert params == [params[0]];
    } else {
      var rest := Render(params[1..]);
      assert Render(params) == head + [AMPERSAND] + rest;
      FindAfter(head, AMPERSAND, rest);
      assert Render(params)[..|head|] == head && Render(params)[|head| + 1..] == rest;
      QueryRoundTrip(params[1..]);
      assert [params[0]] + params[1..] == params;
    }
  }

  predicate PlainKeys(params: seq<Param>) {
    forall k :: 0 <= k < |params| ==> PlainKey(params[k])
  }

  /** Push an optional parameter. */
  method PushParam(params: seq<Param>, key: bytes, value: Option<bytes>) returns (more: seq<Param>)
    requires PlainKeys(params) && AMPERSAND !in key && EQUALS !in key
    ensures more == params + OptionalParam(key, value) && PlainKeys(more)
  {
    more := params;
    if value.Some? {
      more := more + [Param(key, value.value)];
    }
  }

  /** Query assembly of `files_list`: optional parameters first, `fields` last. */
  method FilesListQuery(q: Option<bytes>, pageToken: Option<bytes>, pageSize: Option<bytes>, fields: bytes)
      returns (query: bytes)
    ensures ParseQuery(query) ==
      Some(OptionalParam(Q, q) + OptionalParam(PAGE_TOKEN, pageToken) + OptionalParam(PAGE_SIZE, pageSize)
           + OptionalParam(FIELDS, Some(fields)))
  {
    var params := PushParam([], Q, q);
    assert [] + OptionalParam(Q, q) == OptionalParam(Q, q);
    params := PushParam(params, PAGE_TOKEN, pageToken);
    params := PushParam(params, PAGE_SIZE, pageSize);
    params := PushParam(params, FIELDS, Some(fields));
    query := Render(params);
    QueryRoundTrip(params);
  }

  const Q: bytes := [0x71]
  const PAGE_TOKEN: bytes := [0x70, 0x61, 0x67, 0x65, 0x54, 0x6F, 0x6B, 0x65, 0x6E]
  const PAGE_SIZE: bytes := [0x70, 0x61, 0x67, 0x65, 0x53, 0x69, 0x7A, 0x65]
  const FIELDS: bytes := [0x66, 0x69, 0x65, 0x6C, 0x64, 0x73]

  function OptionalParam(key: bytes, value: Option<bytes>): seq<Param> {
    if value.None? then [] else [Param(key, value.value)]
  }
}
