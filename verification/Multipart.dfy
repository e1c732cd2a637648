/** The `multipart/related` upload body and a receiver that follows the delimiter
    rules of section 5.1.1 of RFC 2046. */
module Multipart {
  import opened Prelude

  const CR: byte := 13
  const LF: byte := 10
  const CRLF: bytes := [13, 10]

  /** "--gdriver_multipart_boundary" */
  const DASH_BOUNDARY: bytes := [
    0x2D, 0x2D, 0x67, 0x64, 0x72, 0x69, 0x76, 0x65, 0x72, 0x5F, 0x6D, 0x75, 0x6C, 0x74,
    0x69, 0x70, 0x61, 0x72, 0x74, 0x5F, 0x62, 0x6F, 0x75, 0x6E, 0x64, 0x61, 0x72, 0x79]

  /** What separates body parts: the CRLF belongs to the delimiter. */
  const DELIMITER: bytes := CRLF + DASH_BOUNDARY

  /** "Content-Type: application/json; charset=UTF-8" */
  const JSON_HEADER: bytes := [
    0x43, 0x6F, 0x6E, 0x74, 0x65, 0x6E, 0x74, 0x2D, 0x54, 0x79, 0x70, 0x65, 0x3A, 0x20,
    0x61, 0x70, 0x70, 0x6C, 0x69, 0x63, 0x61, 0x74, 0x69, 0x6F, 0x6E, 0x2F, 0x6A, 0x73,
    0x6F, 0x6E, 0x3B, 0x20, 0x63, 0x68, 0x61, 0x72, 0x73, 0x65, 0x74, 0x3D, 0x55, 0x54,
    0x46, 0x2D, 0x38]

  /** "Content-Type: " */
  const TYPE_HEADER: bytes := [
    0x43, 0x6F, 0x6E, 0x74, 0x65, 0x6E, 0x74, 0x2D, 0x54, 0x79, 0x70, 0x65, 0x3A, 0x20]

  /** "--", which ends the closing delimiter. */
  const DASHES: bytes := [0x2D, 0x2D]

  /** One part: header line, blank line, content. */
  function Part(header: bytes, content: bytes): bytes {
    header + CRLF + CRLF + content
  }

  function Body(json: bytes, mime: bytes, content: bytes): bytes {
    DASH_BOUNDARY + CRLF + Part(JSON_HEADER, json)
    + DELIMITER + CRLF + Part(TYPE_HEADER + mime, content)
    + DELIMITER + DASHES + CRLF
  }

  /** The body as the client appends it. */
  method BuildBody(json: bytes, mime: bytes, content: bytes) returns (body: bytes)
    ensures body == Body(json, mime, content)
  {
    body := [];
    body := body + (DASH_BOUNDARY + CRLF);
    body := body + (JSON_HEADER + CRLF + CRLF);
    body := body + json;
    body := body + CRLF;
    body := body + (DASH_BOUNDARY + CRLF);
    body := body + (TYPE_HEADER + mime + CRLF + CRLF);
    body := body + content;
    body := body + CRLF;
    body := body + (DASH_BOUNDARY + DASHES + CRLF);
    SameBody(DASH_BOUNDARY, CRLF, JSON_HEADER, json, TYPE_HEADER, mime, content, DASHES);
  }

  /** Appending line by line gives the parts with their delimiters. */
  lemma SameBody(open: bytes, nl: bytes, h1: bytes, json: bytes, h2: bytes, mime: bytes, content: bytes, close: bytes)
    ensures [] + (open + nl) + (h1 + nl + nl) + json + nl + (open + nl) + (h2 + mime + nl + nl) + content + nl + (open + close + nl)
         == open + nl + (h1 + nl + nl + json) + (nl + open) + nl + (h2 + mime + nl + nl + content) + (nl + open) + close + nl
  {
  }

  /* ---- Searching ---- */

  predicate StartsWith(s: bytes, p: bytes) {
    |p| <= |s| && s[..|p|] == p
  }

  /** Start of the first occurrence of `p`, or the length when there is none. */
  function Search(s: bytes, p: bytes): (n: nat)
    ensures n <= |s|
  {
    if s == [] || StartsWith(s, p) then 0 else 1 + Search(s[1..], p)
  }

  ghost predicate Contains(s: bytes, p: bytes) {
    exists i :: 0 <= i <= |s| && StartsWith(s[i..], p)
  }

  /** The first byte of `p` occurs nowhere else in `p`. */
  predicate Unbordered(p: bytes) {
    p != [] && forall i :: 0 < i < |p| ==> p[i] != p[0]
  }

  /** In `s + p + rest` the first occurrence of `p` is the one after `s` exactly when
      `p` does not occur in `s`: an occurrence cannot straddle the two, even when `s`
      ends in a part of `p`. */
  lemma {:induction false} FirstOccurrence(s: bytes, p: bytes, rest: bytes)
    requires Unbordered(p)
    ensures Search(s + p + rest, p) == |s| <==> !Contains(s, p)
    ensures Search(s + p + rest, p) <= |s|
  {
    var all := s + p + rest;
    if s == [] {
      assert all[..|p|] == p;
      assert forall i :: 0 <= i <= |s| ==> s[i..] == [];
    } else {
      assert all[1..] == s[1..] + p + rest;
      FirstOccurrence(s[1..], p, rest);
      assert Contains(s, p) <==> StartsWith(s, p) || Contains(s[1..], p) by {
        if i :| 0 <= i <= |s| && StartsWith(s[i..], p) {
          if i == 0 {
            assert s[0..] == s;
          } else {
            assert s[1..][i - 1..] == s[i..];
          }
        }
        if j :| 0 <= j <= |s[1..]| && StartsWith(s[1..][j..], p) {
          assert s[j + 1..] == s[1..][j..];
        }
        assert s[0..] == s;
      }
      assert StartsWith(all, p) <==> StartsWith(s, p) by {
        assert all[|s|] == p[0];
        assert |s| < |p| ==> all[..|p|][|s|] == all[|s|];
        if |p| <= |s| {
          assert all[..|p|] == s[..|p|];
        }
      }
    }
  }

  lemma StartsWithHead(s: bytes, p: bytes)
    requires p != [] && StartsWith(s, p)
    ensures s[0] == p[0]
  {
    assert s[..|p|][0] == s[0];
  }

  lemma NoHeadNoOccurrence(s: bytes, p: bytes)
    requires p != [] && p[0] !in s
    ensures !Contains(s, p)
  {
    forall i | 0 <= i <= |s| ensures !StartsWith(s[i..], p) {
      if StartsWith(s[i..], p) {
        StartsWithHead(s[i..], p);
      }
    }
  }

  lemma ConstantsHaveNoCR()
    ensures CR !in DASH_BOUNDARY && CR !in JSON_HEADER && CR !in TYPE_HEADER
    ensures Unbordered(DELIMITER) && DELIMITER[0] == CR
    ensures CRLF[0] == CR && Unbordered(CRLF)
  {
    assert CR !in DASH_BOUNDARY && CR !in JSON_HEADER && CR !in TYPE_HEADER;
    assert DELIMITER[1] == LF;
    assert forall i :: 2 <= i < |DELIMITER| ==> DELIMITER[i] in DASH_BOUNDARY;
  }

  /* ---- The receiver ---- */

  /** What `p` leaves of `s`, or nothing when `s` does not start with `p`. */
  function After(s: bytes, p: bytes): Option<bytes> {
    if StartsWith(s, p) then Some(s[|p|..]) else None
  }

  /** The text before the first `p` and the text after it. */
  function SplitOn(s: bytes, p: bytes): Option<(bytes, bytes)>
    requires p != []
  {
    var n := Search(s, p);
    if n < |s| && StartsWith(s[n..], p) then Some((s[..n], s[n + |p|..])) else None
  }

  /** One part, headers first: header line, then the body up to the first delimiter.  The
      line break of the blank line can be the one of the delimiter: the part then has no
      content. */
  function ParsePart(s: bytes): Option<(bytes, bytes, bytes)> {
    match After(s, CRLF)
    case None => None
    case Some(inside) =>
      match SplitOn(inside, CRLF)
      case None => None
      case Some((header, afterHeader)) =>
        match SplitOn(afterHeader, DELIMITER)
        case None => None
        case Some((body, more)) =>
          if body == [] then Some((header, [], more))
          else
            match After(body, CRLF)
            case None => None
            case Some(content) => Some((header, content, more))
  }

  datatype Upload = Upload(json: bytes, mime: bytes, content: bytes)

  /** Two parts and the closing delimiter. */
  function ParseBody(body: bytes): Option<Upload> {
    match After(body, DASH_BOUNDARY)
    case None => None
    case Some(s) =>
      match ParsePart(s)
      case None => None
      case Some((h1, json, s2)) =>
        match ParsePart(s2)
        case None => None
        case Some((h2, content, s3)) =>
          match After(h2, TYPE_HEADER)
          case None => None
          case Some(mime) =>
            if h1 == JSON_HEADER && StartsWith(s3, DASHES) then Some(Upload(json, mime, content)) else None
  }

  lemma AfterPrefix(p: bytes, rest: bytes)
    ensures After(p + rest, p) == Some(rest)
  {
    assert (p + rest)[..|p|] == p && (p + rest)[|p|..] == rest;
  }

  lemma RegroupParts(open: bytes, nl: bytes, p1: bytes, delim: bytes, p2: bytes, close: bytes)
    ensures open + nl + p1 + delim + nl + p2 + delim + close + nl
         == open + (nl + p1 + delim + (nl + p2 + delim + (close + nl)))
  {
  }

  lemma SplitAtFirst(s: bytes, p: bytes, rest: bytes)
    requires Unbordered(p)
    ensures !Contains(s, p) ==> SplitOn(s + p + rest, p) == Some((s, rest))
    ensures Contains(s, p) && SplitOn(s + p + rest, p).Some? ==> |SplitOn(s + p + rest, p).value.0| < |s|
  {
    var all := s + p + rest;
    FirstOccurrence(s, p, rest);
    assert all[|s|..] == p + rest && (p + rest)[..|p|] == p;
    assert all[..|s|] == s && all[|s| + |p|..] == rest;
  }

  /** No line of the text starts with the dash boundary. */
  ghost predicate NoDelimiterLine(text: bytes) {
    !Contains(CRLF + text, DELIMITER)
  }

  /** That is: the text does not start with the dash boundary and does not contain it
      after a line break. */
  lemma NoDelimiterLineIff(text: bytes)
    ensures NoDelimiterLine(text) <==> !StartsWith(text, DASH_BOUNDARY) && !Contains(text, DELIMITER)
  {
    ConstantsHaveNoCR();
    var all := CRLF + text;
    assert forall i :: 0 <= i <= |text| ==> all[i + 2..] == text[i..];
    if Contains(all, DELIMITER) {
      var i :| 0 <= i <= |all| && StartsWith(all[i..], DELIMITER);
      StartsWithHead(all[i..], DELIMITER);
      assert all[i..][0] == all[i] && i != 1;
      if i == 0 {
        forall j | 0 <= j < |DASH_BOUNDARY| ensures text[j] == DASH_BOUNDARY[j] {
          assert all[j + 2] == all[0..][..|DELIMITER|][j + 2] == DELIMITER[j + 2];
        }
      } else {
        assert StartsWith(text[i - 2..], DELIMITER);
      }
    }
    if StartsWith(text, DASH_BOUNDARY) {
      assert all[0..][..|DELIMITER|] == CRLF + text[..|DASH_BOUNDARY|];
    }
    if i :| 0 <= i <= |text| && StartsWith(text[i..], DELIMITER) {
      assert StartsWith(all[i + 2..], DELIMITER);
    }
  }

  /** A part comes back whole exactly when its content has no delimiter line. */
  lemma PartRoundTrip(header: bytes, content: bytes, more: bytes)
    requires CR !in header
    ensures var r := ParsePart(CRLF + Part(header, content) + DELIMITER + more);
      if NoDelimiterLine(content) then r == Some((header, content, more))
      else r.Some? ==> r.value.1 != content
  {
    ConstantsHaveNoCR();
    var body := CRLF + content;
    var tail := body + DELIMITER + more;
    var inside := header + CRLF + tail;
    assert CRLF + Part(header, content) + DELIMITER + more == CRLF + inside;
    AfterPrefix(CRLF, inside);
    NoHeadNoOccurrence(header, CRLF);
    SplitAtFirst(header, CRLF, tail);
    AfterPrefix(CRLF, content);
    SplitAtFirst(body, DELIMITER, more);
    assert content == [] ==> NoDelimiterLine(content) by {
      if content == [] {
        NoDelimiterLineIff(content);
        assert content[0..] == [];
      }
    }
  }

  /** The receiver gets back metadata, type and content exactly when neither metadata nor
      content has a line that starts with the dash boundary.  The type comes from a fixed
      table. */
  lemma BodyRoundTrip(json: bytes, mime: bytes, content: bytes)
    requires CR !in mime
    ensures ParseBody(Body(json, mime, content)) == Some(Upload(json, mime, content))
            <==> NoDelimiterLine(json) && NoDelimiterLine(content)
  {
    ConstantsHaveNoCR();
    var closing := DASHES + CRLF;
    var header := TYPE_HEADER + mime;
    var second := CRLF + Part(header, content) + DELIMITER + closing;
    var first := CRLF + Part(JSON_HEADER, json) + DELIMITER + second;
    RegroupParts(DASH_BOUNDARY, CRLF, Part(JSON_HEADER, json), DELIMITER, Part(header, content), DASHES);
    AfterPrefix(DASH_BOUNDARY, first);
    PartRoundTrip(JSON_HEADER, json, second);
    PartRoundTrip(header, content, closing);
    AfterPrefix(TYPE_HEADER, mime);
    AfterPrefix(DASHES, CRLF);
  }

  /** Serialised metadata has no delimiter line: it opens with a brace and its control
      characters are escaped. */
  lemma JsonHasNoDelimiterLine(json: bytes)
    requires json != [] && json[0] == 0x7B && CR !in json
    ensures NoDelimiterLine(json)
  {
    ConstantsHaveNoCR();
    NoHeadNoOccurrence(json, DELIMITER);
    NoDelimiterLineIff(json);
    if StartsWith(json, DASH_BOUNDARY) {
      StartsWithHead(json, DASH_BOUNDARY);
    }
  }

  /** A content that opens with the dash boundary, such as a saved upload body, does not
      come back although it holds no CRLF before that boundary. */
  lemma OpeningBoundaryIsLost(json: bytes, mime: bytes, rest: bytes)
    requires CR !in mime && CR !in rest
    ensures !Contains(DASH_BOUNDARY + rest, DELIMITER)
    ensures ParseBody(Body(json, mime, DASH_BOUNDARY + rest)) != Some(Upload(json, mime, DASH_BOUNDARY + rest))
  {
    ConstantsHaveNoCR();
    var content := DASH_BOUNDARY + rest;
    NoHeadNoOccurrence(content, DELIMITER);
    NoDelimiterLineIff(content);
    BodyRoundTrip(json, mime, content);
  }

  /** The bytes of the fixed texts, as characters. */
  predicate Spells(bs: bytes, text: string) {
    |bs| == |text| && forall i :: 0 <= i < |bs| ==> bs[i] as char == text[i]
  }

  lemma FixedTexts()
    ensures Spells(DASH_BOUNDARY, "--gdriver_multipart_boundary")
    ensures Spells(TYPE_HEADER, "Content-Type: ") && Spells(DASHES, "--")
  {
  }
}
