/**
 * Turning a `data:` URL produced by the canvas into the bytes and MIME type
 * of a blob: split on ',', take the MIME type from the header with the
 * pattern /:(.*?);/, decode the payload, and copy the decoded string into a
 * byte array one code unit at a time.
 */
module DataUrl {
  import opened Wrappers
  import FileNames

  /** An element of a Uint8Array. */
  newtype byte = x: int | 0 <= x < 256

  datatype Blob = Blob(bytes: seq<byte>, mimeType: string)

  /** Why the conversion throws: the header has no `:...;` part, or the payload is not base64. */
  datatype BlobError = NoMimeType | BadBase64

  // ----- String.prototype.split with a one-character separator -----

  /** All pieces of s between separators, in order; there is always at least one. */
  function Split(s: string, sep: char): (parts: seq<string>)
    ensures |parts| >= 1
    ensures forall i :: 0 <= i < |parts| ==> sep !in parts[i]
  {
    if s == [] then [""]
    else
      var rest := Split(s[1..], sep);
      if s[0] == sep then [""] + rest else [[s[0]] + rest[0]] + rest[1..]
  }

  /** The pieces glued back together with the separator between them. */
  function Join(parts: seq<string>, sep: char): string
    requires |parts| >= 1
  {
    if |parts| == 1 then parts[0] else parts[0] + [sep] + Join(parts[1..], sep)
  }

  /** Splitting loses nothing: joining the pieces gives back the string. */
  lemma {:induction false} JoinSplit(s: string, sep: char)
    ensures Join(Split(s, sep), sep) == s
    decreases |s|
  {
    if s != [] {
      var rest := Split(s[1..], sep);
      JoinSplit(s[1..], sep);
      if s[0] == sep {
        assert ([""] + rest)[1..] == rest;
      } else {
        var parts := [[s[0]] + rest[0]] + rest[1..];
        if |rest| == 1 {
          assert Join(parts, sep) == [s[0]] + rest[0];
        } else {
          assert parts[1..] == rest[1..];
          assert Join(rest, sep) == rest[0] + [sep] + Join(rest[1..], sep);
        }
      }
    }
  }

  /** A separator-free piece followed by a separator splits off as the first piece. */
  lemma {:induction false} SplitPiece(p: string, sep: char, t: string)
    requires sep !in p
    ensures Split(p + [sep] + t, sep) == [p] + Split(t, sep)
    ensures Split(p, sep) == [p]
    decreases |p|
  {
    if p == [] {
      assert p + [sep] + t == [sep] + t;
      assert ([sep] + t)[1..] == t;
    } else {
      SplitPiece(p[1..], sep, t);
      assert (p + [sep] + t)[1..] == p[1..] + [sep] + t;
      assert [p[0]] + p[1..] == p;
    }
  }

  /**
   * Where the first two pieces lie: with no separator the only piece is the
   * whole string; otherwise the first piece runs up to the first separator,
   * and the second from there up to the next separator or the end.
   */
  lemma SplitLayout(s: string, sep: char)
    ensures |Split(s, sep)| == 1 <==> sep !in s
    ensures |Split(s, sep)| == 1 ==> Split(s, sep)[0] == s
    ensures |Split(s, sep)| >= 2 ==>
      var a, b := Split(s, sep)[0], Split(s, sep)[1];
      && |a| + 1 + |b| <= |s|
      && s[..|a|] == a && s[|a|] == sep && s[|a| + 1..|a| + 1 + |b|] == b
      && (|a| + 1 + |b| < |s| ==> s[|a| + 1 + |b|] == sep)
  {
    JoinSplit(s, sep);
    if |Split(s, sep)| >= 2 {
      JoinLayout(Split(s, sep), sep);
    }
  }

  /** In a join of two or more pieces, the first two sit before and after the first separator. */
  lemma JoinLayout(parts: seq<string>, sep: char)
    requires |parts| >= 2
    ensures
      var s, a, b := Join(parts, sep), parts[0], parts[1];
      && |a| + 1 + |b| <= |s|
      && s[..|a|] == a && s[|a|] == sep && s[|a| + 1..|a| + 1 + |b|] == b
      && (|a| + 1 + |b| < |s| ==> s[|a| + 1 + |b|] == sep)
  {
    var a, b := parts[0], parts[1];
    var rest := Join(parts[1..], sep);
    if |parts| == 2 {
      assert rest == b;
    } else {
      assert parts[1..][1..] == parts[2..];
      assert rest == b + [sep] + Join(parts[2..], sep);
    }
    var s := a + [sep] + rest;
    assert s[..|a|] == a;
    assert s[|a| + 1..|a| + 1 + |b|] == b;
  }

  /** Joining separator-free pieces and splitting again gives back the pieces. */
  lemma {:induction false} SplitJoin(parts: seq<string>, sep: char)
    requires |parts| >= 1
    requires forall i :: 0 <= i < |parts| ==> sep !in parts[i]
    ensures Split(Join(parts, sep), sep) == parts
    decreases |parts|
  {
    if |parts| == 1 {
      SplitPiece(parts[0], sep, []);
    } else {
      SplitJoin(parts[1..], sep);
      SplitPiece(parts[0], sep, Join(parts[1..], sep));
      assert [parts[0]] + parts[1..] == parts;
    }
  }

  // ----- The regular expression /:(.*?);/ -----

  /** The characters that `.` does not match. */
  predicate IsLineTerminator(c: char) {
    c == '\n' || c == '\r' || c == '\U{2028}' || c == '\U{2029}'
  }

  /** s[q] is the ';' at which the lazy `.*?;` starting at the front of s stops. */
  predicate ClosesAt(s: string, q: nat) {
    q < |s| && s[q] == ';' && forall k :: 0 <= k < q ==> s[k] != ';' && !IsLineTerminator(s[k])
  }

  /** The capture of `(.*?);` at the front of s: the text before the first ';', if no line terminator precedes it. */
  function LazyGroup(s: string): (r: Option<string>)
    ensures r.Some? ==> |r.value| < |s| && s[|r.value|] == ';' && ';' !in r.value
  {
    if s == [] || IsLineTerminator(s[0]) then None
    else if s[0] == ';' then Some([])
    else match LazyGroup(s[1..])
      case Some(m) => Some([s[0]] + m)
      case None => None
  }

  /** The group is the text up to the first ';', and there is none when no ';' closes it. */
  lemma {:induction false} LazyGroupMeaning(s: string)
    ensures LazyGroup(s).Some? ==> ClosesAt(s, |LazyGroup(s).value|) && LazyGroup(s).value == s[..|LazyGroup(s).value|]
    ensures LazyGroup(s).None? ==> forall q :: 0 <= q < |s| ==> !ClosesAt(s, q)
  {
    if s != [] && !IsLineTerminator(s[0]) && s[0] != ';' {
      LazyGroupMeaning(s[1..]);
      assert forall q :: 1 <= q < |s| && ClosesAt(s, q) ==> ClosesAt(s[1..], q - 1);
    }
  }

  /** The pattern matches with its ':' at position p. */
  predicate MatchesAt(s: string, p: int) {
    0 <= p < |s| && s[p] == ':' && LazyGroup(s[p + 1..]).Some?
  }

  /** The regular-expression engine trying start positions from `from` on: the first one where the pattern matches. */
  function FirstMatch(s: string, from: nat): (p: Option<nat>)
    ensures p.Some? ==> from <= p.value < |s|
    decreases |s| - from
  {
    if from >= |s| then None
    else if MatchesAt(s, from) then Some(from)
    else FirstMatch(s, from + 1)
  }

  /** The position found matches, and no earlier position from `from` on does. */
  lemma {:induction false} FirstMatchMeaning(s: string, from: nat)
    ensures FirstMatch(s, from).Some? ==> from <= FirstMatch(s, from).value && MatchesAt(s, FirstMatch(s, from).value)
    ensures forall q :: from <= q < (if FirstMatch(s, from).Some? then FirstMatch(s, from).value else |s|) ==> !MatchesAt(s, q)
    decreases |s| - from
  {
    if from < |s| && !MatchesAt(s, from) {
      FirstMatchMeaning(s, from + 1);
    }
  }

  /** `s.match(/:(.*?);/)`, giving group 1 of the leftmost match, or None when there is no match. */
  function MimeMatch(s: string): (r: Option<string>)
    ensures r.Some? ==> ';' !in r.value && |r.value| + 2 <= |s|
  {
    match FirstMatch(s, 0)
    case None => None
    case Some(p) => LazyGroup(s[p + 1..])
  }

  /** There is a match exactly when some position matches, and its group is the one at the leftmost such position. */
  lemma MimeMatchLeftmost(s: string)
    ensures MimeMatch(s).None? <==> forall p :: 0 <= p < |s| ==> !MatchesAt(s, p)
    ensures forall p :: MatchesAt(s, p) && (forall q :: 0 <= q < p ==> !MatchesAt(s, q)) ==>
      MimeMatch(s) == LazyGroup(s[p + 1..])
  {
    FirstMatchMeaning(s, 0);
  }

  /** Text free of ';' and line terminators, followed by ';', is captured whole. */
  lemma {:induction false} LazyGroupOf(m: string, t: string)
    requires forall k :: 0 <= k < |m| ==> m[k] != ';' && !IsLineTerminator(m[k])
    ensures LazyGroup(m + ";" + t) == Some(m)
  {
    if m != [] {
      LazyGroupOf(m[1..], t);
      assert (m + ";" + t)[1..] == m[1..] + ";" + t;
      assert [m[0]] + m[1..] == m;
    }
  }

  /**
   * A header of the form `data:<m>;base64`, the form `toDataURL` produces,
   * gives the MIME type m whenever m has no ';' or line terminator.
   */
  lemma HeaderMime(m: string)
    requires forall k :: 0 <= k < |m| ==> m[k] != ';' && !IsLineTerminator(m[k])
    ensures MimeMatch("data:" + m + ";base64") == Some(m)
  {
    var s := "data:" + m + ";base64";
    LazyGroupOf(m, "base64");
    assert s[5..] == m + ";" + "base64";
    assert MatchesAt(s, 4);
    assert FirstMatch(s, 4) == Some(4);
    assert FirstMatch(s, 3) == Some(4) by { assert s[3] == 'a'; }
    assert FirstMatch(s, 2) == Some(4) by { assert s[2] == 't'; }
    assert FirstMatch(s, 1) == Some(4) by { assert s[1] == 'a'; }
    assert FirstMatch(s, 0) == Some(4) by { assert s[0] == 'd'; }
  }

  // ----- Code units to bytes -----

  /** Storing a code unit into a Uint8Array keeps it modulo 256. */
  function ByteOf(c: char): (b: byte)
    ensures b as int == c as int % 256
  {
    (c as int % 256) as byte
  }

  /** The bytes of a decoded string, one per character. */
  function CodeUnitBytes(s: string): (bytes: seq<byte>)
    ensures |bytes| == |s|
    ensures forall i :: 0 <= i < |s| ==> bytes[i] == ByteOf(s[i])
  {
    seq(|s|, i requires 0 <= i < |s| => ByteOf(s[i]))
  }

  /** The "binary string" whose characters are the given bytes, as atob produces it. */
  function BinaryString(bytes: seq<byte>): (s: string)
    ensures |s| == |bytes|
    ensures forall i :: 0 <= i < |s| ==> s[i] as int == bytes[i] as int
  {
    seq(|bytes|, i requires 0 <= i < |bytes| => bytes[i] as int as char)
  }

  /** Bytes survive the trip through a binary string. */
  lemma BytesRoundTrip(bytes: seq<byte>)
    ensures CodeUnitBytes(BinaryString(bytes)) == bytes
  {
  }

  /** A string whose characters are all below 256 survives the trip through bytes. */
  lemma BinaryStringRoundTrip(s: string)
    requires forall i :: 0 <= i < |s| ==> s[i] as int < 256
    ensures BinaryString(CodeUnitBytes(s)) == s
  {
    assert forall i :: 0 <= i < |s| ==> BinaryString(CodeUnitBytes(s))[i] as int == s[i] as int;
  }

  // ----- The type a Blob keeps -----

  /** The characters a blob type may hold: U+0020 to U+007E. */
  predicate IsPrintableAscii(c: char) {
    ' ' <= c <= '~'
  }

  /**
   * The Blob constructor's handling of its `type` option (section 3.1 of the
   * W3C File API): a type with a character outside U+0020-U+007E becomes "",
   * any other is converted to ASCII lowercase.
   */
  function BlobType(t: string): (r: string)
    ensures r == [] || |r| == |t|
    ensures forall k :: 0 <= k < |r| ==> IsPrintableAscii(r[k]) && !('A' <= r[k] <= 'Z')
  {
    if forall k :: 0 <= k < |t| ==> IsPrintableAscii(t[k]) then FileNames.LowerCase(t) else ""
  }

  /**
   * A type with an unprintable character is dropped; a printable one keeps
   * its length and is lower-cased position by position.
   */
  lemma BlobTypeMeaning(t: string)
    ensures (exists k :: 0 <= k < |t| && !IsPrintableAscii(t[k])) ==> BlobType(t) == ""
    ensures (forall k :: 0 <= k < |t| ==> IsPrintableAscii(t[k])) ==>
      |BlobType(t)| == |t| && forall k :: 0 <= k < |t| ==> BlobType(t)[k] == FileNames.LowerChar(t[k])
  {
  }

  /** A printable type with no capital letter is kept as it is, "image/png" among them. */
  lemma BlobTypeFixes(t: string)
    requires forall k :: 0 <= k < |t| ==> IsPrintableAscii(t[k]) && !('A' <= t[k] <= 'Z')
    ensures BlobType(t) == t
  {
  }

  /** Normalising a type twice is normalising it once. */
  lemma BlobTypeIdempotent(t: string)
    ensures BlobType(BlobType(t)) == BlobType(t)
  {
    BlobTypeFixes(BlobType(t));
  }

  /** Printable types that differ only in letter case give the same blob type. */
  lemma BlobTypeCaseInsensitive(t: string, u: string)
    requires |t| == |u|
    requires forall k :: 0 <= k < |t| ==> IsPrintableAscii(t[k]) && IsPrintableAscii(u[k])
    requires forall k :: 0 <= k < |t| ==> FileNames.LowerChar(t[k]) == FileNames.LowerChar(u[k])
    ensures BlobType(t) == BlobType(u)
  {
  }

  // ----- The conversion -----

  /** The piece before the first ',' (the header `data:<mime>;base64`). */
  function Header(dataUrl: string): string {
    Split(dataUrl, ',')[0]
  }

  /** The piece after the first ',' (JavaScript coerces a missing piece to the text "undefined"). */
  function Payload(dataUrl: string): string {
    var parts := Split(dataUrl, ',');
    if |parts| > 1 then parts[1] else "undefined"
  }

  /** The header is the URL up to its first ',', or all of it when it has none. */
  lemma HeaderLayout(dataUrl: string)
    ensures ',' !in Header(dataUrl)
    ensures |Header(dataUrl)| <= |dataUrl| && Header(dataUrl) == dataUrl[..|Header(dataUrl)|]
    ensures |Header(dataUrl)| < |dataUrl| <==> ',' in dataUrl
    ensures |Header(dataUrl)| < |dataUrl| ==> dataUrl[|Header(dataUrl)|] == ','
  {
    SplitLayout(dataUrl, ',');
  }

  /**
   * The payload is the text after the first ',' up to the next ',' or the
   * end; with no ',' it is the text "undefined".
   */
  lemma PayloadLayout(dataUrl: string)
    ensures ',' !in dataUrl ==> Payload(dataUrl) == "undefined"
    ensures ',' in dataUrl ==>
      var h, p := |Header(dataUrl)|, Payload(dataUrl);
      && ',' !in p
      && h + 1 + |p| <= |dataUrl|
      && dataUrl[h + 1..h + 1 + |p|] == p
      && (h + 1 + |p| < |dataUrl| ==> dataUrl[h + 1 + |p|] == ',')
  {
    SplitLayout(dataUrl, ',');
  }

  /** What converting a data URL gives: a blob, or the error the conversion throws. */
  function BlobOf(dataUrl: string, atob: string -> Option<string>): (r: Result<Blob, BlobError>)
    ensures r.Ok? <==> MimeMatch(Header(dataUrl)).Some? && atob(Payload(dataUrl)).Some?
    ensures r.Ok? ==> |r.value.bytes| == |atob(Payload(dataUrl)).value|
  {
    match MimeMatch(Header(dataUrl))
    case None => Err(NoMimeType)
    case Some(mime) =>
      match atob(Payload(dataUrl))
      case None => Err(BadBase64)
      case Some(bstr) => Ok(Blob(CodeUnitBytes(bstr), BlobType(mime)))
  }

  /**
   * The conversion throws for a header with no match, and otherwise for a
   * payload that does not decode; a blob has the type the Blob constructor
   * makes of the header's leftmost match, and one byte per decoded code
   * unit, in order.
   */
  lemma BlobOfMeaning(dataUrl: string, atob: string -> Option<string>)
    ensures BlobOf(dataUrl, atob) == Err(NoMimeType) <==>
      forall p :: 0 <= p < |Header(dataUrl)| ==> !MatchesAt(Header(dataUrl), p)
    ensures BlobOf(dataUrl, atob) == Err(BadBase64) <==>
      MimeMatch(Header(dataUrl)).Some? && atob(Payload(dataUrl)).None?
    ensures BlobOf(dataUrl, atob).Ok? ==>
      && MimeMatch(Header(dataUrl)).Some?
      && BlobOf(dataUrl, atob).value.mimeType == BlobType(MimeMatch(Header(dataUrl)).value)
      && atob(Payload(dataUrl)).Some?
      && BlobOf(dataUrl, atob).value.bytes == CodeUnitBytes(atob(Payload(dataUrl)).value)
  {
    MimeMatchLeftmost(Header(dataUrl));
  }

  /**
   * A data URL of the form `toDataURL` produces, `data:<m>;base64,<payload>`,
   * with m a lower-case printable type holding no ';' or ',', converts to a
   * blob of type m holding the decoded payload's bytes, when it decodes.
   */
  lemma CanvasBlob(m: string, payload: string, atob: string -> Option<string>)
    requires forall k :: 0 <= k < |m| ==> IsPrintableAscii(m[k]) && !('A' <= m[k] <= 'Z') && m[k] != ';' && m[k] != ','
    requires ',' !in payload
    requires atob(payload).Some?
    ensures BlobOf("data:" + m + ";base64," + payload, atob) == Ok(Blob(CodeUnitBytes(atob(payload).value), m))
  {
    var header := "data:" + m + ";base64";
    var dataUrl := "data:" + m + ";base64," + payload;
    assert dataUrl == header + [','] + payload;
    assert ',' !in header by {
      assert forall k :: 0 <= k < |header| ==> header[k] != ',' by {
        assert forall k :: 5 <= k < 5 + |m| ==> header[k] == m[k - 5];
      }
    }
    SplitPiece(header, ',', payload);
    SplitPiece(payload, ',', []);
    assert Split(dataUrl, ',') == [header, payload];
    HeaderMime(m);
    BlobTypeFixes(m);
  }

  /** The copy loop of `dataURLtoBlob`: a byte array as long as the decoded string, filled from the last index down. */
  method CopyCodeUnits(bstr: string) returns (bytes: seq<byte>)
    ensures |bytes| == |bstr|
    ensures forall i :: 0 <= i < |bstr| ==> bytes[i] as int == bstr[i] as int % 256
  {
    var n := |bstr|;
    var u8arr := new byte[n];
    while n != 0
      invariant 0 <= n <= |bstr| == u8arr.Length
      invariant forall k :: n <= k < |bstr| ==> u8arr[k] == ByteOf(bstr[k])
    {
      n := n - 1;
      u8arr[n] := ByteOf(bstr[n]);
    }
    bytes := u8arr[..];
  }

  /** `dataURLtoBlob`: split, read the MIME type, decode, copy, and build the blob. */
  method DataUrlToBlob(dataUrl: string, atob: string -> Option<string>) returns (r: Result<Blob, BlobError>)
    ensures r == BlobOf(dataUrl, atob)
  {
    var arr := Split(dataUrl, ',');
    var mime := MimeMatch(arr[0]);
    if mime.None? {
      return Err(NoMimeType);
    }
    var decoded := atob(if |arr| > 1 then arr[1] else "undefined");
    if decoded.None? {
      return Err(BadBase64);
    }
    var u8arr := CopyCodeUnits(decoded.value);
    assert u8arr == CodeUnitBytes(decoded.value);
    r := Ok(Blob(u8arr, BlobType(mime.value)));
  }
}
