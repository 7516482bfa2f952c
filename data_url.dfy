/**
 * `dataURLToBlob` (script.js, lines 191-202): split a data URL on commas,
 * read the MIME type out of the part before the first comma with
 * /:(.*?);/, decode the part after it with `atob`, and copy the decoded
 * character codes into a Uint8Array from the last index down.  The Blob
 * constructor then normalises the type it is given.
 *
 * `atob` is a parameter: it maps its argument to the decoded binary string,
 * or to None where the browser throws.
 */
module DataUrl {
  import opened Wrappers

  /** One element of a Uint8Array. */
  type Byte = b: int | 0 <= b < 256

  /** The inverse of Split: the parts with the separator between them. */
  function Join(parts: seq<string>, sep: char): string
    requires |parts| >= 1
  {
    if |parts| == 1 then parts[0] else parts[0] + [sep] + Join(parts[1..], sep)
  }

  /** Prepending a character to the first part prepends it to the joined string. */
  lemma JoinPrepend(c: char, parts: seq<string>, sep: char)
    requires |parts| >= 1
    ensures Join([[c] + parts[0]] + parts[1..], sep) == [c] + Join(parts, sep)
  {
  }

  /** `s.split(sep)`: the maximal runs between separators, empty ones included. */
  function Split(s: string, sep: char): (parts: seq<string>)
    ensures |parts| >= 1
    ensures forall i :: 0 <= i < |parts| ==> sep !in parts[i]
    ensures Join(parts, sep) == s
  {
    if s == [] then [[]]
    else
      var rest := Split(s[1..], sep);
      if s[0] == sep then
        assert ([[]] + rest)[1..] == rest;
        [[]] + rest
      else
        JoinPrepend(s[0], rest, sep);
        assert s == [s[0]] + s[1..];
        [[s[0]] + rest[0]] + rest[1..]
  }

  /** A string without the separator is a single part. */
  lemma SplitNone(a: string, sep: char)
    requires sep !in a
    ensures Split(a, sep) == [a]
  {
  }

  /** The text before the first separator is the first part; the rest is
      split on its own. */
  lemma {:induction false} SplitAt(a: string, b: string, sep: char)
    requires sep !in a
    ensures Split(a + [sep] + b, sep) == [a] + Split(b, sep)
  {
    if a == [] {
      assert (a + [sep] + b)[1..] == b;
    } else {
      SplitAt(a[1..], b, sep);
      assert (a + [sep] + b)[1..] == a[1..] + [sep] + b;
      assert [a[0]] + a[1..] == a;
    }
  }

  /** `arr[0]`: the part before the first comma. */
  function Header(url: string): (h: string)
    ensures ',' !in h
    ensures |h| <= |url| && h == url[..|h|]
    ensures |h| == |url| || url[|h|] == ','
  {
    var parts := Split(url, ',');
    assert |parts| > 1 ==> url == parts[0] + [','] + Join(parts[1..], ',');
    parts[0]
  }

  /** `arr[1]` as `atob` sees it: the part between the first and second
      comma, or the string "undefined" when there is no comma at all. */
  function Payload(url: string): (p: string)
    ensures ',' !in url ==> p == "undefined"
    ensures ',' in url ==>
              var start := |Header(url)| + 1;
              && ',' !in p
              && start + |p| <= |url| && url[start..start + |p|] == p
              && (start + |p| == |url| || url[start + |p|] == ',')
  {
    var parts := Split(url, ',');
    if |parts| >= 2 then
      var tail := Join(parts[1..], ',');
      assert url == parts[0] + [','] + tail;
      assert url[|parts[0]|] == ',';
      assert url[|parts[0]| + 1..] == tail;
      assert |parts[1..]| > 1 ==> tail == parts[1] + [','] + Join(parts[2..], ',') by {
        assert |parts[1..]| > 1 ==> parts[1..][1..] == parts[2..];
      }
      parts[1]
    else
      "undefined"
  }

  /** The characters `.` does not match. */
  predicate IsLineTerminator(c: char) {
    c == '\n' || c == '\r' || c == '\U{2028}' || c == '\U{2029}'
  }

  /** The group `(.*?);` tried at the start of `t`: the text up to the first
      ';', provided no line terminator comes before it. */
  function LazyToSemicolon(t: string): (r: Option<string>)
    ensures r.Some? ==> |r.value| < |t| && t[|r.value|] == ';' && r.value == t[..|r.value|]
    ensures r.Some? ==> forall k :: 0 <= k < |r.value| ==> r.value[k] != ';' && !IsLineTerminator(r.value[k])
    ensures r.None? ==> forall j :: 0 <= j < |t| && t[j] == ';' ==>
                          exists k :: 0 <= k < j && IsLineTerminator(t[k])
  {
    if t == [] then None
    else if t[0] == ';' then Some([])
    else if IsLineTerminator(t[0]) then None
    else
      match LazyToSemicolon(t[1..])
      case None =>
        assert forall j :: 1 <= j < |t| ==> t[j] == t[1..][j - 1];
        None
      case Some(f) => Some([t[0]] + f)
  }

  /** The match attempt of /:(.*?);/ that starts at index `p`. */
  function AttemptAt(h: string, p: nat): Option<string>
    requires p < |h|
  {
    if h[p] == ':' then LazyToSemicolon(h[p + 1..]) else None
  }

  /** The regular-expression search from index `i` on: the leftmost attempt
      that succeeds. */
  function MatchFrom(h: string, i: nat): (r: Option<string>)
    requires i <= |h|
    ensures r.None? <==> forall p :: i <= p < |h| ==> AttemptAt(h, p).None?
    ensures r.Some? ==> exists p :: i <= p < |h| && AttemptAt(h, p) == r
                          && forall q :: i <= q < p ==> AttemptAt(h, q).None?
    decreases |h| - i
  {
    if i == |h| then None
    else if AttemptAt(h, i).Some? then AttemptAt(h, i)
    else MatchFrom(h, i + 1)
  }

  /** `mimeMatch ? mimeMatch[1] : "image/png"` */
  function Mime(header: string): (m: string)
    ensures (forall p :: 0 <= p < |header| ==> AttemptAt(header, p).None?) ==> m == "image/png"
    ensures (exists p :: 0 <= p < |header| && AttemptAt(header, p).Some?) ==>
              exists p :: 0 <= p < |header| && AttemptAt(header, p) == Some(m)
                && forall q :: 0 <= q < p ==> AttemptAt(header, q).None?
  {
    match MatchFrom(header, 0)
    case Some(m) => m
    case None => "image/png"
  }

  /** When every attempt before `p` fails and the one at `p` succeeds, the
      search from `i` yields the attempt at `p`. */
  lemma LeftmostAttemptWins(h: string, i: nat, p: nat)
    requires i <= p < |h|
    requires forall q :: i <= q < p ==> AttemptAt(h, q).None?
    requires AttemptAt(h, p).Some?
    ensures MatchFrom(h, i) == AttemptAt(h, p)
  {
  }

  /** A header with no ':' falls back to PNG. */
  lemma NoColonMeansPng(header: string)
    requires ':' !in header
    ensures Mime(header) == "image/png"
  {
  }

  /** The group stops at the first ';' of a run free of ';' and line breaks. */
  lemma {:induction false} LazyStopsAtSemicolon(m: string, rest: string)
    requires ';' !in m && forall k :: 0 <= k < |m| ==> !IsLineTerminator(m[k])
    ensures LazyToSemicolon(m + [';'] + rest) == Some(m)
  {
    if m != [] {
      LazyStopsAtSemicolon(m[1..], rest);
      assert (m + [';'] + rest)[1..] == m[1..] + [';'] + rest;
      assert [m[0]] + m[1..] == m;
    }
  }

  /** The header a canvas produces, "data:<type>;base64", yields <type>. */
  lemma {:induction false} MimeOfDataHeader(m: string)
    requires ';' !in m && forall k :: 0 <= k < |m| ==> !IsLineTerminator(m[k])
    ensures Mime("data:" + m + ";base64") == m
  {
    var h := "data:" + m + ";base64";
    assert h[5..] == m + [';'] + "base64";
    LazyStopsAtSemicolon(m, "base64");
    assert AttemptAt(h, 4) == Some(m);
    assert forall q :: 0 <= q < 4 ==> h[q] != ':';
    LeftmostAttemptWins(h, 0, 4);
  }

  /** An empty group is still a match: the MIME type is then empty, not PNG. */
  lemma EmptyTypeIsKept()
    ensures Mime("data:;base64") == ""
  {
    var h := "data:;base64";
    assert h[5..] == [';'] + "base64";
    assert AttemptAt(h, 4) == Some("");
    assert forall q :: 0 <= q < 4 ==> h[q] != ':';
    LeftmostAttemptWins(h, 0, 4);
  }

  /** A canvas data URL splits into its header and its Base64 payload. */
  lemma {:induction false} DataUrlParts(m: string, p: string)
    requires ',' !in m && ',' !in p
    ensures Header("data:" + m + ";base64," + p) == "data:" + m + ";base64"
    ensures Payload("data:" + m + ";base64," + p) == p
  {
    var h := "data:" + m + ";base64";
    assert ',' !in h by {
      assert forall k :: 0 <= k < |h| ==> h[k] in "data:" || h[k] in m || h[k] in ";base64";
    }
    assert "data:" + m + ";base64," + p == h + [','] + p;
    SplitAt(h, p, ',');
    SplitNone(p, ',');
  }

  /** Only the segment between the first two commas is decoded; whatever
      follows a second comma is dropped. */
  lemma {:induction false} LaterSegmentsIgnored(h: string, p: string, q: string)
    requires ',' !in h && ',' !in p
    ensures Payload(h + [','] + p + [','] + q) == p
  {
    assert h + [','] + p + [','] + q == h + [','] + (p + [','] + q);
    SplitAt(h, p + [','] + q, ',');
    SplitAt(p, q, ',');
  }

  /** Without a comma the whole URL is the header and `atob` gets "undefined". */
  lemma NoCommaPayload(url: string)
    requires ',' !in url
    ensures Header(url) == url && Payload(url) == "undefined"
  {
  }

  /** Storing a character code into a Uint8Array keeps it modulo 256. */
  function ToUint8(c: char): (b: Byte)
    ensures c as int < 256 ==> b == c as int
  {
    (c as int) % 256
  }

  /** The `while (n--)` loop: `u8[n] = bstr.charCodeAt(n)` from the end down. */
  method CopyCodes(bstr: string) returns (u8: array<Byte>)
    ensures fresh(u8)
    ensures u8.Length == |bstr|
    ensures forall i :: 0 <= i < |bstr| ==> u8[i] == ToUint8(bstr[i])
  {
    var n := |bstr|;
    u8 := new Byte[n];
    while n != 0
      invariant 0 <= n <= |bstr| == u8.Length
      invariant forall i :: n <= i < |bstr| ==> u8[i] == ToUint8(bstr[i])
    {
      n := n - 1;
      u8[n] := ToUint8(bstr[n]);
    }
  }

  /** The characters a Blob type may hold: U+0020 to U+007E. */
  predicate Printable(c: char) {
    ' ' <= c <= '~'
  }

  /** ASCII lower-casing of one character. */
  function AsciiLower(c: char): char {
    if 'A' <= c <= 'Z' then (c as int + 32) as char else c
  }

  /** Every character lower-cased. */
  function LowerAll(t: string): (r: string)
    ensures |r| == |t|
    ensures forall k :: 0 <= k < |t| ==> r[k] == AsciiLower(t[k])
  {
    if t == [] then [] else [AsciiLower(t[0])] + LowerAll(t[1..])
  }

  /**
   * The `type` the Blob constructor stores for the option it is given, as
   * the File API defines it: the empty string if any character lies outside
   * U+0020 to U+007E, otherwise the string in ASCII lower case.
   */
  function BlobType(t: string): (r: string)
    ensures (exists k :: 0 <= k < |t| && !Printable(t[k])) ==> r == ""
    ensures (forall k :: 0 <= k < |t| ==> Printable(t[k])) ==>
              |r| == |t| && forall k :: 0 <= k < |t| ==> r[k] == AsciiLower(t[k])
  {
    if forall k :: 0 <= k < |t| ==> Printable(t[k]) then LowerAll(t) else ""
  }

  /** Normalising a stored type again changes nothing. */
  lemma BlobTypeIdempotent(t: string)
    ensures BlobType(BlobType(t)) == BlobType(t)
  {
  }

  /** The type a canvas data URL carries is stored as it is. */
  lemma CanvasTypeKept()
    ensures BlobType("image/png") == "image/png"
  {
    var t := "image/png";
    assert forall k :: 0 <= k < |t| ==> Printable(t[k]) && AsciiLower(t[k]) == t[k];
  }

  /** A mixed-case type is stored lower-cased. */
  lemma MixedCaseTypeLowered()
    ensures BlobType("Image/PNG") == "image/png"
  {
    var t := "Image/PNG";
    assert forall k :: 0 <= k < |t| ==> Printable(t[k]);
    assert forall k :: 0 <= k < |t| ==> AsciiLower(t[k]) == "image/png"[k];
  }

  /** A Blob: its `type` and its bytes. */
  datatype Blob = Blob(mimeType: string, bytes: seq<Byte>)

  /** The outcome of `dataURLToBlob`: a Blob, or the exception `atob` threw. */
  datatype Conversion = Converted(blob: Blob) | DecodeFailed

  /** `dataURLToBlob(dataurl)`, with the browser's `atob` as a parameter. */
  method DataUrlToBlob(dataurl: string, atob: string -> Option<string>) returns (r: Conversion)
    ensures r.DecodeFailed? <==> atob(Payload(dataurl)).None?
    ensures r.Converted? ==> r.blob.mimeType == BlobType(Mime(Header(dataurl)))
    ensures r.Converted? ==>
              var bstr := atob(Payload(dataurl)).value;
              |r.blob.bytes| == |bstr|
              && forall i :: 0 <= i < |bstr| ==> r.blob.bytes[i] == ToUint8(bstr[i])
  {
    var arr := Split(dataurl, ',');
    var mime := Mime(arr[0]);
    var decoded := atob(if |arr| >= 2 then arr[1] else "undefined");
    match decoded
    case None =>
      r := DecodeFailed;
    case Some(bstr) =>
      var u8 := CopyCodes(bstr);
      r := Converted(Blob(BlobType(mime), u8[..]));
  }
}
