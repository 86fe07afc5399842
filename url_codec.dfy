/** URL text handling shared by the adapters: PHP's `urlencode`/`rawurlencode` and their decoders, the
    per-segment path encoding of `getUrl`, the host normalisation `normalizeHost`, and the `parseUrl`
    helper reduced to its split of a path at the first `?`. */
module UrlCodec {
  import opened Wrappers
  import opened Text

  /** PHP strings are byte strings: the model's strings carry one byte per character. */
  predicate IsByteString(s: string) {
    forall i :: 0 <= i < |s| ==> s[i] as int < 256
  }

  /** The unreserved characters of section 2.3 of RFC 3986: ALPHA / DIGIT / "-" / "." / "_" / "~". */
  predicate IsUnreserved(c: char) {
    'A' <= c <= 'Z' || 'a' <= c <= 'z' || '0' <= c <= '9' || c == '-' || c == '.' || c == '_' || c == '~'
  }

  /** The characters `urlencode` leaves as they are: alphanumerics, "-", "_" and ".". */
  predicate IsFormSafe(c: char) {
    'A' <= c <= 'Z' || 'a' <= c <= 'z' || '0' <= c <= '9' || c == '-' || c == '.' || c == '_'
  }

  /** `urlencode` (form encoding, a space becomes "+") or `rawurlencode` (section 2.1 of RFC 3986). */
  datatype Encoding = Form | Raw

  predicate IsHex(c: char) {
    '0' <= c <= '9' || 'A' <= c <= 'F' || 'a' <= c <= 'f'
  }

  function HexDigit(n: nat): (c: char)
    requires n < 16
    ensures IsHex(c) && IsUnreserved(c)
  {
    if n < 10 then ('0' as int + n) as char else ('A' as int + n - 10) as char
  }

  function HexValue(c: char): (n: nat)
    requires IsHex(c)
    ensures n < 16
  {
    if '0' <= c <= '9' then c as int - '0' as int
    else if 'A' <= c <= 'F' then c as int - 'A' as int + 10
    else c as int - 'a' as int + 10
  }

  /** The percent-encoded triplet of one byte, upper-case hex as PHP writes it. */
  function Escape(c: char): string
    requires c as int < 256
  {
    ['%', HexDigit(c as int / 16), HexDigit(c as int % 16)]
  }

  function EncodeChar(c: char, enc: Encoding): string
    requires c as int < 256
  {
    match enc
    case Raw => if IsUnreserved(c) then [c] else Escape(c)
    case Form => if IsFormSafe(c) then [c] else if c == ' ' then "+" else Escape(c)
  }

  /** `urlencode($s)` for `Form`, `rawurlencode($s)` for `Raw`. */
  function Encode(s: string, enc: Encoding): string
    requires IsByteString(s)
  {
    if s == [] then [] else EncodeChar(s[0], enc) + Encode(s[1..], enc)
  }

  /** An encoded string holds only unreserved characters, "%" and, from `urlencode` only, "+"; in
      particular no "/" and no "?". */
  lemma {:induction false} EncodeAlphabet(s: string, enc: Encoding)
    requires IsByteString(s)
    ensures var r := Encode(s, enc);
            forall i :: 0 <= i < |r| ==> IsUnreserved(r[i]) || r[i] == '%' || (enc == Form && r[i] == '+')
    decreases |s|
  {
    if s != [] {
      EncodeAlphabet(s[1..], enc);
      var e := EncodeChar(s[0], enc);
      var r := Encode(s, enc);
      assert r == e + Encode(s[1..], enc);
      forall i | 0 <= i < |r| ensures IsUnreserved(r[i]) || r[i] == '%' || (enc == Form && r[i] == '+') {
        if i >= |e| {
          assert r[i] == Encode(s[1..], enc)[i - |e|];
        }
      }
    }
  }

  /** `urldecode($s)` for `Form` ("+" becomes a space), `rawurldecode($s)` for `Raw`; a "%" not followed by
      two hex digits is kept as it is. */
  function Decode(s: string, dec: Encoding): string
    decreases |s|
  {
    if s == [] then []
    else if s[0] == '%' && |s| >= 3 && IsHex(s[1]) && IsHex(s[2]) then
      [(HexValue(s[1]) * 16 + HexValue(s[2])) as char] + Decode(s[3..], dec)
    else if dec == Form && s[0] == '+' then " " + Decode(s[1..], dec)
    else [s[0]] + Decode(s[1..], dec)
  }

  /** `rawurlencode` leaves a character as it is exactly when it is unreserved. */
  lemma RawKeepsExactlyUnreserved(c: char)
    requires c as int < 256
    ensures EncodeChar(c, Raw) == [c] <==> IsUnreserved(c)
  {
  }

  lemma HexRoundTrip(n: nat)
    requires n < 16
    ensures HexValue(HexDigit(n)) == n
  {
  }

  /** Decoding reads an escaped byte back, whatever follows it. */
  lemma DecodeEscape(c: char, t: string, dec: Encoding)
    requires c as int < 256
    ensures Decode(Escape(c) + t, dec) == [c] + Decode(t, dec)
  {
    var n := c as int;
    var s := Escape(c) + t;
    HexRoundTrip(n / 16);
    HexRoundTrip(n % 16);
    assert s[0] == '%' && s[1] == HexDigit(n / 16) && s[2] == HexDigit(n % 16);
    assert HexValue(s[1]) * 16 + HexValue(s[2]) == n;
    assert s[3..] == t;
  }

  /** Decoding passes a character it does not translate through unchanged. */
  lemma DecodeKept(c: char, t: string, dec: Encoding)
    requires c != '%' && (dec == Form ==> c != '+')
    ensures Decode([c] + t, dec) == [c] + Decode(t, dec)
  {
    assert ([c] + t)[1..] == t;
  }

  /** Decoding undoes the encoding of one byte, whatever follows it. */
  lemma DecodeEncodeChar(c: char, t: string, enc: Encoding, dec: Encoding)
    requires c as int < 256
    requires enc == Raw || dec == Form
    ensures Decode(EncodeChar(c, enc) + t, dec) == [c] + Decode(t, dec)
  {
    if enc == Raw {
      if IsUnreserved(c) {
        DecodeKept(c, t, dec);
      } else {
        DecodeEscape(c, t, dec);
      }
    } else if IsFormSafe(c) {
      DecodeKept(c, t, dec);
    } else if c == ' ' {
      assert ("+" + t)[1..] == t;
    } else {
      DecodeEscape(c, t, dec);
    }
  }

  /** Decoding undoes encoding, with anything after it: `urldecode` undoes both encoders,
      `rawurldecode` undoes `rawurlencode`. */
  lemma {:induction false} DecodeEncodeAppend(s: string, y: string, enc: Encoding, dec: Encoding)
    requires IsByteString(s)
    requires enc == Raw || dec == Form
    ensures Decode(Encode(s, enc) + y, dec) == s + Decode(y, dec)
    decreases |s|
  {
    if s != [] {
      var a, b := EncodeChar(s[0], enc), Encode(s[1..], enc);
      assert Encode(s, enc) == a + b;
      AppendAssoc(a, b, y);
      DecodeEncodeChar(s[0], b + y, enc, dec);
      DecodeEncodeAppend(s[1..], y, enc, dec);
      AppendAssoc([s[0]], s[1..], Decode(y, dec));
      assert [s[0]] + s[1..] == s;
    } else {
      assert Encode(s, enc) + y == y;
    }
  }

  lemma DecodeEncode(s: string, enc: Encoding, dec: Encoding)
    requires IsByteString(s)
    requires enc == Raw || dec == Form
    ensures Decode(Encode(s, enc), dec) == s
  {
    DecodeEncodeAppend(s, "", enc, dec);
    assert Encode(s, enc) + "" == Encode(s, enc);
  }

  /** Decoding passes a "/" through unchanged. */
  lemma DecodeSlash(y: string, dec: Encoding)
    ensures Decode("/" + y, dec) == "/" + Decode(y, dec)
  {
    assert ("/" + y)[1..] == y;
  }

  function EncodeSegments(parts: seq<string>, enc: Encoding): (r: seq<string>)
    requires forall i :: 0 <= i < |parts| ==> IsByteString(parts[i])
    ensures |r| == |parts|
    ensures forall i :: 0 <= i < |r| ==> r[i] == Encode(parts[i], enc)
  {
    if parts == [] then [] else [Encode(parts[0], enc)] + EncodeSegments(parts[1..], enc)
  }

  lemma SplitBytes(s: string, d: char)
    requires IsByteString(s)
    ensures forall i :: 0 <= i < |Split(s, d)| ==> IsByteString(Split(s, d)[i])
    decreases |s|
  {
    match IndexOf(s, d)
    case None =>
    case Some(i) =>
      SplitBytes(s[i + 1..], d);
  }

  /** `ltrim(implode('/', array_map(encoder, explode('/', $path))), '/')`. */
  function EncodePath(path: string, enc: Encoding): string
    requires IsByteString(path)
  {
    SplitBytes(path, '/');
    LTrim(Join(EncodeSegments(Split(path, '/'), enc), '/'), '/')
  }

  /** The encoded segments with "/" between them, before the leading slashes are trimmed. */
  function JoinedSegments(path: string, enc: Encoding): string
    requires IsByteString(path)
  {
    SplitBytes(path, '/');
    Join(EncodeSegments(Split(path, '/'), enc), '/')
  }

  lemma BytesSlice(s: string, i: nat, j: nat)
    requires IsByteString(s) && i <= j <= |s|
    ensures IsByteString(s[i..j])
  {
    assert forall k :: 0 <= k < j - i ==> s[i..j][k] == s[i + k];
  }

  /** The joined segments of a path, one segment at a time. */
  lemma JoinedSegmentsStep(path: string, enc: Encoding, i: nat)
    requires IsByteString(path)
    requires IndexOf(path, '/') == Some(i)
    ensures IsByteString(path[..i]) && IsByteString(path[i + 1..])
    ensures JoinedSegments(path, enc) == Encode(path[..i], enc) + ("/" + JoinedSegments(path[i + 1..], enc))
  {
    BytesSlice(path, 0, i);
    BytesSlice(path, i + 1, |path|);
    assert path[i + 1..] == path[i + 1..|path|];
    assert path[..i] == path[0..i];
    var tail := path[i + 1..];
    SplitBytes(path, '/');
    SplitBytes(tail, '/');
    var parts := Split(path, '/');
    assert parts == [path[..i]] + Split(tail, '/');
    assert parts[0] == path[..i] && parts[1..] == Split(tail, '/');
    var head := Encode(path[..i], enc);
    var rest := EncodeSegments(Split(tail, '/'), enc);
    var segs := EncodeSegments(parts, enc);
    assert segs == [head] + rest;
    assert |rest| >= 1;
    assert segs[0] == head && segs[1..] == rest;
    assert Join(segs, '/') == head + ['/'] + Join(rest, '/');
    AppendAssoc(head, ['/'], Join(rest, '/'));
  }

  /** Decoding one encoded segment followed by "/" and the rest. */
  lemma DecodeSegment(head: string, rest: string, enc: Encoding, dec: Encoding)
    requires IsByteString(head)
    requires enc == Raw || dec == Form
    ensures Decode(Encode(head, enc) + ("/" + rest), dec) == head + ("/" + Decode(rest, dec))
  {
    DecodeEncodeAppend(head, "/" + rest, enc, dec);
    DecodeSlash(rest, dec);
  }

  /** One segment of the inductive step of `DecodeJoinedSegments`. */
  lemma DecodeJoinedSegmentsStep(path: string, enc: Encoding, dec: Encoding, i: nat)
    requires IsByteString(path)
    requires enc == Raw || dec == Form
    requires IndexOf(path, '/') == Some(i)
    requires Decode(JoinedSegments(path[i + 1..], enc), dec) == path[i + 1..]
    ensures Decode(JoinedSegments(path, enc), dec) == path
  {
    var head, tail := path[..i], path[i + 1..];
    JoinedSegmentsStep(path, enc, i);
    DecodeSegment(head, JoinedSegments(tail, enc), enc, dec);
    assert Decode(JoinedSegments(path, enc), dec) == head + ("/" + tail);
    SplitAtSlash(path, i);
  }

  /** A text is what comes before a "/" in it, the "/", and what comes after. */
  lemma SplitAtSlash(path: string, i: nat)
    requires i < |path| && path[i] == '/'
    ensures path == path[..i] + ("/" + path[i + 1..])
  {
    assert path[i..] == "/" + path[i + 1..];
    assert path == path[..i] + path[i..];
  }

  /** Leading slashes of the path become leading empty segments, which the trim removes again. */
  lemma {:induction false} TrimJoinedSegments(path: string, enc: Encoding)
    requires IsByteString(path)
    ensures EncodePath(path, enc) == JoinedSegments(LTrim(path, '/'), enc)
    decreases |path|
  {
    var j := JoinedSegments(path, enc);
    assert EncodePath(path, enc) == LTrim(j, '/');
    if path != [] && path[0] == '/' {
      var tail := path[1..];
      JoinedSegmentsStep(path, enc, 0);
      assert path[..0] == [];
      var jt := JoinedSegments(tail, enc);
      assert j == "/" + jt;
      assert ("/" + jt)[1..] == jt;
      assert LTrim(j, '/') == LTrim(jt, '/');
      TrimJoinedSegments(tail, enc);
      assert LTrim(path, '/') == LTrim(tail, '/');
    } else {
      JoinedSegmentsHead(path, enc);
    }
  }

  /** A path that does not begin with "/" joins to segments that do not begin with "/". */
  lemma JoinedSegmentsHead(path: string, enc: Encoding)
    requires IsByteString(path)
    requires path == [] || path[0] != '/'
    ensures var j := JoinedSegments(path, enc); j == [] || j[0] != '/'
  {
    var j := JoinedSegments(path, enc);
    match IndexOf(path, '/')
    case None =>
      assert Split(path, '/') == [path];
      assert j == Encode(path, enc);
      EncodeAlphabet(path, enc);
    case Some(i) =>
      JoinedSegmentsStep(path, enc, i);
      var e := Encode(path[..i], enc);
      assert i > 0;
      assert path[..i] != [];
      assert e == EncodeChar(path[0], enc) + Encode(path[1..i], enc) by {
        assert path[..i][1..] == path[1..i];
      }
      assert j[0] == e[0];
  }

  /** Every "%", "+" and "/" of the joined path came from the encoder or the join: decoding the joined
      segments gives back the path. */
  lemma {:induction false} DecodeJoinedSegments(path: string, enc: Encoding, dec: Encoding)
    requires IsByteString(path)
    requires enc == Raw || dec == Form
    ensures Decode(JoinedSegments(path, enc), dec) == path
    decreases |path|
  {
    match IndexOf(path, '/')
    case None =>
      assert Split(path, '/') == [path];
      DecodeEncode(path, enc, dec);
    case Some(i) =>
      BytesSlice(path, i + 1, |path|);
      assert path[i + 1..] == path[i + 1..|path|];
      DecodeJoinedSegments(path[i + 1..], enc, dec);
      DecodeJoinedSegmentsStep(path, enc, dec, i);
  }

  /** Trimming keeps a byte string a byte string. */
  lemma LTrimBytes(s: string, c: char)
    requires IsByteString(s)
    ensures IsByteString(LTrim(s, c))
  {
    var t := LTrim(s, c);
    var n := |s| - |t|;
    assert t == s[n..];
    forall i | 0 <= i < |t| ensures t[i] as int < 256 {
      assert t[i] == s[n + i];
    }
  }

  /** Decoding the encoded path gives the path without its leading slashes. */
  lemma EncodePathRoundTrip(path: string, enc: Encoding, dec: Encoding)
    requires IsByteString(path)
    requires enc == Raw || dec == Form
    ensures Decode(EncodePath(path, enc), dec) == LTrim(path, '/')
  {
    TrimJoinedSegments(path, enc);
    LTrimBytes(path, '/');
    DecodeJoinedSegments(LTrim(path, '/'), enc, dec);
  }

  lemma EncodeNoSeparator(s: string, enc: Encoding)
    requires IsByteString(s)
    ensures '/' !in Encode(s, enc) && '?' !in Encode(s, enc)
  {
    EncodeAlphabet(s, enc);
  }

  /** The joined segments split at "/" are the encoded segments again. */
  lemma SplitJoinedSegments(t: string, enc: Encoding)
    requires IsByteString(t)
    requires forall i :: 0 <= i < |Split(t, '/')| ==> IsByteString(Split(t, '/')[i])
    ensures Split(JoinedSegments(t, enc), '/') == EncodeSegments(Split(t, '/'), enc)
  {
    var segs := EncodeSegments(Split(t, '/'), enc);
    forall i | 0 <= i < |segs| ensures '/' !in segs[i] {
      EncodeNoSeparator(Split(t, '/')[i], enc);
    }
    SplitJoin(segs, '/');
  }

  /** Each encoded segment decodes to its segment. */
  lemma DecodeSegments(parts: seq<string>, enc: Encoding, dec: Encoding)
    requires forall i :: 0 <= i < |parts| ==> IsByteString(parts[i])
    requires enc == Raw || dec == Form
    ensures forall i :: 0 <= i < |parts| ==> Decode(EncodeSegments(parts, enc)[i], dec) == parts[i]
  {
    forall i | 0 <= i < |parts| ensures Decode(EncodeSegments(parts, enc)[i], dec) == parts[i] {
      DecodeEncode(parts[i], enc, dec);
    }
  }

  /** Splitting the encoded path at "/" gives exactly the encoded segments of the trimmed path, so the
      URL has one segment per segment of the path and each decodes back to it. */
  lemma EncodePathSegments(path: string, enc: Encoding, dec: Encoding)
    requires IsByteString(path)
    requires enc == Raw || dec == Form
    ensures var t := LTrim(path, '/');
            var parts := Split(EncodePath(path, enc), '/');
            |parts| == |Split(t, '/')| &&
            forall i :: 0 <= i < |parts| ==> Decode(parts[i], dec) == Split(t, '/')[i]
  {
    TrimJoinedSegments(path, enc);
    var t := LTrim(path, '/');
    LTrimBytes(path, '/');
    SplitBytes(t, '/');
    SplitJoinedSegments(t, enc);
    DecodeSegments(Split(t, '/'), enc, dec);
  }

  /** Length of the scheme `normalizeHost` recognises at the start of `s`, in any case; 0 when there
      is none. */
  function SchemeLength(s: string): (n: nat)
    ensures n == 0 <==> !StartsWithIgnoreCase(s, "https://") && !StartsWithIgnoreCase(s, "http://")
  {
    if StartsWithIgnoreCase(s, "https://") then 8 else if StartsWithIgnoreCase(s, "http://") then 7 else 0
  }

  /** "http://" put in front of a domain that does not begin with "https://" or "http://". */
  function WithScheme(domain: string): (w: string)
    ensures SchemeLength(w) > 0
  {
    if SchemeLength(domain) == 0 then
      var w := "http://" + domain;
      assert w[4] == ':' && StartsWithIgnoreCase(w, "http://");
      w
    else domain
  }

  /** `normalizeHost($domain)`: the domain with its scheme, every trailing "/" removed and exactly one
      appended. */
  function NormalizeHost(domain: string): (h: string)
    ensures EndsWith(h, "/") && !EndsWith(h[..|h| - 1], "/")
  {
    RTrim(WithScheme(domain), '/') + "/"
  }

  /** The host keeps the domain's scheme, or gains "http://", and loses only trailing slashes. */
  lemma NormalizeHostShape(domain: string)
    ensures var h := NormalizeHost(domain);
            var w := if SchemeLength(domain) > 0 then domain else "http://" + domain;
            StartsWith(w, h[..|h| - 1]) && forall i :: |h| - 1 <= i < |w| ==> w[i] == '/'
  {
    RTrimDrops(WithScheme(domain), '/');
  }

  /** A domain with something other than "/" after its scheme normalises to a host that carries a
      scheme, and normalising again changes nothing. A bare "http://" does not: it becomes "http:/". */
  lemma NormalizeHostIdempotent(domain: string)
    requires exists i :: SchemeLength(domain) <= i < |domain| && domain[i] != '/'
    ensures var h := NormalizeHost(domain); SchemeLength(h) > 0 && NormalizeHost(h) == h
  {
    var w := WithScheme(domain);
    var i :| SchemeLength(domain) <= i < |domain| && domain[i] != '/';
    var k := WithSchemeKeeps(domain, i);
    var r := RTrim(w, '/');
    RTrimKeeps(w, '/', k);
    var h := r + "/";
    assert h[..8] == w[..8];
    SameSchemeLength(h, w);
    RTrimTwice(w, '/');
  }

  /** A character after the domain's scheme that is not "/" is still there, after the scheme, once
      "http://" is put in front. */
  lemma WithSchemeKeeps(domain: string, i: nat) returns (k: nat)
    requires SchemeLength(domain) <= i < |domain| && domain[i] != '/'
    ensures SchemeLength(WithScheme(domain)) <= k < |WithScheme(domain)| && WithScheme(domain)[k] != '/'
  {
    var w := WithScheme(domain);
    k := if SchemeLength(domain) > 0 then i else i + 7;
    assert w[k] != '/';
    if SchemeLength(domain) == 0 {
      assert w[4] == ':';
    }
  }

  /** `rtrim` keeps every character up to the last one that is not `c`. */
  lemma RTrimKeeps(s: string, c: char, k: nat)
    requires k < |s| && s[k] != c
    ensures k < |RTrim(s, c)|
  {
    RTrimDrops(s, c);
  }

  /** Trimming a trimmed text with one `c` appended removes just that `c`. */
  lemma RTrimTwice(s: string, c: char)
    ensures RTrim(RTrim(s, c) + [c], c) == RTrim(s, c)
  {
    var r := RTrim(s, c);
    assert (r + [c])[..|r|] == r;
  }

  lemma SameSchemeLength(a: string, b: string)
    requires |a| >= 8 && |b| >= 8 && a[..8] == b[..8]
    ensures SchemeLength(a) == SchemeLength(b)
  {
    assert forall j :: 0 <= j < 8 ==> a[j] == b[j] by {
      forall j | 0 <= j < 8 ensures a[j] == b[j] {
        assert a[..8][j] == b[..8][j];
      }
    }
  }

  /** The result of the simple `parseUrl`: the path, and the query when a "?" is present. */
  datatype UrlParts = UrlParts(path: string, query: Option<string>)

  /** The path up to the first "?" and the query after it. */
  function SplitQuery(s: string): (u: UrlParts)
    ensures '?' !in u.path
  {
    match IndexOf(s, '?')
    case None => UrlParts(s, None)
    case Some(i) => UrlParts(s[..i], Some(s[i + 1..]))
  }

  /** `parseUrl($url)` reduced to splitting at the first "?"; with `backslashAsSlash` (the Qiniu variant)
      every "\" becomes "/" first. */
  function ParseUrl(url: string, backslashAsSlash: bool): UrlParts {
    SplitQuery(if backslashAsSlash then ReplaceChar(url, '\\', '/') else url)
  }

  /** Putting the parts back together: the inverse of `SplitQuery`. */
  function Unparse(u: UrlParts): string {
    u.path + (match u.query case Some(q) => "?" + q case None => "")
  }

  lemma SplitQueryUnparse(s: string)
    ensures Unparse(SplitQuery(s)) == s
  {
    match IndexOf(s, '?')
    case None =>
      assert s + "" == s;
    case Some(i) =>
      assert SplitQuery(s) == UrlParts(s[..i], Some(s[i + 1..]));
      assert "?" + s[i + 1..] == s[i..];
      assert s[..i] + s[i..] == s;
  }

  lemma UnparseSplitQuery(u: UrlParts)
    requires '?' !in u.path
    ensures SplitQuery(Unparse(u)) == u
  {
    var s := Unparse(u);
    match u.query
    case None =>
      assert s == u.path;
    case Some(q) =>
      assert s == u.path + ("?" + q);
      assert s[|u.path|] == '?' && s[..|u.path|] == u.path;
      assert IndexOf(s, '?') == Some(|u.path|);
      assert s[|u.path| + 1..] == q;
  }

  /** Parsing loses nothing but the replaced backslashes, and the Qiniu variant leaves none. */
  lemma ParseUrlUnparse(url: string, backslashAsSlash: bool)
    ensures Unparse(ParseUrl(url, backslashAsSlash)) == (if backslashAsSlash then ReplaceChar(url, '\\', '/') else url)
    ensures backslashAsSlash ==> '\\' !in ParseUrl(url, true).path
  {
    SplitQueryUnparse(if backslashAsSlash then ReplaceChar(url, '\\', '/') else url);
    if backslashAsSlash {
      var s := ReplaceChar(url, '\\', '/');
      var u := SplitQuery(s);
      assert StartsWith(s, u.path);
      assert '\\' !in s;
    }
  }

  lemma ParsedPathBytes(path: string, backslashAsSlash: bool)
    requires IsByteString(path)
    ensures IsByteString(ParseUrl(path, backslashAsSlash).path)
  {
    var s := if backslashAsSlash then ReplaceChar(path, '\\', '/') else path;
    SplitQueryUnparse(s);
    var p := SplitQuery(s).path;
    assert forall j :: 0 <= j < |p| ==> p[j] == s[j];
  }

  /** `empty($segments['query']) ? '' : '?'.$segments['query']`. */
  function QuerySuffix(query: Option<string>): string {
    if query.Some? && !Empty(query.value) then "?" + query.value else ""
  }

  /** The query a public URL carries: the given one unless it is empty. */
  function KeptQuery(query: Option<string>): Option<string> {
    if query.Some? && !Empty(query.value) then query else None
  }

  lemma QuerySuffixKept(query: Option<string>)
    ensures QuerySuffix(query) == Unparse(UrlParts("", KeptQuery(query)))
  {
  }

  /** `getUrl`: the normalised host, the path's segments each encoded and joined with "/", leading "/"
      removed, and "?query" when the query is not empty. */
  function PublicUrl(domain: string, path: string, enc: Encoding, backslashAsSlash: bool): string
    requires IsByteString(path)
  {
    var parts := ParseUrl(path, backslashAsSlash);
    ParsedPathBytes(path, backslashAsSlash);
    NormalizeHost(domain) + (EncodePath(parts.path, enc) + QuerySuffix(parts.query))
  }

  lemma EncodePathNoQuestionMark(path: string, enc: Encoding)
    requires IsByteString(path)
    ensures '?' !in EncodePath(path, enc)
  {
    SplitBytes(path, '/');
    var segs := EncodeSegments(Split(path, '/'), enc);
    forall i | 0 <= i < |segs| ensures '?' !in segs[i] {
      EncodeNoSeparator(Split(path, '/')[i], enc);
    }
    JoinNoQuestionMark(segs);
    var j := JoinedSegments(path, enc);
    var e := EncodePath(path, enc);
    assert e == j[|j| - |e|..];
  }

  /** A public URL is the host followed by the encoded path and the kept query. */
  lemma PublicUrlShape(domain: string, path: string, enc: Encoding, backslashAsSlash: bool)
    requires IsByteString(path)
    ensures IsByteString(ParseUrl(path, backslashAsSlash).path)
    ensures var parts := ParseUrl(path, backslashAsSlash);
            PublicUrl(domain, path, enc, backslashAsSlash) ==
              NormalizeHost(domain) + Unparse(UrlParts(EncodePath(parts.path, enc), KeptQuery(parts.query)))
  {
    var parts := ParseUrl(path, backslashAsSlash);
    ParsedPathBytes(path, backslashAsSlash);
    QuerySuffixKept(parts.query);
  }

  /** Reading a public URL back: after the host, the text up to the first "?" decodes to the path without
      its leading slashes, and what follows is the query, present exactly when it was not empty. */
  lemma PublicUrlRoundTrip(domain: string, path: string, enc: Encoding, dec: Encoding, backslashAsSlash: bool)
    requires IsByteString(path)
    requires enc == Raw || dec == Form
    ensures var url := PublicUrl(domain, path, enc, backslashAsSlash);
            var host := NormalizeHost(domain);
            var parts := ParseUrl(path, backslashAsSlash);
            StartsWith(url, host) &&
            var back := ParseUrl(url[|host|..], false);
            Decode(back.path, dec) == LTrim(parts.path, '/') && back.query == KeptQuery(parts.query)
  {
    var url := PublicUrl(domain, path, enc, backslashAsSlash);
    var host := NormalizeHost(domain);
    var parts := ParseUrl(path, backslashAsSlash);
    PublicUrlShape(domain, path, enc, backslashAsSlash);
    var back := UrlParts(EncodePath(parts.path, enc), KeptQuery(parts.query));
    assert url[|host|..] == Unparse(back);
    EncodePathNoQuestionMark(parts.path, enc);
    UnparseSplitQuery(back);
    EncodePathRoundTrip(parts.path, enc, dec);
  }

  lemma {:induction false} JoinNoQuestionMark(segs: seq<string>)
    requires forall i :: 0 <= i < |segs| ==> '?' !in segs[i]
    ensures '?' !in Join(segs, '/')
  {
    if |segs| > 1 {
      JoinNoQuestionMark(segs[1..]);
    }
  }
}
