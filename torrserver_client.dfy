/**
 * The pure part of the TorrServer client: the optional Basic credentials
 * header (section 2 of RFC 7617: base64 of the UTF-8 bytes of
 * "user:pass"), the request URLs and the metadata test on a torrent
 * status.  The POST and GET requests themselves are left out.
 */
module TorrserverClient {
  import opened Common

  type Byte = x: int | 0 <= x < 256

  // -----------------------------------------------------------------------
  // UTF-8 (section 3 of RFC 3629)

  /** `Encoding.UTF8.GetBytes` of one character: one to four bytes. */
  function EncodeChar(c: char): (r: seq<Byte>)
    ensures 1 <= |r| <= 4
    ensures (c as int < 0x80) <==> |r| == 1
  {
    var n := c as int;
    if n < 0x80 then [n]
    else if n < 0x800 then [0xC0 + n / 64, 0x80 + n % 64]
    else if n < 0x10000 then [0xE0 + n / 4096, 0x80 + (n / 64) % 64, 0x80 + n % 64]
    else [0xF0 + n / 262144, 0x80 + (n / 4096) % 64, 0x80 + (n / 64) % 64, 0x80 + n % 64]
  }

  /** `Encoding.UTF8.GetBytes(s)`. */
  function Utf8(s: string): (r: seq<Byte>)
    ensures |s| <= |r| <= 4 * |s|
    decreases |s|
  {
    if s == [] then [] else EncodeChar(s[0]) + Utf8(s[1..])
  }

  predicate IsScalar(n: int) { 0 <= n < 0xD800 || 0xE000 <= n < 0x110000 }

  predicate IsCont(b: Byte) { 0x80 <= b < 0xC0 }

  /** The first character of a UTF-8 byte sequence and its length, for well-formed shortest encodings. */
  function DecodeChar(bs: seq<Byte>): (r: Option<(char, nat)>)
    ensures r.Some? ==> 1 <= r.value.1 <= |bs| && r.value.1 <= 4
  {
    if bs == [] then None
    else
      var b0: int := bs[0];
      if b0 < 0x80 then Some((b0 as char, 1))
      else if 0xC0 <= b0 < 0xE0 && |bs| >= 2 && IsCont(bs[1]) then
        var n := Join2(b0 - 0xC0, bs[1] - 0x80);
        if 0x80 <= n then Some((n as char, 2)) else None
      else if 0xE0 <= b0 < 0xF0 && |bs| >= 3 && IsCont(bs[1]) && IsCont(bs[2]) then
        var n := Join3(b0 - 0xE0, bs[1] - 0x80, bs[2] - 0x80);
        if 0x800 <= n && IsScalar(n) then Some((n as char, 3)) else None
      else if 0xF0 <= b0 < 0xF5 && |bs| >= 4 && IsCont(bs[1]) && IsCont(bs[2]) && IsCont(bs[3]) then
        var n := Join4(b0 - 0xF0, bs[1] - 0x80, bs[2] - 0x80, bs[3] - 0x80);
        if 0x10000 <= n && IsScalar(n) then Some((n as char, 4)) else None
      else None
  }

  /** The code point of a two-, three- and four-byte sequence from its payload bits. */
  function Join2(a: int, b: int): int requires 0 <= a < 32 && 0 <= b < 64 { a * 64 + b }
  function Join3(a: int, b: int, c: int): int requires 0 <= a < 16 && 0 <= b < 64 && 0 <= c < 64 { a * 4096 + b * 64 + c }
  function Join4(a: int, b: int, c: int, d: int): int requires 0 <= a < 5 && 0 <= b < 64 && 0 <= c < 64 && 0 <= d < 64 {
    a * 262144 + b * 4096 + c * 64 + d
  }

  lemma Split2(n: int)
    requires 0 <= n < 0x800
    ensures Join2(n / 64, n % 64) == n
  {
  }

  lemma Split3(n: int)
    requires 0 <= n < 0x10000
    ensures 0 <= n / 4096 < 16 && Join3(n / 4096, (n / 64) % 64, n % 64) == n
  {
    assert n / 64 == (n / 4096) * 64 + (n / 64) % 64;
  }

  lemma Split4(n: int)
    requires 0 <= n < 0x110000
    ensures 0 <= n / 262144 < 5 && Join4(n / 262144, (n / 4096) % 64, (n / 64) % 64, n % 64) == n
  {
    assert n / 64 == (n / 4096) * 64 + (n / 64) % 64;
    assert n / 4096 == (n / 262144) * 64 + (n / 4096) % 64;
  }

  /** UTF-8 decoding, `None` on a malformed sequence. */
  function Utf8Decode(bs: seq<Byte>): (r: Option<string>)
    decreases |bs|
  {
    if bs == [] then Some([])
    else
      var d := DecodeChar(bs);
      if d.None? then None
      else
        var rest := Utf8Decode(bs[d.value.1..]);
        if rest.None? then None else Some([d.value.0] + rest.value)
  }

  /** The bytes of one character decode back to it, whatever follows them. */
  lemma DecodeEncodeChar(c: char, rest: seq<Byte>)
    ensures DecodeChar(EncodeChar(c) + rest) == Some((c, |EncodeChar(c)|))
  {
    var n := c as int;
    var e := EncodeChar(c);
    var bs := e + rest;
    assert bs[..|e|] == e;
    if n < 0x80 {
    } else if n < 0x800 {
      Split2(n);
    } else if n < 0x10000 {
      Split3(n);
    } else {
      Split4(n);
    }
    assert (n as char) == c;
  }

  /** Decoding the UTF-8 bytes of a string gives the string back. */
  lemma {:induction false} Utf8RoundTrip(s: string)
    ensures Utf8Decode(Utf8(s)) == Some(s)
    decreases |s|
  {
    if s != [] {
      DecodeEncodeChar(s[0], Utf8(s[1..]));
      Utf8RoundTrip(s[1..]);
      assert (EncodeChar(s[0]) + Utf8(s[1..]))[|EncodeChar(s[0])|..] == Utf8(s[1..]);
      assert [s[0]] + s[1..] == s;
    }
  }

  /** ASCII text is its own UTF-8 encoding, one byte per character. */
  lemma {:induction false} Utf8Ascii(s: string)
    requires forall i :: 0 <= i < |s| ==> s[i] as int < 0x80
    ensures |Utf8(s)| == |s| && forall i :: 0 <= i < |s| ==> Utf8(s)[i] == s[i] as int
    decreases |s|
  {
    if s != [] {
      Utf8Ascii(s[1..]);
    }
  }

  // -----------------------------------------------------------------------
  // Base64 (section 4 of RFC 4648)

  /** The character of a 6-bit value in the base64 alphabet. */
  function B64Char(i: int): (c: char)
    requires 0 <= i < 64
    ensures c != '='
  {
    if i < 26 then ('A' as int + i) as char
    else if i < 52 then ('a' as int + i - 26) as char
    else if i < 62 then ('0' as int + i - 52) as char
    else if i == 62 then '+'
    else '/'
  }

  /** The 6-bit value of a base64 character, `None` outside the alphabet. */
  function B64Value(c: char): (r: Option<int>)
    ensures r.Some? ==> 0 <= r.value < 64
  {
    if 'A' <= c <= 'Z' then Some(c as int - 'A' as int)
    else if 'a' <= c <= 'z' then Some(c as int - 'a' as int + 26)
    else if '0' <= c <= '9' then Some(c as int - '0' as int + 52)
    else if c == '+' then Some(62)
    else if c == '/' then Some(63)
    else None
  }

  lemma B64ValueChar(i: int)
    requires 0 <= i < 64
    ensures B64Value(B64Char(i)) == Some(i)
  {
  }

  /** `Convert.ToBase64String`: each group of three bytes becomes four characters; a short last group is padded with '='. */
  function Base64(b: seq<Byte>): (r: string)
    ensures |r| % 4 == 0 && (r == [] <==> b == [])
    decreases |b|
  {
    if |b| == 0 then []
    else if |b| == 1 then Encode1(b[0])
    else if |b| == 2 then Encode2(b[0], b[1])
    else Encode3(b[0], b[1], b[2]) + Base64(b[3..])
  }

  /** One byte: two characters and two pads. */
  function Encode1(x0: Byte): (r: string)
    ensures |r| == 4
  {
    SextetBounds(x0, 0);
    [B64Char(x0 / 4), B64Char((x0 % 4) * 16), '=', '=']
  }

  /** Two bytes: three characters and one pad. */
  function Encode2(x0: Byte, x1: Byte): (r: string)
    ensures |r| == 4
  {
    SextetBounds(x0, x1);
    SextetBounds(x1, 0);
    [B64Char(x0 / 4), B64Char((x0 % 4) * 16 + x1 / 16), B64Char((x1 % 16) * 4), '=']
  }

  /** Three bytes: four characters. */
  function Encode3(x0: Byte, x1: Byte, x2: Byte): (r: string)
    ensures |r| == 4
  {
    SextetBounds(x0, x1);
    SextetBounds(x1, x2);
    [B64Char(x0 / 4), B64Char((x0 % 4) * 16 + x1 / 16), B64Char((x1 % 16) * 4 + x2 / 64), B64Char(x2 % 64)]
  }

  /** The 6-bit values taken from two neighbouring bytes. */
  lemma SextetBounds(x: Byte, y: Byte)
    ensures 0 <= x / 4 < 64 && 0 <= (x % 4) * 16 + y / 16 < 64 && 0 <= (x % 16) * 4 + y / 64 < 64
    ensures 0 <= (x % 4) * 16 < 64 && 0 <= (x % 16) * 4 < 64 && 0 <= y % 64 < 64
  {
  }

  /** `n` bytes give 4·⌈n/3⌉ characters. */
  lemma {:induction false} Base64Length(b: seq<Byte>)
    ensures |Base64(b)| == 4 * ((|b| + 2) / 3)
    decreases |b|
  {
    if |b| >= 3 {
      Base64Length(b[3..]);
      assert (|b| + 2) / 3 == (|b[3..]| + 2) / 3 + 1;
    }
  }

  /** The bytes of a canonical base64 text, `None` for anything else. */
  function Base64Decode(s: string): (r: Option<seq<Byte>>)
    decreases |s|
  {
    if s == [] then Some([])
    else if |s| < 4 then None
    else
      var i0 := B64Value(s[0]);
      var i1 := B64Value(s[1]);
      if i0.None? || i1.None? then None
      else if s[2] == '=' && s[3] == '=' then
        if |s| == 4 && i1.value % 16 == 0 then Some([i0.value * 4 + i1.value / 16]) else None
      else
        var i2 := B64Value(s[2]);
        if i2.None? then None
        else if s[3] == '=' then
          if |s| == 4 && i2.value % 4 == 0 then Some([i0.value * 4 + i1.value / 16, (i1.value % 16) * 16 + i2.value / 4]) else None
        else
          var i3 := B64Value(s[3]);
          if i3.None? then None
          else
            var rest := Base64Decode(s[4..]);
            if rest.None? then None
            else Some([i0.value * 4 + i1.value / 16, (i1.value % 16) * 16 + i2.value / 4, (i2.value % 4) * 64 + i3.value] + rest.value)
  }

  /** The sextets of a byte group and the bytes they decode to. */
  lemma Group1(b0: Byte)
    ensures ((b0 % 4) * 16) % 16 == 0
    ensures (b0 / 4) * 4 + ((b0 % 4) * 16) / 16 == b0
  {
  }

  lemma Group2(b0: Byte, b1: Byte)
    ensures var i1 := (b0 % 4) * 16 + b1 / 16; var i2 := (b1 % 16) * 4;
      i2 % 4 == 0 && (b0 / 4) * 4 + i1 / 16 == b0 && (i1 % 16) * 16 + i2 / 4 == b1
  {
  }

  lemma Group3(b0: Byte, b1: Byte, b2: Byte)
    ensures var i1 := (b0 % 4) * 16 + b1 / 16; var i2 := (b1 % 16) * 4 + b2 / 64; var i3 := b2 % 64;
      (b0 / 4) * 4 + i1 / 16 == b0 && (i1 % 16) * 16 + i2 / 4 == b1 && (i2 % 4) * 64 + i3 == b2
  {
  }

  /** Decoding the base64 text of a byte sequence gives the bytes back. */
  lemma {:induction false} Base64RoundTrip(b: seq<Byte>)
    ensures Base64Decode(Base64(b)) == Some(b)
    decreases |b|
  {
    if |b| == 1 {
      Base64Tail1(b[0]);
      assert [b[0]] == b;
    } else if |b| == 2 {
      Base64Tail2(b[0], b[1]);
      assert [b[0], b[1]] == b;
    } else if |b| >= 3 {
      var t := b[3..];
      assert [b[0], b[1], b[2]] + t == b;
      Base64RoundTrip(t);
      Base64Prefix(b[0], b[1], b[2], t);
    }
  }

  /** A full first group decodes in front of the decoded rest. */
  lemma Base64Prefix(b0: Byte, b1: Byte, b2: Byte, t: seq<Byte>)
    requires Base64Decode(Base64(t)) == Some(t)
    ensures Base64Decode(Base64([b0, b1, b2] + t)) == Some([b0, b1, b2] + t)
  {
    Base64Step(b0, b1, b2, t);
    Base64Group(b0, b1, b2, Base64(t));
  }

  lemma Base64Tail1(b0: Byte)
    ensures Base64Decode([B64Char(b0 / 4), B64Char((b0 % 4) * 16), '=', '=']) == Some([b0])
  {
    B64ValueChar(b0 / 4);
    B64ValueChar((b0 % 4) * 16);
    Group1(b0);
  }

  lemma Base64Tail2(b0: Byte, b1: Byte)
    ensures Base64Decode([B64Char(b0 / 4), B64Char((b0 % 4) * 16 + b1 / 16), B64Char((b1 % 16) * 4), '=']) == Some([b0, b1])
  {
    B64ValueChar(b0 / 4);
    B64ValueChar((b0 % 4) * 16 + b1 / 16);
    B64ValueChar((b1 % 16) * 4);
    Group2(b0, b1);
  }

  /** One full group followed by any decodable text. */
  lemma Base64Group(b0: Byte, b1: Byte, b2: Byte, rest: string)
    requires |rest| % 4 == 0
    ensures var s := [B64Char(b0 / 4), B64Char((b0 % 4) * 16 + b1 / 16), B64Char((b1 % 16) * 4 + b2 / 64), B64Char(b2 % 64)] + rest;
      Base64Decode(s) == if Base64Decode(rest).None? then None else Some([b0, b1, b2] + Base64Decode(rest).value)
  {
    var s := [B64Char(b0 / 4), B64Char((b0 % 4) * 16 + b1 / 16), B64Char((b1 % 16) * 4 + b2 / 64), B64Char(b2 % 64)] + rest;
    B64ValueChar(b0 / 4);
    B64ValueChar((b0 % 4) * 16 + b1 / 16);
    B64ValueChar((b1 % 16) * 4 + b2 / 64);
    B64ValueChar(b2 % 64);
    Group3(b0, b1, b2);
    assert s[4..] == rest;
  }

  // -----------------------------------------------------------------------
  // Requests

  /**
   * `AuthHeaders(username, password)`: no header when both are empty
   * (null counts as empty), else the single Basic header.
   */
  function AuthHeaders(username: Option<string>, password: Option<string>): (r: Option<seq<(string, string)>>)
    ensures r.None? <==> OrElse(username, "") == [] && OrElse(password, "") == []
    ensures r.Some? ==> |r.value| == 1 && r.value[0].0 == "Authorization" && StartsWith(r.value[0].1, "Basic ")
  {
    var user := OrElse(username, "");
    var pass := OrElse(password, "");
    if user == [] && pass == [] then None
    else
      var value := "Basic " + Base64(Utf8(user + ":" + pass));
      assert value[..6] == "Basic ";
      Some([("Authorization", value)])
  }

  /** The credentials of the Basic header decode (base64, then UTF-8) back to "user:pass". */
  lemma AuthHeadersCredentials(username: Option<string>, password: Option<string>)
    ensures var r := AuthHeaders(username, password);
      r.Some? ==> var bytes := Base64Decode(r.value[0].1[6..]);
        bytes.Some? && Utf8Decode(bytes.value) == Some(OrElse(username, "") + ":" + OrElse(password, ""))
  {
    var text := OrElse(username, "") + ":" + OrElse(password, "");
    var bytes := Utf8(text);
    var value := "Basic " + Base64(bytes);
    assert value[6..] == Base64(bytes);
    Base64RoundTrip(bytes);
    Utf8RoundTrip(text);
  }

  /** The encoding of a concatenation is the concatenation of the encodings. */
  lemma {:induction false} Utf8Append(a: string, b: string)
    ensures Utf8(a + b) == Utf8(a) + Utf8(b)
    decreases |a|
  {
    if a != [] {
      assert (a + b)[0] == a[0] && (a + b)[1..] == a[1..] + b;
      Utf8Append(a[1..], b);
      assert Utf8(a + b) == EncodeChar(a[0]) + (Utf8(a[1..]) + Utf8(b));
    } else {
      assert a + b == b;
    }
  }

  lemma Base64Step(b0: Byte, b1: Byte, b2: Byte, rest: seq<Byte>)
    ensures Base64([b0, b1, b2] + rest) ==
      [B64Char(b0 / 4), B64Char((b0 % 4) * 16 + b1 / 16), B64Char((b1 % 16) * 4 + b2 / 64), B64Char(b2 % 64)] + Base64(rest)
  {
    assert ([b0, b1, b2] + rest)[3..] == rest;
  }

  /** `s.TrimEnd('/')`. */
  function TrimEndSlash(s: string): (r: string)
    ensures |r| <= |s| && r == s[..|r|]
    ensures r == [] || r[|r| - 1] != '/'
    ensures forall k :: |r| <= k < |s| ==> s[k] == '/'
    decreases |s|
  {
    if s != [] && s[|s| - 1] == '/' then TrimEndSlash(s[..|s| - 1]) else s
  }

  /** The endpoint of `AddTorrent`, `GetTorrent` and `RemTorrent`. */
  function TorrentsUrl(baseUrl: string): (r: string)
    ensures EndsWith(r, "/torrents") && StartsWith(baseUrl, r[..|r| - 9])
    ensures |r| < 10 || r[|r| - 10] != '/'
  {
    var b := TrimEndSlash(baseUrl);
    var r := b + "/torrents";
    assert r[..|r| - 9] == b && r[|r| - 9..] == "/torrents";
    r
  }

  /** The endpoint of `Ffp`: `{base}/ffp/{hash}/{fileIndex}`. */
  function FfpUrl(baseUrl: string, hash: string, fileIndex: int): (r: string)
    ensures StartsWith(r, TrimEndSlash(baseUrl) + "/ffp/" + hash + "/")
    ensures r[|TrimEndSlash(baseUrl) + "/ffp/" + hash + "/"|..] == IntToString(fileIndex)
  {
    var p := TrimEndSlash(baseUrl) + "/ffp/" + hash + "/";
    var r := p + IntToString(fileIndex);
    assert r[..|p|] == p && r[|p|..] == IntToString(fileIndex);
    r
  }

  /** Trailing slashes on the configured base do not change the URLs. */
  lemma TrailingSlashIgnored(baseUrl: string, hash: string, fileIndex: int)
    ensures TorrentsUrl(baseUrl + "/") == TorrentsUrl(baseUrl)
    ensures FfpUrl(baseUrl + "/", hash, fileIndex) == FfpUrl(baseUrl, hash, fileIndex)
  {
    TrimEndSlashAppend(baseUrl);
  }

  lemma TrimEndSlashAppend(baseUrl: string)
    ensures TrimEndSlash(baseUrl + "/") == TrimEndSlash(baseUrl)
  {
    var s := baseUrl + "/";
    assert s != [] && s[|s| - 1] == '/';
    assert s[..|s| - 1] == baseUrl;
  }

  /** One entry of `file_stats`. */
  datatype FileStat = FileStat(id: int, path: Option<string>, length: int)

  /** The fields of the status that `HasMetadata` reads. */
  datatype TorrentStatus = TorrentStatus(hash: Option<string>, fileStats: Option<seq<FileStat>>)

  /** `HasMetadata(status)`: the torrent has a non-empty file list. */
  function HasMetadata(status: Option<TorrentStatus>): (r: bool)
    ensures r <==> status.Some? && status.value.fileStats.Some? && |status.value.fileStats.value| > 0
    ensures r ==> exists f :: f in status.value.fileStats.value
  {
    if status.None? || status.value.fileStats.None? then false
    else
      var fs := status.value.fileStats.value;
      if |fs| > 0 then
        assert fs[0] in fs;
        true
      else false
  }
}
