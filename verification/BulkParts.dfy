/**
 What the parts of a bulk name are: which prefix a kind gets, what is kept of a host, where
 host and port come from, and what number the eight digits of the hash spell.
 */
module BulkParts {
  import opened Common
  import opened UpstreamTypes
  import opened Text
  import opened HostPort
  import opened Dashes
  import opened BulkName

  // ---------- prefix ----------

  /** Every name begins with its kind's prefix and a dash. */
  lemma NameStarts(u: Upstream)
    ensures HasPrefix(NameOf(u), match u.kind case Direct => "dir-" case Socks5 => "s5-" case Socks4 => "s4-" case Shadowsocks => "ss-")
  {
    var middle := Middle(CutHost(u), HostPortOf(u).1);
    NameShape(u);
    SqueezeKeepsFirst(middle);
    assert middle[0] == '-';
    PrefixAndDash(Prefix(u.kind), Squeeze(middle), HashText(u));
  }

  lemma PrefixAndDash(prefix: string, mid: string, rest: string)
    requires mid != "" && mid[0] == '-'
    ensures HasPrefix(prefix + mid + rest, prefix + "-")
  {
    assert (prefix + mid + rest)[..|prefix| + 1] == prefix + [mid[0]];
  }

  // ---------- host ----------

  /** The ASCII letters and digits of a text, in order. */
  function Alnums(s: string): string {
    if s == "" then ""
    else
      var n := s[|s| - 1] as int;
      Alnums(s[..|s| - 1]) + if 48 <= n <= 57 || 65 <= n <= 90 || 97 <= n <= 122 then [s[|s| - 1]] else ""
  }

  lemma {:induction false} AlnumsOfSum(a: string, b: string)
    ensures Alnums(a + b) == Alnums(a) + Alnums(b)
  {
    if b == "" {
      assert a + b == a;
    } else {
      AlnumsOfSum(a, b[..|b| - 1]);
      assert (a + b)[..|a + b| - 1] == a + b[..|b| - 1];
    }
  }

  lemma {:induction false} DashesHaveNone(s: string)
    requires All(s, DASH)
    ensures Alnums(s) == ""
  {
    if s != "" {
      DashesHaveNone(s[..|s| - 1]);
    }
  }

  lemma {:induction false} DashedKeeps(host: string)
    ensures Alnums(Dashed(host)) == Alnums(host)
  {
    if host != "" {
      var init, c := host[..|host| - 1], host[|host| - 1];
      DashedKeeps(init);
      var d := if IsAlnum(c) then c else '-';
      assert Dashed(host)[..|init|] == Dashed(init) by { DashedLength(init); }
      AlnumsOfSum(Dashed(init), [d]);
      AlnumsOfSum(init, [c]);
      assert host == init + [c];
      OneAlnum(c);
      OneAlnum('-');
    }
  }

  lemma OneAlnum(c: char)
    ensures Alnums([c]) == if IsAlnum(c) then [c] else ""
  {
    assert [c][..0] == "";
  }

  lemma {:induction false} DashedLength(host: string)
    ensures |Dashed(host)| == |host|
  {
    if host != "" {
      DashedLength(host[..|host| - 1]);
    }
  }

  lemma {:induction false} SqueezeKeepsAlnums(s: string)
    ensures Alnums(Squeeze(s)) == Alnums(s)
  {
    if |s| >= 2 {
      var rest := s[1..];
      SqueezeKeepsAlnums(rest);
      assert s == [s[0]] + rest;
      AlnumsOfSum([s[0]], rest);
      AlnumsOfSum([s[0]], Squeeze(rest));
      OneAlnum(s[0]);
    }
  }

  lemma {:induction false} TrimKeepsAlnums(s: string)
    ensures Alnums(Trim(s, DASH)) == Alnums(s)
  {
    var left, right := TrimSplits(s, DASH);
    DashesHaveNone(left);
    DashesHaveNone(right);
    AlnumsOfSum(left + Trim(s, DASH), right);
    AlnumsOfSum(left, Trim(s, DASH));
  }

  predicate HostChar(c: char) {
    c == '-' || 48 <= c as int <= 57 || 65 <= c as int <= 90 || 97 <= c as int <= 122
  }

  predicate HostChars(s: string) {
    forall i | 0 <= i < |s| :: HostChar(s[i])
  }

  lemma {:induction false} DashedChars(host: string)
    ensures HostChars(Dashed(host))
  {
    if host != "" {
      DashedChars(host[..|host| - 1]);
    }
  }

  lemma {:induction false} SqueezedChars(s: string)
    requires HostChars(s)
    ensures HostChars(Squeeze(s))
  {
    if |s| >= 2 {
      SqueezedChars(s[1..]);
    }
  }

  lemma TrimmedChars(s: string)
    requires HostChars(s)
    ensures HostChars(Trim(s, DASH))
  {
    var left, right := TrimSplits(s, DASH);
    forall i | 0 <= i < |Trim(s, DASH)| ensures HostChar(Trim(s, DASH)[i]) {
      assert s[|left| + i] == Trim(s, DASH)[i];
    }
  }

  lemma SanitizedIsClean(host: string)
    ensures Clean(Sanitized(host))
  {
    var squeezed := Squeeze(Dashed(host));
    SqueezedHasNoDouble(Dashed(host));
    CleanPrefix(squeezed, |squeezed|);
    assert squeezed[..|squeezed|] == squeezed;
  }

  /** A sanitized host has the host's letters and digits, in order, and nothing else but single
      dashes between them. */
  lemma {:induction false} SanitizedKeeps(host: string)
    ensures Alnums(Sanitized(host)) == Alnums(host)
    ensures Clean(Sanitized(host)) && HostChars(Sanitized(host))
  {
    DashedKeeps(host);
    SqueezeKeepsAlnums(Dashed(host));
    TrimKeepsAlnums(Squeeze(Dashed(host)));
    DashedChars(host);
    SqueezedChars(Dashed(host));
    TrimmedChars(Squeeze(Dashed(host)));
    SanitizedIsClean(host);
  }

  lemma {:induction false} TrimRightIsPrefix(s: string)
    ensures TrimRight(s, DASH) <= s
  {
    if s != "" && s[|s| - 1] in DASH {
      TrimRightIsPrefix(s[..|s| - 1]);
    }
  }

  /** With a dash at most at the end, and no double one, trimming takes one character at most. */
  lemma TrimOfCut(s: string)
    requires (s != "" ==> s[0] != '-') && !HasDouble(s)
    ensures Trim(s, DASH) <= s && |Trim(s, DASH)| >= |s| - 1
  {
    assert TrimLeft(s, DASH) == s;
    TrimRightIsPrefix(s);
    if s != "" && s[|s| - 1] == '-' {
      var init := s[..|s| - 1];
      assert init != "" && init[|init| - 1] == s[|s| - 2] != '-';
      assert TrimRight(init, DASH) == init;
    }
  }

  /** What is kept of the host: all of its sanitized form if that fits beside the rest in 32
      bytes, else the start of it that fits, or one character less where that ends in a dash. */
  lemma HostIsKept(u: Upstream)
    ensures var clean, cut := Sanitized(HostPortOf(u).0), CutHost(u);
      var room := 32 - (if u.kind.Direct? then 3 else 2) - 3 - |Bytes(HostPortOf(u).1)| - 8;
      && cut <= clean
      && (|clean| <= room ==> cut == clean)
      && (|clean| > room >= 0 ==> room - 1 <= |cut| <= room)
      && (room < 0 ==> cut == "")
  {
    var clean := Sanitized(HostPortOf(u).0);
    SanitizedIsClean(HostPortOf(u).0);
    CutOfClean(clean, Room(u));
  }

  lemma CutOfClean(clean: string, room: int)
    requires Clean(clean)
    ensures var cut := Trim(if room < 0 then "" else if |clean| > room then clean[..room] else clean, DASH);
      cut <= clean && (|clean| <= room ==> cut == clean) && (|clean| > room >= 0 ==> room - 1 <= |cut| <= room) && (room < 0 ==> cut == "")
  {
    if |clean| <= room {
      TrimOfTight(clean);
    } else if room >= 0 {
      var cut := clean[..room];
      assert forall i | 0 <= i < |cut| :: cut[i] == clean[i];
      assert cut != "" ==> cut[0] == clean[0];
      TrimOfCut(cut);
    }
  }

  // ---------- where host and port come from ----------

  /** Of any kind but shadowsocks: the two parts of its address; all of it and port 0 when it has
      no such parts. */
  lemma HostAndPort(u: Upstream, host: string, port: string)
    requires !u.kind.Shadowsocks?
    ensures IsHostPort(u.address, host, port) ==> HostPortOf(u) == (host, port)
    ensures (forall h, p :: !IsHostPort(u.address, h, p)) ==> HostPortOf(u) == (u.address, "0")
  {
    SplitHostPortIff(u.address, host, port);
    if SplitHostPort(u.address).Ok? {
      SplitSound(u.address);
    }
  }

  lemma {:induction false} UpToStops(s: string, rest: string, stops: set<char>)
    requires (forall c | c in s :: c !in stops) && (rest == "" || rest[0] in stops)
    ensures UpTo(s + rest, stops) == s
  {
    if s == "" {
      assert s + rest == rest;
    } else {
      assert (s + rest)[1..] == s[1..] + rest;
      UpToStops(s[1..], rest, stops);
    }
  }

  lemma {:induction false} SchemeIsDropped(trimmed: string, scheme: string, body: string)
    requires trimmed == scheme + body
    requires scheme == "ss://" || (scheme == "" && !HasPrefix(body, "ss://"))
    ensures (if HasPrefix(trimmed, "ss://") then trimmed[5..] else trimmed) == body
  {
    assert scheme == "" ==> trimmed == body;
    assert scheme == "ss://" ==> trimmed[..5] == "ss://" && trimmed[5..] == body;
  }

  lemma {:induction false} AddressBehindAt(body: string, user: string, address: string, rest: string)
    requires body == user + "@" + (address + rest) && '@' !in address + rest
    requires (forall c | c in address :: c != '#' && c != '/' && c != '?')
             && (rest == "" || rest[0] == '#' || rest[0] == '/' || rest[0] == '?')
    ensures LastIndexOf(body, '@') == |user| && UpTo(body[|user| + 1..], {'#', '/', '?'}) == address
  {
    LastIndexOfIs(body, '@', user, address + rest);
    UpToStops(address, rest, {'#', '/', '?'});
  }

  lemma {:induction false} AddressIsFound(url: string, scheme: string, body: string, user: string, address: string, rest: string)
    requires TrimSpace(url) == scheme + body
    requires scheme == "ss://" || (scheme == "" && !HasPrefix(body, "ss://"))
    requires body == user + "@" + (address + rest) && '@' !in address + rest
    requires (forall c | c in address :: c != '#' && c != '/' && c != '?')
             && (rest == "" || rest[0] == '#' || rest[0] == '/' || rest[0] == '?')
    requires SplitHostPort(address).Ok?
    ensures ShadowsocksHostPort(url) == Ok(address)
  {
    SchemeIsDropped(TrimSpace(url), scheme, body);
    AddressBehindAt(body, user, address, rest);
  }

  /** Of shadowsocks: the two parts of what stands in its URL between the last "@" and the first
      "#", "/" or "?" after it; "ss" and port 0 for a URL without "@". */
  lemma ShadowsocksHostAndPort(u: Upstream, left: string, scheme: string, user: string, address: string, rest: string, right: string,
                               host: string, port: string)
    requires u.kind.Shadowsocks? && All(left, SPACES) && All(right, SPACES)
    requires u.url == left + (scheme + (user + "@" + (address + rest))) + right && Tight(scheme + (user + "@" + (address + rest)), SPACES)
    requires scheme == "ss://" || (scheme == "" && !HasPrefix(user + "@" + (address + rest), "ss://"))
    requires IsHostPort(address, host, port) && '@' !in address + rest
    requires (forall c | c in address :: c != '#' && c != '/' && c != '?')
             && (rest == "" || rest[0] == '#' || rest[0] == '/' || rest[0] == '?')
    ensures HostPortOf(u) == (host, port)
  {
    var body := user + "@" + (address + rest);
    TrimIs(SPACES, left, scheme + body, right);
    SplitHostPortIff(address, host, port);
    AddressIsFound(u.url, scheme, body, user, address, rest);
  }

  lemma ShadowsocksWithoutAt(u: Upstream)
    requires u.kind.Shadowsocks? && '@' !in u.url
    ensures HostPortOf(u) == ("ss", "0")
  {
    var left, right := TrimSplits(u.url, SPACES);
    var trimmed := TrimSpace(u.url);
    assert forall c | c in trimmed :: c in u.url;
    assert |trimmed| >= 5 ==> forall c | c in trimmed[5..] :: c in trimmed;
  }

  // ---------- identity and hash ----------

  /** What is hashed, in full. */
  lemma IdentityInFull(u: Upstream)
    ensures Identity(u) ==
      (match u.kind case Direct => "direct" case Socks5 => "socks5" case Socks4 => "socks4" case Shadowsocks => "shadowsocks")
      + "\0" + (u.address + "\0" + (u.username + "\0" + (u.password + "\0" + (u.iface + if u.url == "" then "" else "\0" + u.url))))
  {
    var last := if u.url == "" then [u.iface] else [u.iface, u.url];
    var kind := KindText(u.kind);
    assert last[1..] == if u.url == "" then [] else [u.url];
    assert Join(last, '\0') == u.iface + if u.url == "" then "" else "\0" + u.url by {
      if u.url == "" { assert u.iface + "" == u.iface; } else { assert u.iface + ['\0'] + u.url == u.iface + ("\0" + u.url); }
    }
    JoinInFront(u.password, last);
    JoinInFront(u.username, [u.password] + last);
    JoinInFront(u.address, [u.username] + ([u.password] + last));
    JoinInFront(kind, [u.address] + ([u.username] + ([u.password] + last)));
    assert IdentityParts(u) == [kind] + ([u.address] + ([u.username] + ([u.password] + last)));
  }

  lemma {:induction false} JoinInFront(part: string, rest: seq<string>)
    requires rest != []
    ensures Join([part] + rest, '\0') == part + "\0" + Join(rest, '\0')
  {
    JoinMore(part, rest, '\0');
  }

  function Pow31(n: nat): nat {
    if n == 0 then 1 else 31 * Pow31(n - 1)
  }

  /** The first byte with the highest power of 31. */
  function Polynomial(bytes: seq<int>): int {
    if bytes == [] then 0 else bytes[0] * Pow31(|bytes| - 1) + Polynomial(bytes[1..])
  }

  lemma {:induction false} PolynomialBack(bytes: seq<int>, b: int)
    ensures Polynomial(bytes + [b]) == Polynomial(bytes) * 31 + b
  {
    if bytes == [] {
      assert [] + [b] == [b] && [b][1..] == [];
    } else {
      var n := |bytes| - 1;
      assert (bytes + [b])[1..] == bytes[1..] + [b];
      PolynomialBack(bytes[1..], b);
      assert bytes[0] * Pow31(n + 1) == bytes[0] * Pow31(n) * 31;
    }
  }

  lemma HashStep(h: int, p: int, b: int)
    requires h == p % 4294967296
    ensures (h * 31 + b) % 4294967296 == (p * 31 + b) % 4294967296
  {
    var q := p / 4294967296;
    assert p == q * 4294967296 + h;
    assert p * 31 + b == (h * 31 + b) - (-31 * q) * 4294967296;
    ModShift(h * 31 + b, -31 * q);
  }

  /** The hash is the polynomial in 31 over the bytes, as 32 bits hold it. */
  lemma {:induction false} HashIsPolynomial(bytes: seq<int>)
    ensures HashOf(bytes) == Polynomial(bytes) % 4294967296
  {
    if bytes != [] {
      var init, b := bytes[..|bytes| - 1], bytes[|bytes| - 1];
      HashIsPolynomial(init);
      PolynomialBack(init, b);
      assert bytes == init + [b];
      HashStep(HashOf(init), Polynomial(init), b);
    }
  }

  function HexValue(c: char): int {
    if '0' <= c <= '9' then c as int - 48 else if 'a' <= c <= 'f' then c as int - 87 else -1
  }

  /** The number a text of hexadecimal digits spells. */
  function Spelled(s: string): int {
    if s == "" then 0 else Spelled(s[..|s| - 1]) * 16 + HexValue(s[|s| - 1])
  }

  lemma DigitSpells(d: int)
    requires 0 <= d < 16
    ensures HexValue(HexDigit(d)) == d
  {
  }

  lemma {:induction false} HexSpells(n: int, width: nat)
    requires 0 <= n < Pow16(width)
    ensures Spelled(Hex(n, width)) == n
  {
    if width > 0 {
      HexEnds(n, width);
      HexSpells(n / 16, width - 1);
      DigitSpells(n % 16);
    }
  }

  /** The eight digits at the end of a name spell the polynomial of the identity's bytes. */
  lemma HashSpellsPolynomial(u: Upstream)
    ensures |HashText(u)| == 8 && Spelled(HashText(u)) == Polynomial(Bytes(Identity(u))) % 4294967296
  {
    HashIsPolynomial(Bytes(Identity(u)));
    PowEight();
    HexSpells(HashOf(Bytes(Identity(u))), 8);
  }

  // ---------- UTF-8 ----------

  /** The code point that starts a sequence of bytes, and how many it takes (section 3 of
      RFC 3629). */
  function DecodeFirst(b: seq<int>): (int, int)
    requires |b| == 4
  {
    if b[0] < 0x80 then (b[0], 1)
    else if b[0] < 0xE0 then ((b[0] - 0xC0) * 64 + (b[1] - 0x80), 2)
    else if b[0] < 0xF0 then ((b[0] - 0xE0) * 4096 + (b[1] - 0x80) * 64 + (b[2] - 0x80), 3)
    else ((b[0] - 0xF0) * 262144 + (b[1] - 0x80) * 4096 + (b[2] - 0x80) * 64 + (b[3] - 0x80), 4)
  }

  lemma SixBits(n: nat)
    ensures n == n / 0x40 * 0x40 + n % 0x40
    ensures n == n / 0x1000 * 0x1000 + n / 0x40 % 0x40 * 0x40 + n % 0x40
    ensures n == n / 0x4_0000 * 0x4_0000 + n / 0x1000 % 0x40 * 0x1000 + n / 0x40 % 0x40 * 0x40 + n % 0x40
  {
    var a, b := n / 0x40, n / 0x1000;
    assert b == a / 0x40 && n / 0x4_0000 == b / 0x40;
    assert a == b * 0x40 + a % 0x40 && b == b / 0x40 * 0x40 + b % 0x40;
  }

  predicate AreBytes(b: seq<int>) {
    forall i | 0 <= i < |b| :: 0 <= b[i] < 256
  }

  lemma Utf8Short(c: char, rest: seq<int>)
    requires |Utf8(c) + rest| == 4 && c as int < 0x800
    ensures DecodeFirst(Utf8(c) + rest) == (c as int, |Utf8(c)|) && AreBytes(Utf8(c))
  {
    SixBits(c as int);
  }

  lemma Utf8Three(c: char, rest: seq<int>)
    requires |Utf8(c) + rest| == 4 && 0x800 <= c as int < 0x1_0000
    ensures DecodeFirst(Utf8(c) + rest) == (c as int, 3) && AreBytes(Utf8(c)) && |Utf8(c)| == 3
  {
    var n := c as int;
    SixBits(n);
    var b := [0xE0 + n / 0x1000, 0x80 + n / 0x40 % 0x40, 0x80 + n % 0x40] + rest;
    assert Utf8(c) + rest == b;
    assert 0xE0 <= b[0] < 0xF0;
  }

  lemma Utf8Four(c: char)
    requires 0x1_0000 <= c as int
    ensures |Utf8(c)| == 4 && DecodeFirst(Utf8(c)) == (c as int, 4) && AreBytes(Utf8(c))
  {
    var n := c as int;
    SixBits(n);
    var b := [0xF0 + n / 0x4_0000, 0x80 + n / 0x1000 % 0x40, 0x80 + n / 0x40 % 0x40, 0x80 + n % 0x40];
    assert Utf8(c) == b;
    assert 0xF0 <= b[0] < 256;
  }

  /** Whatever follows it, a character's encoding is decoded to its code point, of as many bytes as
      it has, all of them bytes. */
  lemma Utf8Decodes(c: char, rest: seq<int>)
    requires |Utf8(c) + rest| == 4
    ensures DecodeFirst(Utf8(c) + rest) == (c as int, |Utf8(c)|) && AreBytes(Utf8(c))
  {
    if c as int < 0x800 {
      Utf8Short(c, rest);
    } else if c as int < 0x1_0000 {
      Utf8Three(c, rest);
    } else {
      Utf8Four(c);
      assert Utf8(c) + rest == Utf8(c);
    }
  }
}
