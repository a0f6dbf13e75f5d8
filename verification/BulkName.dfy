/**
 Names for proxies added in bulk: prefix, host, port and an 8-digit hash of the identity,
 cut to 32 bytes.  Lengths count UTF-8 bytes, as the source does.
 */
module BulkName {
  import opened Common
  import opened UpstreamTypes
  import opened Text
  import opened HostPort
  import opened Dashes

  const MAX_NAME := 32
  const WORD := 0x1_0000_0000

  // ---------- identity hash ----------

  function KindText(kind: Kind): string {
    match kind case Direct => "direct" case Socks5 => "socks5" case Socks4 => "socks4" case Shadowsocks => "shadowsocks"
  }

  function IdentityParts(u: Upstream): seq<string> {
    [KindText(u.kind), u.address, u.username, u.password, u.iface] + if u.url != "" then [u.url] else []
  }

  function Identity(u: Upstream): string {
    Join(IdentityParts(u), '\0')
  }

  function Utf8(c: char): seq<int> {
    var n := c as int;
    if n < 0x80 then [n]
    else if n < 0x800 then [0xC0 + n / 0x40, 0x80 + n % 0x40]
    else if n < 0x1_0000 then [0xE0 + n / 0x1000, 0x80 + n / 0x40 % 0x40, 0x80 + n % 0x40]
    else [0xF0 + n / 0x4_0000, 0x80 + n / 0x1000 % 0x40, 0x80 + n / 0x40 % 0x40, 0x80 + n % 0x40]
  }

  function Bytes(s: string): seq<int> {
    if s == "" then [] else Bytes(s[..|s| - 1]) + Utf8(s[|s| - 1])
  }

  /** The wrapped polynomial in 31 over the bytes. */
  function HashOf(bytes: seq<int>): (h: int)
    ensures 0 <= h < WORD
  {
    if bytes == [] then 0 else (HashOf(bytes[..|bytes| - 1]) * 31 + bytes[|bytes| - 1]) % WORD
  }

  function HexDigit(d: int): char
    requires 0 <= d < 16
  {
    "0123456789abcdef"[d]
  }

  /** Fixed-width lower-case hexadecimal. */
  function Hex(n: int, width: nat): (s: string)
    requires n >= 0
    ensures |s| == width
  {
    if width == 0 then "" else Hex(n / 16, width - 1) + [HexDigit(n % 16)]
  }

  function HashText(u: Upstream): string {
    Hex(HashOf(Bytes(Identity(u))), 8)
  }

  method UpstreamIdentityHash(u: Upstream) returns (text: string)
    ensures text == HashText(u) && |text| == 8
  {
    var identity := Bytes(Identity(u));
    var h, i := 0, 0;
    while i < |identity|
      invariant 0 <= i <= |identity| && h == HashOf(identity[..i])
    {
      assert identity[..i + 1][..i] == identity[..i];
      h := (h * 31 + identity[i]) % WORD;
      i := i + 1;
    }
    assert identity[..i] == identity;
    text := Hex(h, 8);
  }

  // ---------- host and port ----------

  function ShadowsocksHostPort(url: string): Result<string> {
    var trimmed := TrimSpace(url);
    var s := if HasPrefix(trimmed, "ss://") then trimmed[5..] else trimmed;
    var at := LastIndexOf(s, '@');
    if at == -1 then Err("cannot determine shadowsocks host:port from URL (legacy/base64 form)")
    else
      var addr := UpTo(s[at + 1..], {'#', '/', '?'});
      if SplitHostPort(addr).Err? then Err("invalid shadowsocks host:port") else Ok(addr)
  }

  function UpTo(s: string, stops: set<char>): string {
    if s == "" || s[0] in stops then "" else [s[0]] + UpTo(s[1..], stops)
  }

  function HostPortOf(u: Upstream): (string, string) {
    if u.kind.Shadowsocks? then
      var addr := ShadowsocksHostPort(u.url);
      if addr.Err? then ("ss", "0") else SplitHostPort(addr.value).value
    else
      var split := SplitHostPort(u.address);
      if split.Err? then (u.address, "0") else split.value
  }

  function Prefix(kind: Kind): string {
    match kind case Socks4 => "s4" case Direct => "dir" case Shadowsocks => "ss" case Socks5 => "s5"
  }

  predicate IsAlnum(c: char) {
    'a' <= c <= 'z' || 'A' <= c <= 'Z' || '0' <= c <= '9'
  }

  function Dashed(host: string): string {
    if host == "" then ""
    else Dashed(host[..|host| - 1]) + [if IsAlnum(host[|host| - 1]) then host[|host| - 1] else '-']
  }

  function Sanitized(host: string): string {
    Trim(Squeeze(Dashed(host)), DASH)
  }

  method SanitizeHostSegment(host: string) returns (s: string)
    ensures s == Sanitized(host)
  {
    var b, i := "", 0;
    while i < |host|
      invariant 0 <= i <= |host| && b == Dashed(host[..i])
    {
      assert host[..i + 1][..i] == host[..i];
      b := b + [if IsAlnum(host[i]) then host[i] else '-'];
      i := i + 1;
    }
    assert host[..i] == host;
    var collapsed := CollapseDashes(b);
    s := Trim(collapsed, DASH);
  }

  // ---------- the name ----------

  /** What is left of the host once the other parts have had their share of the 32 bytes. */
  function CutHost(u: Upstream): string {
    var (host, port) := HostPortOf(u);
    var room := MAX_NAME - |Prefix(u.kind)| - 3 - |Bytes(port)| - 8;
    var clean := Sanitized(host);
    Trim(if room < 0 then "" else if |clean| > room then clean[..room] else clean, DASH)
  }

  function NameOf(u: Upstream): string {
    Trim(Squeeze(Prefix(u.kind) + "-" + CutHost(u) + "-" + HostPortOf(u).1 + "-" + HashText(u)), DASH)
  }

  method GenerateBulkUpstreamName(u: Upstream) returns (name: string)
    ensures name == NameOf(u)
  {
    var prefix := Prefix(u.kind);
    var (host, port) := HostPortOf(u);
    var hash := UpstreamIdentityHash(u);
    var clean := SanitizeHostSegment(host);
    var room := MAX_NAME - |prefix| - 3 - |Bytes(port)| - |hash|;
    if room < 0 {
      room := 0;
    }
    if |clean| > room {
      clean := clean[..room];
    }
    clean := Trim(clean, DASH);
    var joined := prefix + "-" + clean + "-" + port + "-" + hash;
    var collapsed := CollapseDashes(joined);
    name := Trim(collapsed, DASH);
  }

  // ---------- what the name looks like ----------

  predicate Decimal(s: string) {
    s != "" && forall i | 0 <= i < |s| :: '0' <= s[i] <= '9'
  }

  lemma {:induction false} AsciiBytes(s: string)
    requires forall i | 0 <= i < |s| :: s[i] < '\U{80}'
    ensures |Bytes(s)| == |s|
  {
    if s != "" {
      AsciiBytes(s[..|s| - 1]);
    }
  }

  lemma {:induction false} HexHasNoDash(n: int, width: nat)
    requires n >= 0
    ensures '-' !in Hex(n, width)
  {
    if width > 0 {
      HexHasNoDash(n / 16, width - 1);
    }
  }

  lemma NoDashIsClean(s: string)
    requires '-' !in s
    ensures Clean(s)
  {
  }

  lemma CutHostIsClean(u: Upstream)
    ensures Clean(CutHost(u))
  {
    var clean := Sanitized(HostPortOf(u).0);
    var dashed := Squeeze(Dashed(HostPortOf(u).0));
    SqueezedHasNoDouble(Dashed(HostPortOf(u).0));
    assert dashed[..|dashed|] == dashed;
    CleanPrefix(dashed, |dashed|);
    var room := MAX_NAME - |Prefix(u.kind)| - 3 - |Bytes(HostPortOf(u).1)| - 8;
    var n := if room < 0 then 0 else if |clean| > room then room else |clean|;
    CleanPrefix(clean, n);
    assert clean[..|clean|] == clean;
  }

  // ---------- every name ----------

  lemma PrefixIsPlain(kind: Kind)
    ensures '-' !in Prefix(kind) && Ascii(Prefix(kind)) && 2 <= |Prefix(kind)| <= 3
  {
  }

  lemma {:induction false} SqueezedJoin(prefix: string, middle: string, hash: string)
    requires Clean(prefix) && '-' !in hash
    ensures Squeeze(prefix + (middle + hash)) == prefix + Squeeze(middle) + hash
  {
    SqueezeBehind(prefix, middle + hash);
    SqueezeBefore(middle, hash);
    assert prefix + (Squeeze(middle) + hash) == prefix + Squeeze(middle) + hash;
  }

  lemma {:induction false} Joined(prefix: string, middle: string, hash: string)
    requires prefix != "" && hash != "" && '-' !in prefix && '-' !in hash
    ensures Trim(Squeeze(prefix + (middle + hash)), DASH) == prefix + Squeeze(middle) + hash
    ensures Clean(prefix + Squeeze(middle) + hash)
  {
    NoDashIsClean(prefix);
    SqueezedJoin(prefix, middle, hash);
    SqueezedHasNoDouble(prefix + (middle + hash));
    TightBetween(prefix, Squeeze(middle), hash);
    TrimOfTight(prefix + Squeeze(middle) + hash);
  }

  lemma Regrouped5(prefix: string, host: string, port: string, hash: string)
    ensures prefix + "-" + host + "-" + port + "-" + hash == prefix + (("-" + host + "-" + port + "-") + hash)
  {
  }

  /** What stands between prefix and hash before collapsing. */
  function Middle(host: string, port: string): string {
    "-" + host + "-" + port + "-"
  }

  /** Whatever the port text is: collapsing only touches what lies between prefix and hash,
      trimming touches nothing, and no double and no outer dash is left. */
  lemma NameShape(u: Upstream)
    ensures NameOf(u) == Prefix(u.kind) + Squeeze(Middle(CutHost(u), HostPortOf(u).1)) + HashText(u)
    ensures Clean(NameOf(u))
  {
    PrefixIsPlain(u.kind);
    HexHasNoDash(HashOf(Bytes(Identity(u))), 8);
    Regrouped5(Prefix(u.kind), CutHost(u), HostPortOf(u).1, HashText(u));
    Joined(Prefix(u.kind), Middle(CutHost(u), HostPortOf(u).1), HashText(u));
  }

  lemma TightBetween(a: string, m: string, b: string)
    requires a != "" && b != "" && '-' !in a && '-' !in b
    ensures Tight(a + m + b, DASH)
  {
    assert (a + m + b)[0] == a[0] && (a + m + b)[|a + m + b| - 1] == b[|b| - 1];
  }

  /** Every name ends with a dash and the identity hash. */
  lemma NameEnds(u: Upstream)
    ensures EndsWith(NameOf(u), "-" + HashText(u))
  {
    var middle := Middle(CutHost(u), HostPortOf(u).1);
    NameShape(u);
    SqueezeKeepsLast(middle);
    EndsAfterDash(Prefix(u.kind), Squeeze(middle), HashText(u));
  }

  lemma EndsAfterDash(head: string, mid: string, end: string)
    requires mid != "" && mid[|mid| - 1] == '-'
    ensures EndsWith(head + mid + end, "-" + end)
  {
    assert mid == mid[..|mid| - 1] + "-";
    assert head + mid + end == (head + mid[..|mid| - 1]) + ("-" + end);
  }

  predicate Ascii(s: string) {
    forall c | c in s :: c < '\U{80}'
  }

  lemma {:induction false} DashedIsAscii(host: string)
    ensures Ascii(Dashed(host))
  {
    if host != "" {
      DashedIsAscii(host[..|host| - 1]);
    }
  }

  lemma TrimIsAscii(s: string)
    requires Ascii(s)
    ensures Ascii(Trim(s, DASH)) && |Trim(s, DASH)| <= |s|
  {
    var left, right := TrimSplits(s, DASH);
    assert forall c | c in Trim(s, DASH) :: c in s;
  }

  lemma {:induction false} HexIsAscii(n: int, width: nat)
    requires n >= 0
    ensures Ascii(Hex(n, width))
  {
    if width > 0 {
      HexIsAscii(n / 16, width - 1);
    }
  }

  function Room(u: Upstream): int {
    MAX_NAME - |Prefix(u.kind)| - 3 - |Bytes(HostPortOf(u).1)| - 8
  }

  lemma CutHostFits(u: Upstream)
    ensures Ascii(CutHost(u)) && |CutHost(u)| <= if Room(u) < 0 then 0 else Room(u)
  {
    var host := HostPortOf(u).0;
    DashedIsAscii(host);
    SqueezeOnlyDrops(Dashed(host));
    TrimIsAscii(Squeeze(Dashed(host)));
    var clean := Sanitized(host);
    var cut := if Room(u) < 0 then "" else if |clean| > Room(u) then clean[..Room(u)] else clean;
    assert forall c | c in cut :: c in clean;
    TrimIsAscii(cut);
  }

  lemma {:induction false} SqueezedBytes(s: string)
    ensures |Bytes(Squeeze(s))| <= |Bytes(s)|
  {
    if |s| >= 2 {
      var rest := s[1..];
      SqueezedBytes(rest);
      assert s == [s[0]] + rest;
      BytesOfSum([s[0]], rest);
      BytesOfSum([s[0]], Squeeze(rest));
    }
  }

  lemma {:induction false} PlainBytes(s: string)
    requires Ascii(s)
    ensures |Bytes(s)| == |s|
  {
    assert forall i | 0 <= i < |s| :: s[i] in s;
    AsciiBytes(s);
  }

  lemma {:induction false} BytesOfThree(a: string, b: string, c: string)
    ensures |Bytes(a + b + c)| == |Bytes(a)| + |Bytes(b)| + |Bytes(c)|
  {
    BytesOfSum(a + b, c);
    BytesOfSum(a, b);
  }

  lemma NameBytes(u: Upstream)
    ensures |Bytes(NameOf(u))| == |Prefix(u.kind)| + |Bytes(Squeeze(Middle(CutHost(u), HostPortOf(u).1)))| + 8
  {
    NameShape(u);
    PrefixIsPlain(u.kind);
    PlainBytes(Prefix(u.kind));
    HexIsAscii(HashOf(Bytes(Identity(u))), 8);
    PlainBytes(HashText(u));
    BytesOfThree(Prefix(u.kind), Squeeze(Middle(CutHost(u), HostPortOf(u).1)), HashText(u));
  }

  /** The port between two dashes, collapsed. */
  function PortPart(port: string): string {
    Squeeze("-" + port + "-")
  }

  lemma {:induction false} BetweenDashes(s: string)
    ensures |Bytes("-" + s + "-")| == |Bytes(s)| + 2
  {
    PlainBytes("-");
    BytesOfThree("-", s, "-");
  }

  lemma {:induction false} MiddleBytes(host: string, port: string)
    requires Ascii(host)
    ensures |Bytes(Squeeze(Middle(host, port)))| <= |host| + |Bytes(port)| + 3
  {
    PlainBytes(host);
    PlainBytes("-");
    BytesOfThree(host, "-", port);
    assert Middle(host, port) == "-" + (host + "-" + port) + "-";
    BetweenDashes(host + "-" + port);
    SqueezedBytes(Middle(host, port));
  }

  lemma {:induction false} PortPartBytes(port: string)
    ensures |Bytes(PortPart(port))| <= |Bytes(port)| + 2
  {
    BetweenDashes(port);
    SqueezedBytes("-" + port + "-");
  }

  lemma MiddleWithoutHost(port: string)
    ensures Squeeze(Middle("", port)) == PortPart(port)
  {
    assert Middle("", port) == ['-'] + ("-" + port + "-");
    SqueezeStart('-', "-" + port + "-");
  }

  /** The 32-byte promise, for every upstream: it holds if and only if prefix and squeezed port,
      with a dash on each side, leave room for the hash. */
  lemma NameFits(u: Upstream)
    ensures |Bytes(NameOf(u))| <= MAX_NAME <==>
            |Prefix(u.kind)| + |Bytes(PortPart(HostPortOf(u).1))| <= 24
  {
    NameBytes(u);
    CutHostFits(u);
    MiddleBytes(CutHost(u), HostPortOf(u).1);
    PortPartBytes(HostPortOf(u).1);
    if Room(u) < 0 {
      assert CutHost(u) == "";
      MiddleWithoutHost(HostPortOf(u).1);
    }
  }

  // ---------- decimal ports ----------

  /** For a decimal port the collapsing and trimming only ever drop an empty host. */
  lemma DecimalNameShape(u: Upstream)
    requires Decimal(HostPortOf(u).1)
    ensures NameOf(u) == Prefix(u.kind) + "-" + (if CutHost(u) == "" then "" else CutHost(u) + "-")
                         + HostPortOf(u).1 + "-" + HashText(u)
    ensures Clean(NameOf(u))
  {
    var prefix, host, port, hash := Prefix(u.kind), CutHost(u), HostPortOf(u).1, HashText(u);
    CutHostIsClean(u);
    HexHasNoDash(HashOf(Bytes(Identity(u))), 8);
    PrefixIsPlain(u.kind);
    PartsJoin(prefix, host, port, hash);
  }

  lemma PartsJoin(prefix: string, host: string, port: string, hash: string)
    requires prefix != "" && port != "" && hash != "" && Clean(host)
    requires '-' !in prefix && '-' !in port && '-' !in hash
    ensures var name := prefix + "-" + (if host == "" then "" else host + "-") + port + "-" + hash;
      Trim(Squeeze(prefix + "-" + host + "-" + port + "-" + hash), DASH) == name && Clean(name)
  {
    NoDashIsClean(prefix);
    NoDashIsClean(port);
    NoDashIsClean(hash);
    CleanJoin(port, hash);
    if host == "" {
      EmptyHostName(prefix, port, hash);
    } else {
      FullName(prefix, host, port, hash);
    }
  }

  lemma EmptyHostName(prefix: string, port: string, hash: string)
    requires Clean(prefix) && prefix != "" && Clean(port + "-" + hash)
    ensures var full := prefix + "-" + "" + "-" + port + "-" + hash;
      Trim(Squeeze(full), DASH) == prefix + "-" + "" + port + "-" + hash && Clean(prefix + "-" + "" + port + "-" + hash)
  {
    var tail := port + "-" + hash;
    CleanJoin(prefix, tail);
    EmptyPieceVanishes(prefix, tail);
    assert prefix + "-" + "" + "-" + port + "-" + hash == prefix + "-" + "" + "-" + tail;
    assert prefix + "-" + "" + port + "-" + hash == prefix + "-" + tail;
    TrimOfTight(prefix + "-" + tail);
  }

  lemma FullName(prefix: string, host: string, port: string, hash: string)
    requires Clean(prefix) && prefix != "" && Clean(host) && host != "" && Clean(port + "-" + hash)
    ensures var full := prefix + "-" + host + "-" + port + "-" + hash;
      Trim(Squeeze(full), DASH) == prefix + "-" + (host + "-") + port + "-" + hash && Clean(full) && full == prefix + "-" + (host + "-") + port + "-" + hash
  {
    var tail := port + "-" + hash;
    CleanJoin(prefix, host);
    CleanJoin(prefix + "-" + host, tail);
    var full := prefix + "-" + host + "-" + tail;
    assert prefix + "-" + host + "-" + port + "-" + hash == full;
    assert prefix + "-" + (host + "-") + port + "-" + hash == full;
    CleanStays(full);
  }

  predicate EndsWith(s: string, end: string) {
    |end| <= |s| && s[|s| - |end|..] == end
  }

  /** For a decimal port, prefix and port may have 22 characters together: enough for every
      port of at most 18 digits, whatever the prefix. */
  lemma DecimalNameFits(u: Upstream)
    requires Decimal(HostPortOf(u).1)
    ensures |Bytes(NameOf(u))| <= MAX_NAME <==> |Prefix(u.kind)| + |HostPortOf(u).1| <= 22
    ensures |HostPortOf(u).1| <= 18 ==> |Bytes(NameOf(u))| <= MAX_NAME
  {
    var port := HostPortOf(u).1;
    NameFits(u);
    PrefixIsPlain(u.kind);
    SqueezeOfSqueezed("-" + port + "-");
    BetweenDashes(port);
    PlainBytes(port);
  }

  // ---------- when names differ ----------

  function Pow16(width: nat): (p: int)
    ensures p >= 1
  {
    if width == 0 then 1 else 16 * Pow16(width - 1)
  }

  lemma HexEnds(n: int, width: nat)
    requires n >= 0 && width > 0
    ensures Hex(n, width)[..width - 1] == Hex(n / 16, width - 1) && Hex(n, width)[width - 1] == HexDigit(n % 16)
  {
  }

  /** A number that fits its width is determined by its digits. */
  lemma {:induction false} HexInjective(m: int, n: int, width: nat)
    requires 0 <= m < Pow16(width) && 0 <= n < Pow16(width) && Hex(m, width) == Hex(n, width)
    ensures m == n
  {
    if width > 0 {
      HexEnds(m, width);
      HexEnds(n, width);
      HexInjective(m / 16, n / 16, width - 1);
      DigitInjective(m % 16, n % 16);
    }
  }

  lemma DigitInjective(a: int, b: int)
    requires 0 <= a < 16 && 0 <= b < 16 && HexDigit(a) == HexDigit(b)
    ensures a == b
  {
  }

  lemma PowEight()
    ensures Pow16(8) == WORD
  {
    assert Pow16(4) == 0x1_0000;
    assert Pow16(6) == 0x100_0000;
  }

  predicate SameHash(u: Upstream, v: Upstream) {
    HashOf(Bytes(Identity(u))) == HashOf(Bytes(Identity(v)))
  }

  lemma SameEnds(s: string, x: string, y: string)
    requires EndsWith(s, "-" + x) && EndsWith(s, "-" + y) && |x| == |y|
    ensures x == y
  {
    assert ("-" + x)[1..] == x && ("-" + y)[1..] == y;
  }

  lemma SameNameSameHash(u: Upstream, v: Upstream)
    requires NameOf(u) == NameOf(v)
    ensures SameHash(u, v)
  {
    NameEnds(u);
    NameEnds(v);
    SameEnds(NameOf(u), HashText(u), HashText(v));
    PowEight();
    HexInjective(HashOf(Bytes(Identity(u))), HashOf(Bytes(Identity(v))), 8);
  }

  lemma SameHashSameName(u: Upstream, v: Upstream)
    requires u.kind == v.kind && HostPortOf(u) == HostPortOf(v) && SameHash(u, v)
    ensures NameOf(u) == NameOf(v)
  {
  }

  /** Two upstreams of one kind at one host and port get one name exactly when their 32-bit
      hashes agree; in general a shared name means a shared hash. */
  lemma SameNameIffSameHash(u: Upstream, v: Upstream)
    ensures NameOf(u) == NameOf(v) ==> SameHash(u, v)
    ensures u.kind == v.kind && HostPortOf(u) == HostPortOf(v) ==> (NameOf(u) == NameOf(v) <==> SameHash(u, v))
  {
    if NameOf(u) == NameOf(v) {
      SameNameSameHash(u, v);
    } else if u.kind == v.kind && HostPortOf(u) == HostPortOf(v) && SameHash(u, v) {
      SameHashSameName(u, v);
    }
  }

  predicate NulFree(u: Upstream) {
    '\0' !in u.address && '\0' !in u.username && '\0' !in u.password && '\0' !in u.iface && '\0' !in u.url
  }

  lemma KindTextInjective(k: Kind, l: Kind)
    requires KindText(k) == KindText(l)
    ensures k == l
  {
    assert |KindText(k)| == if k.Shadowsocks? then 11 else 6;
    assert !k.Shadowsocks? ==> KindText(k)[5] == match k case Direct => 't' case Socks5 => '5' case _ => '4';
    assert !l.Shadowsocks? ==> KindText(l)[5] == match l case Direct => 't' case Socks5 => '5' case _ => '4';
  }

  lemma PartsDetermine(u: Upstream, v: Upstream)
    requires IdentityParts(u) == IdentityParts(v)
    ensures u.(weight := v.weight) == v
  {
    var p, q := IdentityParts(u), IdentityParts(v);
    KindTextInjective(u.kind, v.kind) by { assert p[0] == q[0]; }
    assert p[1] == q[1] && p[2] == q[2] && p[3] == q[3] && p[4] == q[4];
    assert |p| == |q| && (|p| == 6 ==> p[5] == q[5]);
  }

  lemma PartsAreNulFree(u: Upstream)
    requires NulFree(u)
    ensures forall part | part in IdentityParts(u) :: '\0' !in part
  {
    assert '\0' !in KindText(u.kind);
  }

  /** Before hashing nothing but the weight is lost: NUL-free upstreams that differ otherwise
      have different identities. */
  lemma IdentityDetermines(u: Upstream, v: Upstream)
    requires NulFree(u) && NulFree(v) && Identity(u) == Identity(v)
    ensures u.(weight := v.weight) == v
  {
    PartsAreNulFree(u);
    PartsAreNulFree(v);
    SplitJoin(IdentityParts(u), '\0');
    SplitJoin(IdentityParts(v), '\0');
    PartsDetermine(u, v);
  }

  // ---------- different credentials, one name ----------

  lemma {:induction false} BytesOne(s: string, c: char)
    ensures Bytes(s + [c]) == Bytes(s) + Utf8(c)
  {
    assert (s + [c])[..|s|] == s;
  }

  lemma Regrouped(a: seq<int>, b: seq<int>, c: seq<int>)
    ensures a + b + c == a + (b + c)
  {
  }

  lemma {:induction false} BytesOfSumStep(a: string, init: string, c: char)
    requires Bytes(a + init) == Bytes(a) + Bytes(init)
    ensures Bytes(a + (init + [c])) == Bytes(a) + Bytes(init + [c])
  {
    BytesOne(a + init, c);
    BytesOne(init, c);
    assert a + (init + [c]) == (a + init) + [c];
    Regrouped(Bytes(a), Bytes(init), Utf8(c));
  }

  lemma {:induction false} BytesOfNone(a: string)
    ensures Bytes(a + "") == Bytes(a) + Bytes("")
  {
    assert a + "" == a;
  }

  lemma {:induction false} BytesOfSum(a: string, b: string)
    ensures Bytes(a + b) == Bytes(a) + Bytes(b)
  {
    if b == "" {
      BytesOfNone(a);
    } else {
      var init, c := b[..|b| - 1], b[|b| - 1];
      assert b == init + [c];
      BytesOfSum(a, init);
      BytesOfSumStep(a, init, c);
    }
  }

  lemma {:induction false} HashOfSum(a: seq<int>, a': seq<int>, b: seq<int>)
    requires HashOf(a) == HashOf(a')
    ensures HashOf(a + b) == HashOf(a' + b)
  {
    if b == [] {
      assert a + b == a && a' + b == a';
    } else {
      var init := b[..|b| - 1];
      HashOfSum(a, a', init);
      assert (a + b)[..|a + b| - 1] == a + init && (a' + b)[..|a' + b| - 1] == a' + init;
    }
  }

  lemma {:induction false} HashTwo(a: seq<int>, x: int, y: int)
    ensures HashOf(a + [x, y]) == (HashOf(a) * 961 + 31 * x + y) % WORD
  {
    assert (a + [x, y])[..|a| + 1] == a + [x] && (a + [x])[..|a|] == a;
    var h := HashOf(a) * 31 + x;
    var q := h / WORD;
    assert h % WORD == h - q * WORD;
    assert (h % WORD) * 31 + y == h * 31 + y - (31 * q) * WORD;
    ModShift(h * 31 + y, 31 * q);
  }

  lemma ModShift(n: int, k: int)
    ensures (n - k * WORD) % WORD == n % WORD
  {
  }

  function IdentityTail(u: Upstream): string {
    Join([u.password, u.iface] + if u.url != "" then [u.url] else [], '\0')
  }

  lemma {:induction false} JoinMore(part: string, rest: seq<string>, sep: char)
    requires rest != []
    ensures Join([part] + rest, sep) == part + [sep] + Join(rest, sep)
  {
    assert ([part] + rest)[1..] == rest;
  }

  lemma IdentityAround(u: Upstream)
    ensures Identity(u) == (KindText(u.kind) + ['\0'] + u.address + ['\0']) + u.username + (['\0'] + IdentityTail(u))
  {
    var last := [u.password, u.iface] + if u.url != "" then [u.url] else [];
    JoinMore(u.username, last, '\0');
    JoinMore(u.address, [u.username] + last, '\0');
    JoinMore(KindText(u.kind), [u.address] + ([u.username] + last), '\0');
    assert IdentityParts(u) == [KindText(u.kind)] + ([u.address] + ([u.username] + last));
  }

  /** The promise that different credentials give different names fails: replacing "Aa" by
      "BB" anywhere in the user name changes neither the hash nor the name. */
  lemma CredentialsCanCollide(u: Upstream, x: string, y: string)
    ensures var v, w := u.(username := x + "Aa" + y), u.(username := x + "BB" + y);
      v != w && SameHash(v, w) && NameOf(v) == NameOf(w)
  {
    var v, w := u.(username := x + "Aa" + y), u.(username := x + "BB" + y);
    assert v != w by { assert v.username[|x|] == 'A' && w.username[|x|] == 'B'; }
    SameHashOfPair(v, w, x, y);
    SameHashSameName(v, w);
  }

  lemma SameHashOfPair(v: Upstream, w: Upstream, x: string, y: string)
    requires v.username == x + "Aa" + y && w == v.(username := x + "BB" + y)
    ensures SameHash(v, w)
  {
    var front, back := KindText(v.kind) + ['\0'] + v.address + ['\0'], ['\0'] + IdentityTail(v);
    IdentityAround(v);
    IdentityAround(w);
    Regroup(front, x, "Aa", y, back);
    Regroup(front, x, "BB", y, back);
    CollidingBytes(front + x, y + back);
  }

  lemma Regroup(front: string, x: string, mid: string, y: string, back: string)
    ensures front + (x + mid + y) + back == front + x + mid + (y + back)
  {
  }

  lemma {:induction false} TwoBytes(head: string, a: char, b: char)
    requires a < '\U{80}' && b < '\U{80}'
    ensures Bytes(head + [a, b]) == Bytes(head) + [a as int, b as int]
  {
    BytesOne(head, a);
    BytesOne(head + [a], b);
    assert head + [a] + [b] == head + [a, b];
  }

  lemma {:induction false} CollidingPair(head: string)
    ensures HashOf(Bytes(head + "Aa")) == HashOf(Bytes(head + "BB"))
  {
    TwoBytes(head, 'A', 'a');
    TwoBytes(head, 'B', 'B');
    HashTwo(Bytes(head), 65, 97);
    HashTwo(Bytes(head), 66, 66);
  }

  lemma {:induction false} CollidingBytes(head: string, tail: string)
    ensures HashOf(Bytes(head + "Aa" + tail)) == HashOf(Bytes(head + "BB" + tail))
  {
    CollidingPair(head);
    BytesOfSum(head + "Aa", tail);
    BytesOfSum(head + "BB", tail);
    HashOfSum(Bytes(head + "Aa"), Bytes(head + "BB"), Bytes(tail));
  }
}
