/**
 The proxy-line parser.  `Line` is the grammar it is meant to accept: three notations for
 credentials, an optional scheme, or a whole ss:// URL, with white space around.  The two
 main lemmas say that the parser accepts exactly the printed lines and returns exactly what
 they mean.
 */
module ProxyLine {
  import opened Common
  import opened UpstreamTypes
  import opened Text
  import opened HostPort

  datatype Scheme = Bare | Socks5Scheme | Socks4Scheme

  const SS := "ss://"
  const SOCKS5 := "socks5://"
  const SOCKS4 := "socks4://"
  const DEFAULT_WEIGHT := 10

  // ---------- the parser ----------

  function ParseProxyLine(line: string): Result<Upstream> {
    ParseTrimmed(TrimSpace(line))
  }

  function ParseTrimmed(line: string): Result<Upstream> {
    if line == "" then Err("empty line")
    else if HasPrefix(line, SS) then Ok(Upstream(Shadowsocks, "", "", "", line, DEFAULT_WEIGHT, ""))
    else if HasPrefix(line, SOCKS5) then ParseBody(Socks5, line[|SOCKS5|..])
    else if HasPrefix(line, SOCKS4) then ParseBody(Socks4, line[|SOCKS4|..])
    else ParseBody(Socks5, line)
  }

  /** What follows the scheme, then the check of the address. */
  function ParseBody(kind: Kind, line: string): Result<Upstream> {
    var parsed := ParseFields(line);
    if parsed.Err? then Err(parsed.error)
    else
      var f := parsed.value;
      if f.address == "" then Err("missing address")
      else if SplitHostPort(f.address).Err? then Err("invalid host:port address: " + f.address)
      else Ok(Upstream(kind, f.address, f.username, f.password, "", DEFAULT_WEIGHT, ""))
  }

  datatype Fields = Fields(address: string, username: string, password: string)

  function ParseFields(line: string): Result<Fields> {
    var idx := LastIndexOf(line, '@');
    if idx != -1 then
      var creds, addr := line[..idx], line[idx + 1..];
      var c := IndexOf(creds, ':');
      if c != -1 then Ok(Fields(addr, creds[..c], creds[c + 1..])) else Ok(Fields(addr, creds, ""))
    else if HasPrefix(line, "[") then ParseBracketedIPv6Line(line)
    else ParseColonFormLine(line)
  }

  function ParseBracketedIPv6Line(line: string): Result<Fields> {
    var end := IndexOf(line, ']');
    if end == -1 then Err("invalid IPv6 proxy format (missing ']'): " + line)
    else
      var host, tail := line[..end + 1], line[end + 1..];
      var rest := if HasPrefix(tail, ":") then tail[1..] else tail;
      var parts := SplitN(rest, ':', 3);
      if parts[0] == "" then Err("invalid IPv6 proxy format (missing port): " + line)
      else Ok(Fields(host + ":" + parts[0],
                     if |parts| >= 2 then parts[1] else "",
                     if |parts| >= 3 then parts[2] else ""))
  }

  function ParseColonFormLine(line: string): Result<Fields> {
    var parts := Split(line, ':');
    if |parts| >= 4 then Ok(Fields(parts[0] + ":" + parts[1], parts[2], Join(parts[3..], ':')))
    else if |parts| == 3 then Ok(Fields(parts[0] + ":" + parts[1], parts[2], ""))
    else if |parts| == 2 then Ok(Fields(line, "", ""))
    else Err("invalid proxy format: " + line)
  }

  // ---------- the grammar ----------

  datatype Creds = NoCreds | User(user: string) | UserPass(user: string, pass: string)

  datatype Notation =
    | AtForm(creds: Creds, address: string)                              // user:pass@address
    | BracketForm(host: string, colon: bool, port: string, creds: Creds) // [host]:port:user:pass
    | ColonForm(host: string, port: string, creds: Creds)                // host:port:user:pass

  function Suffix(creds: Creds): string {
    match creds
    case NoCreds => ""
    case User(user) => ":" + user
    case UserPass(user, pass) => ":" + user + ":" + pass
  }

  function Print(n: Notation): string {
    match n
    case AtForm(User(user), address) => user + "@" + address
    case AtForm(UserPass(user, pass), address) => user + ":" + pass + "@" + address
    case AtForm(NoCreds, address) => "@" + address
    case BracketForm(host, colon, port, creds) => "[" + host + "]" + (if colon then ":" else "") + port + Suffix(creds)
    case ColonForm(host, port, creds) => host + ":" + port + Suffix(creds)
  }

  function Meaning(n: Notation): Fields {
    var address :=
      match n
      case AtForm(_, address) => address
      case BracketForm(host, _, port, _) => "[" + host + "]" + ":" + port
      case ColonForm(host, port, _) => host + ":" + port;
    Fields(address, if n.creds.NoCreds? then "" else n.creds.user, if n.creds.UserPass? then n.creds.pass else "")
  }

  predicate PlainCreds(creds: Creds) {
    && (!creds.NoCreds? ==> ':' !in creds.user && '@' !in creds.user)
    && (creds.UserPass? ==> '@' !in creds.pass)
  }

  /** The side conditions: what each notation cannot carry. */
  predicate WellFormed(n: Notation) {
    match n
    case AtForm(creds, address) =>
      '@' !in address && !creds.NoCreds? && ':' !in creds.user
    case BracketForm(host, colon, port, creds) =>
      && ']' !in host && '@' !in host && ':' !in port && '@' !in port && port != ""
      && PlainCreds(creds)
    case ColonForm(host, port, creds) =>
      && ':' !in host && '@' !in host && ':' !in port && '@' !in port
      && !HasPrefix(host, "[") && PlainCreds(creds)
  }

  // ---------- printing, then parsing ----------

  lemma AtFormParses(n: Notation)
    requires n.AtForm? && WellFormed(n)
    ensures ParseFields(Print(n)) == Ok(Meaning(n))
  {
    var creds := if n.creds.User? then n.creds.user else n.creds.user + ":" + n.creds.pass;
    assert Print(n) == creds + "@" + n.address;
    LastIndexOfIs(Print(n), '@', creds, n.address);
    if n.creds.UserPass? {
      IndexOfIs(creds, ':', n.creds.user, n.creds.pass);
    }
  }

  lemma Associate(a: string, b: string, c: string)
    ensures a + b + c == a + (b + c)
  {
  }

  lemma SuffixOfPass(user: string, pass: string)
    ensures Suffix(UserPass(user, pass)) == ":" + (user + ":" + pass)
  {
    Associate(":", user, ":");
    Associate(":", user + ":", pass);
  }

  function PartsOf(creds: Creds): seq<string> {
    match creds
    case NoCreds => []
    case User(user) => [user]
    case UserPass(user, pass) => [user] + Split(pass, ':')
  }

  lemma {:induction false} SplitOnceMore(port: string, after: string)
    requires ':' !in port
    ensures Split(port + (":" + after), ':') == [port] + Split(after, ':')
    ensures SplitN(port + (":" + after), ':', 3) == [port] + SplitN(after, ':', 2)
  {
    Associate(port, ":", after);
    SplitOnce(port + (":" + after), ':', port, after);
  }

  lemma {:induction false} SplitUserPass(user: string, pass: string)
    requires ':' !in user
    ensures Split(user + ":" + pass, ':') == [user] + Split(pass, ':')
    ensures SplitN(user + ":" + pass, ':', 2) == [user, pass]
  {
    SplitOnce(user + ":" + pass, ':', user, pass);
    assert SplitN(pass, ':', 1) == [pass];
  }

  /** How `port` and a credentials suffix split. */
  lemma {:induction false} SuffixSplits(port: string, creds: Creds)
    requires ':' !in port && (!creds.NoCreds? ==> ':' !in creds.user)
    ensures Split(port + Suffix(creds), ':') == [port] + PartsOf(creds)
    ensures SplitN(port + Suffix(creds), ':', 3) == [port] + if creds.UserPass? then [creds.user, creds.pass] else PartsOf(creds)
  {
    match creds
    case NoCreds =>
      assert port + "" == port;
    case User(user) =>
      SplitOnceMore(port, user);
    case UserPass(user, pass) =>
      SuffixOfPass(user, pass);
      SplitOnceMore(port, user + ":" + pass);
      SplitUserPass(user, pass);
  }

  /** Dropping the optional colon before a port. */
  lemma ColonDropped(colon: bool, body: string)
    requires body != "" && body[0] != ':'
    ensures var tail := (if colon then ":" else "") + body;
      (if HasPrefix(tail, ":") then tail[1..] else tail) == body
  {
    if colon {
      assert (":" + body)[1..] == body;
    } else {
      assert "" + body == body;
      assert body[..1] == [body[0]];
    }
  }

  lemma BracketLine(host: string, tail: string)
    requires ']' !in host
    ensures var line := "[" + host + "]" + tail;
      IndexOf(line, ']') == |host| + 1 && line[..|host| + 2] == "[" + host + "]" && line[|host| + 2..] == tail
      && HasPrefix(line, "[")
  {
    IndexOfIs("[" + host + "]" + tail, ']', "[" + host, tail);
  }

  lemma {:induction false} BracketTail(host: string, tail: string, rest: string)
    requires ']' !in host && rest == if HasPrefix(tail, ":") then tail[1..] else tail
    ensures var parts := SplitN(rest, ':', 3);
      parts[0] != "" ==>
        ParseBracketedIPv6Line("[" + host + "]" + tail) ==
        Ok(Fields("[" + host + "]" + ":" + parts[0], if |parts| >= 2 then parts[1] else "", if |parts| >= 3 then parts[2] else ""))
  {
    BracketLine(host, tail);
  }

  lemma BracketBodyParses(n: Notation)
    requires n.BracketForm? && WellFormed(n)
    ensures var tail := (if n.colon then ":" else "") + (n.port + Suffix(n.creds));
      ParseBracketedIPv6Line("[" + n.host + "]" + tail) == Ok(Meaning(n))
  {
    var body := n.port + Suffix(n.creds);
    assert body[0] == n.port[0];
    ColonDropped(n.colon, body);
    SuffixSplits(n.port, n.creds);
    BracketTail(n.host, (if n.colon then ":" else "") + body, body);
  }

  lemma BracketFormParses(n: Notation)
    requires n.BracketForm? && WellFormed(n)
    ensures ParseFields(Print(n)) == Ok(Meaning(n))
  {
    PrintBracket(n);
    NoAtInside(n);
    BracketLine(n.host, (if n.colon then ":" else "") + (n.port + Suffix(n.creds)));
    BracketBodyParses(n);
    BracketedFields(Print(n));
  }

  lemma BracketedFields(line: string)
    requires '@' !in line && HasPrefix(line, "[")
    ensures ParseFields(line) == ParseBracketedIPv6Line(line)
  {
  }

  lemma ColonFields(line: string)
    requires '@' !in line && !HasPrefix(line, "[")
    ensures ParseFields(line) == ParseColonFormLine(line)
  {
  }

  lemma PrintBracket(n: Notation)
    requires n.BracketForm?
    ensures Print(n) == "[" + n.host + "]" + ((if n.colon then ":" else "") + (n.port + Suffix(n.creds)))
  {
    var head, colon := "[" + n.host + "]", if n.colon then ":" else "";
    Associate(head + colon, n.port, Suffix(n.creds));
    Associate(head, colon, n.port + Suffix(n.creds));
  }

  lemma NoAtInSuffix(creds: Creds)
    requires PlainCreds(creds)
    ensures '@' !in Suffix(creds)
  {
  }

  lemma NoAtInside(n: Notation)
    requires !n.AtForm? && WellFormed(n)
    ensures '@' !in Print(n)
  {
    NoAtInSuffix(n.creds);
  }

  lemma {:induction false} ColonParts(line: string, host: string, port: string, creds: Creds)
    requires Split(line, ':') == [host] + ([port] + PartsOf(creds))
    requires creds.NoCreds? ==> line == host + ":" + port
    ensures ParseColonFormLine(line) == Ok(Meaning(ColonForm(host, port, creds)))
  {
    if creds.UserPass? {
      PartsWithPass(line, host, port, creds.user, creds.pass);
    }
  }

  lemma {:induction false} PartsWithPass(line: string, host: string, port: string, user: string, pass: string)
    requires Split(line, ':') == [host] + ([port] + ([user] + Split(pass, ':')))
    ensures ParseColonFormLine(line) == Ok(Fields(host + ":" + port, user, pass))
  {
    var parts, rest := Split(line, ':'), Split(pass, ':');
    JoinSplit(pass, ':');
    assert parts == [host, port, user] + rest;
    assert parts[3..] == rest;
  }

  lemma ColonFormParses(n: Notation)
    requires n.ColonForm? && WellFormed(n)
    ensures ParseFields(Print(n)) == Ok(Meaning(n))
  {
    var line, body := Print(n), n.port + Suffix(n.creds);
    Associate(n.host + ":", n.port, Suffix(n.creds));
    NoAtInside(n);
    Associate(n.host, ":", body);
    NotBracketed(n.host, ":" + body);
    SplitOnce(line, ':', n.host, body);
    SuffixSplits(n.port, n.creds);
    if n.creds.NoCreds? { assert n.port + "" == n.port; }
    ColonParts(line, n.host, n.port, n.creds);
    ColonFields(line);
  }

  lemma NotBracketed(host: string, rest: string)
    requires !HasPrefix(host, "[") && HasPrefix(rest, ":")
    ensures !HasPrefix(host + rest, "[")
  {
    if host == "" {
      assert host + rest == rest;
    } else {
      assert host[..1] == [host[0]] && (host + rest)[..1] == [host[0]];
    }
  }

  lemma PrintedNotationParses(n: Notation)
    requires WellFormed(n)
    ensures ParseFields(Print(n)) == Ok(Meaning(n))
  {
    match n
    case AtForm(_, _) => AtFormParses(n);
    case BracketForm(_, _, _, _) => BracketFormParses(n);
    case ColonForm(_, _, _) => ColonFormParses(n);
  }

  // ---------- parsing, then printing ----------

  lemma {:induction false} CutLast(s: string, c: char)
    requires c in s
    ensures var i := LastIndexOf(s, c); s == s[..i] + [c] + s[i + 1..] && c !in s[i + 1..]
  {
  }

  lemma AtFormFound(line: string) returns (n: Notation)
    requires '@' in line
    ensures WellFormed(n) && Print(n) == line && ParseFields(line) == Ok(Meaning(n))
  {
    CutLast(line, '@');
    var idx := LastIndexOf(line, '@');
    var creds, addr := line[..idx], line[idx + 1..];
    if ':' in creds {
      Cut(creds, ':');
      var c := IndexOf(creds, ':');
      n := AtForm(UserPass(creds[..c], creds[c + 1..]), addr);
    } else {
      n := AtForm(User(creds), addr);
    }
  }

  lemma {:induction false} Cut(s: string, c: char)
    requires c in s
    ensures var i := IndexOf(s, c); s == s[..i] + [c] + s[i + 1..] && c !in s[..i]
  {
  }

  /** Any text is a port and a suffix of credentials. */
  lemma SuffixFound(rest: string) returns (port: string, creds: Creds)
    ensures rest == port + Suffix(creds) && ':' !in port
    ensures !creds.NoCreds? ==> ':' !in creds.user
  {
    if ':' !in rest {
      assert rest + "" == rest;
      return rest, NoCreds;
    }
    Cut(rest, ':');
    var i := IndexOf(rest, ':');
    port := rest[..i];
    var more := rest[i + 1..];
    Associate(port, ":", more);
    if ':' !in more {
      return port, User(more);
    }
    Cut(more, ':');
    var k := IndexOf(more, ':');
    creds := UserPass(more[..k], more[k + 1..]);
    SuffixOfPass(more[..k], more[k + 1..]);
  }

  lemma PlainSuffix(line: string, before: string, port: string, creds: Creds)
    requires line == before + (port + Suffix(creds)) && '@' !in line && (!creds.NoCreds? ==> ':' !in creds.user)
    ensures '@' !in before && '@' !in port && PlainCreds(creds)
  {
    assert '@' in Suffix(creds) ==> '@' in line;
    if !creds.NoCreds? {
      assert '@' in creds.user ==> '@' in Suffix(creds);
    }
    if creds.UserPass? {
      assert '@' in creds.pass ==> '@' in Suffix(creds);
    }
  }

  lemma BracketPieces(line: string) returns (host: string, tail: string)
    requires HasPrefix(line, "[") && ']' in line
    ensures line == "[" + host + "]" + tail && ']' !in host
    ensures host == line[1..IndexOf(line, ']')] && tail == line[IndexOf(line, ']') + 1..]
  {
    Cut(line, ']');
    var end := IndexOf(line, ']');
    assert line[0] == '[';
    host, tail := line[1..end], line[end + 1..];
    assert line[..end] == "[" + host;
  }

  lemma BracketFormFound(line: string) returns (n: Notation)
    requires '@' !in line && HasPrefix(line, "[") && ParseFields(line).Ok?
    ensures WellFormed(n) && Print(n) == line && ParseFields(line) == Ok(Meaning(n))
  {
    BracketedFields(line);
    var host, tail := BracketPieces(line);
    var colon := HasPrefix(tail, ":");
    var rest := if colon then tail[1..] else tail;
    assert tail == (if colon then ":" else "") + rest;
    var port, creds := SuffixFound(rest);
    SuffixSplits(port, creds);
    n := BracketForm(host, colon, port, creds);
    PrintBracket(n);
    Associate("[" + host + "]", if colon then ":" else "", rest);
    PlainSuffix(line, "[" + host + "]" + if colon then ":" else "", port, creds);
    BracketFormParses(n);
  }

  lemma ColonFormFound(line: string) returns (n: Notation)
    requires '@' !in line && !HasPrefix(line, "[") && ParseFields(line).Ok?
    ensures WellFormed(n) && Print(n) == line && ParseFields(line) == Ok(Meaning(n))
  {
    assert ':' in line;
    Cut(line, ':');
    var i := IndexOf(line, ':');
    var host, rest := line[..i], line[i + 1..];
    assert host != "" ==> host[..1] == line[..1];
    var port, creds := SuffixFound(rest);
    n := ColonForm(host, port, creds);
    Associate(host + ":", port, Suffix(creds));
    PlainSuffix(line, host + ":", port, creds);
    ColonFormParses(n);
  }

  lemma ParsedNotationPrints(line: string) returns (n: Notation)
    requires ParseFields(line).Ok?
    ensures WellFormed(n) && Print(n) == line && ParseFields(line) == Ok(Meaning(n))
  {
    if '@' in line {
      n := AtFormFound(line);
    } else if HasPrefix(line, "[") {
      n := BracketFormFound(line);
    } else {
      n := ColonFormFound(line);
    }
  }

  // ---------- whole lines ----------

  datatype Line = SsLine(url: string) | Proxy(scheme: Scheme, notation: Notation)

  function SchemeText(scheme: Scheme): string {
    match scheme case Bare => "" case Socks5Scheme => SOCKS5 case Socks4Scheme => SOCKS4
  }

  function PrintLine(l: Line): string {
    match l
    case SsLine(url) => url
    case Proxy(scheme, n) => SchemeText(scheme) + Print(n)
  }

  function MeaningLine(l: Line): Upstream {
    match l
    case SsLine(url) => Upstream(Shadowsocks, "", "", "", url, DEFAULT_WEIGHT, "")
    case Proxy(scheme, n) =>
      var f := Meaning(n);
      Upstream(if scheme.Socks4Scheme? then Socks4 else Socks5, f.address, f.username, f.password, "", DEFAULT_WEIGHT, "")
  }

  predicate NoScheme(s: string) {
    !HasPrefix(s, SS) && !HasPrefix(s, SOCKS5) && !HasPrefix(s, SOCKS4)
  }

  ghost predicate Splits(address: string) {
    exists host, port :: IsHostPort(address, host, port)
  }

  ghost predicate WellFormedLine(l: Line) {
    && Tight(PrintLine(l), SPACES)
    && match l
       case SsLine(url) => HasPrefix(url, SS)
       case Proxy(scheme, n) =>
         && WellFormed(n)
         && Splits(Meaning(n).address)
         && (scheme.Bare? ==> NoScheme(Print(n)))
  }

  lemma BodyParses(kind: Kind, n: Notation)
    requires WellFormed(n) && Splits(Meaning(n).address)
    ensures var f := Meaning(n);
      ParseBody(kind, Print(n)) == Ok(Upstream(kind, f.address, f.username, f.password, "", DEFAULT_WEIGHT, ""))
  {
    PrintedNotationParses(n);
    var host, port :| IsHostPort(Meaning(n).address, host, port);
    SplitHostPortIff(Meaning(n).address, host, port);
  }

  lemma PrefixOfSum(prefix: string, rest: string)
    ensures HasPrefix(prefix + rest, prefix) && (prefix + rest)[|prefix|..] == rest
  {
  }

  lemma SchemesDiffer(rest: string)
    ensures !HasPrefix(SOCKS5 + rest, SS) && !HasPrefix(SOCKS4 + rest, SS) && !HasPrefix(SOCKS4 + rest, SOCKS5)
  {
    assert SS[1] == 's' && SOCKS5[1] == 'o' && SOCKS4[1] == 'o';
    assert (SOCKS5 + rest)[1] == 'o' && (SOCKS4 + rest)[1] == 'o';
    assert SOCKS5[5] == '5' && (SOCKS4 + rest)[5] == '4';
  }

  /** Every printed line parses to what it means, whatever white space surrounds it. */
  lemma PrintedLineParses(l: Line, left: string, right: string)
    requires WellFormedLine(l) && All(left, SPACES) && All(right, SPACES)
    ensures ParseProxyLine(left + PrintLine(l) + right) == Ok(MeaningLine(l))
  {
    TrimIs(SPACES, left, PrintLine(l), right);
    if l.Proxy? {
      var body := Print(l.notation);
      PrefixOfSum(SchemeText(l.scheme), body);
      SchemesDiffer(body);
      BodyParses(MeaningLine(l).kind, l.notation);
      if l.scheme.Bare? {
        assert "" + body == body;
        PrintedNotationParses(l.notation);
        assert body != "" by { NotationNotEmpty(l.notation); }
      }
    }
  }

  lemma NotationNotEmpty(n: Notation)
    requires WellFormed(n)
    ensures Print(n) != ""
  {
    match n
    case AtForm(_, _) =>
    case BracketForm(_, _, _, _) =>
    case ColonForm(_, _, _) =>
  }

  lemma BodyFound(kind: Kind, line: string) returns (n: Notation)
    requires ParseBody(kind, line).Ok?
    ensures WellFormed(n) && Print(n) == line
    ensures Splits(Meaning(n).address)
    ensures var f := Meaning(n);
      ParseBody(kind, line) == Ok(Upstream(kind, f.address, f.username, f.password, "", DEFAULT_WEIGHT, ""))
  {
    n := ParsedNotationPrints(line);
    SplitSound(Meaning(n).address);
    assert Splits(Meaning(n).address);
  }

  lemma RestOfPrefix(s: string, prefix: string)
    requires HasPrefix(s, prefix)
    ensures prefix + s[|prefix|..] == s
  {
  }

  lemma TrimmedLinePrints(core: string) returns (l: Line)
    requires Tight(core, SPACES) && ParseTrimmed(core).Ok?
    ensures WellFormedLine(l) && PrintLine(l) == core && ParseTrimmed(core) == Ok(MeaningLine(l))
  {
    if HasPrefix(core, SS) {
      l := SsLine(core);
    } else {
      var scheme := if HasPrefix(core, SOCKS5) then Socks5Scheme else if HasPrefix(core, SOCKS4) then Socks4Scheme else Bare;
      var body := core[|SchemeText(scheme)|..];
      RestOfPrefix(core, SchemeText(scheme));
      assert scheme.Bare? ==> body == core;
      var n := BodyFound(if scheme.Socks4Scheme? then Socks4 else Socks5, body);
      l := Proxy(scheme, n);
    }
  }

  /** Every accepted line is a printed line with white space around it. */
  lemma ParsedLinePrints(line: string) returns (left: string, l: Line, right: string)
    requires ParseProxyLine(line).Ok?
    ensures WellFormedLine(l) && All(left, SPACES) && All(right, SPACES)
    ensures line == left + PrintLine(l) + right && ParseProxyLine(line) == Ok(MeaningLine(l))
  {
    left, right := TrimSplits(line, SPACES);
    l := TrimmedLinePrints(TrimSpace(line));
  }

  /** The parser accepts exactly the padded lines of the grammar, as what they mean. */
  lemma AcceptsExactlyTheGrammar(line: string, u: Upstream)
    ensures ParseProxyLine(line) == Ok(u) <==>
      exists left, l, right :: WellFormedLine(l) && MeaningLine(l) == u && All(left, SPACES) && All(right, SPACES)
                               && line == left + PrintLine(l) + right
  {
    if ParseProxyLine(line) == Ok(u) {
      var left, l, right := ParsedLinePrints(line);
    }
    if left, l, right :| WellFormedLine(l) && MeaningLine(l) == u && All(left, SPACES) && All(right, SPACES)
                         && line == left + PrintLine(l) + right {
      PrintedLineParses(l, left, right);
    }
  }

  /** An unpadded printed line, its address being known to split. */
  lemma TightLineParses(scheme: Scheme, n: Notation, host: string, port: string)
    requires !scheme.Bare? && WellFormed(n) && IsHostPort(Meaning(n).address, host, port)
    ensures Tight(SchemeText(scheme) + Print(n), SPACES) ==>
              ParseProxyLine(SchemeText(scheme) + Print(n)) == Ok(MeaningLine(Proxy(scheme, n)))
  {
    var l := Proxy(scheme, n);
    if Tight(PrintLine(l), SPACES) {
      PrintedLineParses(l, "", "");
      assert "" + PrintLine(l) + "" == PrintLine(l);
    }
  }

  /** The schemes by name: socks5:// and no scheme at all make a socks5 upstream, socks4:// a socks4
      one. */
  lemma SchemesByName(scheme: Scheme, n: Notation, host: string, port: string)
    requires WellFormed(n) && IsHostPort(Meaning(n).address, host, port) && Tight(Print(n), SPACES)
    requires scheme.Bare? ==> NoScheme(Print(n))
    ensures var f := Meaning(n);
      ParseProxyLine((match scheme case Bare => "" case Socks5Scheme => "socks5://" case Socks4Scheme => "socks4://") + Print(n))
      == Ok(Upstream(if scheme.Socks4Scheme? then Socks4 else Socks5, f.address, f.username, f.password, "", 10, ""))
  {
    NotationNotEmpty(n);
    if scheme.Bare? {
      assert "" + Print(n) == Print(n);
    } else {
      SchemeIsTight(SchemeText(scheme), Print(n));
    }
    UnpaddedParses(Proxy(scheme, n));
  }

  /** A line that starts with ss:// is kept whole. */
  lemma UrlIsKept(url: string)
    requires Tight(url, SPACES) && HasPrefix(url, "ss://")
    ensures ParseProxyLine(url) == Ok(Upstream(Shadowsocks, "", "", "", url, 10, ""))
  {
    UnpaddedParses(SsLine(url));
  }

  /** A host and port both free of ":", "@" and brackets, as they are accepted with and without
      credentials. */
  lemma PlainLinesAccepted(host: string, port: string, user: string, address: string)
    requires ':' !in host && '@' !in host && NoBrackets(host) && ':' !in port && '@' !in port && NoBrackets(port)
    requires ':' !in user && '@' !in user && address == host + ":" + port
    ensures ParseFields(host + ":" + port) == Ok(Fields(address, "", ""))
    ensures ParseFields(host + ":" + port + ":" + user) == Ok(Fields(address, user, ""))
    ensures ParseFields(user + "@" + address) == Ok(Fields(address, user, ""))
    ensures SplitHostPort(address) == Ok((host, port))
  {
    FieldsByNotation(host, port, user, "", address);
    assert !HasPrefix(host, "[") by { assert host != "" ==> host[0] in host; }
    assert '@' !in address;
    ColonFormParses(ColonForm(host, port, NoCreds));
    ColonFormParses(ColonForm(host, port, User(user)));
    AtFormParses(AtForm(User(user), address));
    SplitHostPortIff(address, host, port);
  }

  /** A bracketed host and its port, with the colon between them or without. */
  lemma BracketedLinesAccepted(host: string, port: string, user: string)
    requires '@' !in host && NoBrackets(host) && ':' !in port && '@' !in port && NoBrackets(port) && port != ""
    requires ':' !in user && '@' !in user
    ensures var address := "[" + host + "]:" + port;
      && ParseFields(address) == Ok(Fields(address, "", ""))
      && ParseFields("[" + host + "]" + port) == Ok(Fields(address, "", ""))
      && ParseFields(address + ":" + user) == Ok(Fields(address, user, ""))
      && SplitHostPort(address) == Ok((host, port))
  {
    var address := "[" + host + "]:" + port;
    assert "[" + host + "]" + ":" + port == address;
    assert "[" + host + "]" + ":" + port + "" == address;
    assert "[" + host + "]" + "" + port + "" == "[" + host + "]" + port;
    assert "[" + host + "]" + ":" + port + (":" + user) == address + ":" + user;
    BracketFormParses(BracketForm(host, true, port, NoCreds));
    BracketFormParses(BracketForm(host, false, port, NoCreds));
    BracketFormParses(BracketForm(host, true, port, User(user)));
    SplitHostPortIff(address, host, port);
  }

  lemma SchemeIsTight(scheme: string, s: string)
    requires scheme != "" && scheme[0] !in SPACES && Tight(s, SPACES) && s != ""
    ensures Tight(scheme + s, SPACES)
  {
  }

  lemma UnpaddedParses(l: Line)
    requires WellFormedLine(l)
    ensures ParseProxyLine(PrintLine(l)) == Ok(MeaningLine(l))
  {
    PrintedLineParses(l, "", "");
    assert "" + PrintLine(l) + "" == PrintLine(l);
  }

  /** What each notation means, field by field. */
  lemma FieldsByNotation(host: string, port: string, user: string, pass: string, address: string)
    ensures Print(ColonForm(host, port, NoCreds)) == host + ":" + port
            && Meaning(ColonForm(host, port, NoCreds)) == Fields(host + ":" + port, "", "")
    ensures Print(ColonForm(host, port, User(user))) == host + ":" + port + ":" + user
            && Meaning(ColonForm(host, port, User(user))) == Fields(host + ":" + port, user, "")
    ensures Print(ColonForm(host, port, UserPass(user, pass))) == host + ":" + port + ":" + user + ":" + pass
            && Meaning(ColonForm(host, port, UserPass(user, pass))) == Fields(host + ":" + port, user, pass)
    ensures Print(BracketForm(host, true, port, NoCreds)) == "[" + host + "]:" + port
            && Meaning(BracketForm(host, true, port, NoCreds)) == Fields("[" + host + "]:" + port, "", "")
    ensures Print(AtForm(User(user), address)) == user + "@" + address && Meaning(AtForm(User(user), address)) == Fields(address, user, "")
    ensures Print(AtForm(UserPass(user, pass), address)) == user + ":" + pass + "@" + address
            && Meaning(AtForm(UserPass(user, pass), address)) == Fields(address, user, pass)
  {
    assert host + ":" + port + "" == host + ":" + port;
    assert host + ":" + port + (":" + user) == host + ":" + port + ":" + user;
    assert host + ":" + port + (":" + user + ":" + pass) == host + ":" + port + ":" + user + ":" + pass;
    assert "[" + host + "]" + ":" + port + "" == "[" + host + "]:" + port;
    assert "[" + host + "]" + ":" + port == "[" + host + "]:" + port;
  }

  /** A host that both forms can carry reads the same in front of and behind its credentials;
      the password may contain colons in both. */
  lemma NotationsAgree(scheme: Scheme, host: string, port: string, user: string, pass: string)
    requires !scheme.Bare?
    requires ':' !in host && ':' !in port && ':' !in user
    requires NoBrackets(host) && NoBrackets(port) && '@' !in host && '@' !in port && '@' !in user && '@' !in pass
    ensures var at := SchemeText(scheme) + Print(AtForm(UserPass(user, pass), host + ":" + port));
      var suffix := SchemeText(scheme) + Print(ColonForm(host, port, UserPass(user, pass)));
      Tight(at, SPACES) && Tight(suffix, SPACES) ==>
        ParseProxyLine(at) == ParseProxyLine(suffix)
        == Ok(Upstream(if scheme.Socks4Scheme? then Socks4 else Socks5, host + ":" + port, user, pass, "", DEFAULT_WEIGHT, ""))
  {
    assert IsHostPort(host + ":" + port, host, port);
    assert !HasPrefix(host, "[") by { assert host != "" ==> host[0] in host; }
    TightLineParses(scheme, AtForm(UserPass(user, pass), host + ":" + port), host, port);
    TightLineParses(scheme, ColonForm(host, port, UserPass(user, pass)), host, port);
  }

  /** The same for a bracketed IPv6 host. */
  lemma BracketNotationsAgree(scheme: Scheme, host: string, port: string, user: string, pass: string)
    requires !scheme.Bare? && port != ""
    requires ':' !in port && ':' !in user
    requires NoBrackets(host) && NoBrackets(port) && '@' !in host && '@' !in port && '@' !in user && '@' !in pass
    ensures var address := "[" + host + "]" + ":" + port;
      var at := SchemeText(scheme) + Print(AtForm(UserPass(user, pass), address));
      var suffix := SchemeText(scheme) + Print(BracketForm(host, true, port, UserPass(user, pass)));
      Tight(at, SPACES) && Tight(suffix, SPACES) ==>
        ParseProxyLine(at) == ParseProxyLine(suffix)
        == Ok(Upstream(if scheme.Socks4Scheme? then Socks4 else Socks5, address, user, pass, "", DEFAULT_WEIGHT, ""))
  {
    var address := "[" + host + "]" + ":" + port;
    assert IsHostPort(address, host, port);
    assert '@' !in address;
    TightLineParses(scheme, AtForm(UserPass(user, pass), address), host, port);
    TightLineParses(scheme, BracketForm(host, true, port, UserPass(user, pass)), host, port);
  }
}
