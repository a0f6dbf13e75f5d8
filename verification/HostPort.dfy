/** Splitting "host:port" the way Go's net.SplitHostPort does, and what it accepts. */
module HostPort {
  import opened Common
  import opened Text

  function SplitHostPort(addr: string): Result<(string, string)> {
    var i := LastIndexOf(addr, ':');
    if i == -1 then Err("missing port in address")
    else if addr[0] == '[' then
      var end := IndexOf(addr, ']');
      if end == -1 then Err("missing ']' in address")
      else if end + 1 == |addr| then Err("missing port in address")
      else if end + 1 != i then
        if addr[end + 1] == ':' then Err("too many colons in address") else Err("missing port in address")
      else if '[' in addr[1..] then Err("unexpected '[' in address")
      else if ']' in addr[end + 1..] then Err("unexpected ']' in address")
      else Ok((addr[1..end], addr[i + 1..]))
    else if ':' in addr[..i] then Err("too many colons in address")
    else if '[' in addr then Err("unexpected '[' in address")
    else if ']' in addr then Err("unexpected ']' in address")
    else Ok((addr[..i], addr[i + 1..]))
  }

  predicate NoBrackets(s: string) {
    '[' !in s && ']' !in s
  }

  predicate IsHostPort(addr: string, host: string, port: string) {
    && NoBrackets(host) && NoBrackets(port) && ':' !in port
    && (|| (addr == host + ":" + port && ':' !in host)
        || addr == "[" + host + "]" + ":" + port)
  }

  lemma SplitSound(addr: string)
    requires SplitHostPort(addr).Ok?
    ensures IsHostPort(addr, SplitHostPort(addr).value.0, SplitHostPort(addr).value.1)
  {
    var i := LastIndexOf(addr, ':');
    var (host, port) := SplitHostPort(addr).value;
    if addr[0] == '[' {
      var end := IndexOf(addr, ']');
      assert addr == "[" + host + "]" + ":" + port;
      assert forall c | c in host :: c in addr[1..];
      assert forall c | c in host :: c in addr[..end];
      assert forall c | c in port :: c in addr[1..];
      assert forall c | c in port :: c in addr[end + 1..];
    } else {
      assert addr == host + ":" + port;
    }
  }

  lemma {:induction false} LastColon(addr: string, host: string, port: string)
    requires ':' !in port && addr == "[" + host + "]" + ":" + port
    ensures LastIndexOf(addr, ':') == |host| + 2 && addr[|host| + 3..] == port && addr[0] == '['
  {
    LastIndexOfIs(addr, ':', "[" + host + "]", port);
  }

  lemma {:induction false} OnlyBrackets(addr: string, host: string, port: string)
    requires NoBrackets(host) && NoBrackets(port) && addr == "[" + host + "]" + ":" + port
    ensures IndexOf(addr, ']') == |host| + 1 && addr[1..|host| + 1] == host
    ensures ']' !in addr[|host| + 2..] && '[' !in addr[1..]
  {
    var rest := ":" + port;
    assert addr == ("[" + host) + [']'] + rest;
    IndexOfIs(addr, ']', "[" + host, rest);
    assert addr[|host| + 2..] == rest;
    assert addr[1..] == host + ("]" + rest);
    NoBracketBehind(host, rest);
  }

  lemma NoBracketBehind(host: string, rest: string)
    requires NoBrackets(host) && NoBrackets(rest)
    ensures '[' !in host + ("]" + rest)
  {
  }

  lemma BracketedSplits(addr: string, host: string, port: string)
    requires NoBrackets(host) && NoBrackets(port) && ':' !in port
    requires addr == "[" + host + "]" + ":" + port
    ensures SplitHostPort(addr) == Ok((host, port))
  {
    LastColon(addr, host, port);
    OnlyBrackets(addr, host, port);
  }

  lemma PlainSplits(addr: string, host: string, port: string)
    requires NoBrackets(host) && NoBrackets(port) && ':' !in port && ':' !in host
    requires addr == host + ":" + port
    ensures SplitHostPort(addr) == Ok((host, port))
  {
    LastIndexOfIs(addr, ':', host, port);
    assert NoBrackets(addr);
    assert addr[0] in addr;
  }

  lemma SplitComplete(addr: string, host: string, port: string)
    requires IsHostPort(addr, host, port)
    ensures SplitHostPort(addr) == Ok((host, port))
  {
    if addr == "[" + host + "]" + ":" + port {
      BracketedSplits(addr, host, port);
    } else {
      PlainSplits(addr, host, port);
    }
  }

  /** Exactly host:port and [host]:port, with no stray bracket or colon, are accepted. */
  lemma SplitHostPortIff(addr: string, host: string, port: string)
    ensures SplitHostPort(addr) == Ok((host, port)) <==> IsHostPort(addr, host, port)
  {
    if SplitHostPort(addr) == Ok((host, port)) {
      SplitSound(addr);
    }
    if IsHostPort(addr, host, port) {
      SplitComplete(addr, host, port);
    }
  }
}
