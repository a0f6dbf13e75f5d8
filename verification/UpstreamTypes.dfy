/** An upstream proxy, as the parser makes it, the store keeps it and the name generator reads it. */
module UpstreamTypes {
  datatype Kind = Direct | Socks5 | Socks4 | Shadowsocks

  datatype Upstream = Upstream(
    kind: Kind, address: string, username: string, password: string, url: string, weight: nat, iface: string)
}
