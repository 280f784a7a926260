/** Tunnelling through an HTTP proxy (internal/tlsadapter/proxy.go): open a TCP connection to
    the proxy, send `CONNECT` for the destination (section 9.3.6 of RFC 9110), with Basic
    credentials when the proxy URL has a user and a password (section 2 of RFC 7617), and
    accept the tunnel only on status 200. The network is the oracle `Net`. */
module Proxy {
  import opened Base
  import opened Strings
  import Base64

  /** `url.Userinfo`: a user name and a password that may be unset. */
  datatype Userinfo = Userinfo(name: string, password: Option<string>)

  /** The parts of the proxy's `url.URL` the dialer reads. */
  datatype ProxyUrl = ProxyUrl(host: string, user: Option<Userinfo>)

  /** The `CONNECT` request: method (`verb`), the opaque URL (`target`), `Host` and header fields. */
  datatype ConnectRequest = ConnectRequest(verb: string, target: string, host: string, header: map<string, string>)

  /** What `http.ReadResponse` yields: the status code and the status line's text. */
  datatype Response = Response(statusCode: int, status: string)

  /** A connection and whether it is still open. */
  datatype Conn = Conn(id: ConnId, open: bool)

  datatype Net = Net(
    dial: (string, string) -> Result<ConnId>,           // net.Dial(network, address)
    write: (ConnId, ConnectRequest) -> Option<string>,  // the error of writing the request, if any
    read: ConnId -> Result<Response>)                   // http.ReadResponse

  const Connect := "CONNECT"
  const ProxyAuthorization := "Proxy-Authorization"
  const BasicScheme := "Basic "

  /** The credentials of section 2 of RFC 7617: `Basic`, then the base64 of user-id, a colon
      and the password. */
  function BasicCredentials(name: string, password: string): (value: string)
    ensures HasPrefix(value, BasicScheme)
    ensures Base64.Decode(value[|BasicScheme|..]) == Some(Utf8Bytes(name + ":" + password))
  {
    var bytes := Utf8Bytes(name + ":" + password);
    assert Base64.AllBytes(bytes);
    Base64.DecodeEncode(bytes);
    var value := BasicScheme + Base64.Encode(bytes);
    assert value[..|BasicScheme|] == BasicScheme;
    assert value[|BasicScheme|..] == Base64.Encode(bytes);
    value
  }

  /** A user-id without a colon, as section 2 of RFC 7617 requires, is recovered together
      with the password from the decoded credentials. */
  lemma BasicCredentialsSplit(name: string, password: string)
    requires ':' !in name
    ensures SplitOnce(name + ":" + password, ':') == Some((name, password))
  {
    assert name + ":" + password == name + [':'] + password;
    SplitOnceJoin(name, ':', password);
  }

  /** The request sent to the proxy for `address`. */
  function ConnectRequestFor(p: ProxyUrl, address: string): (req: ConnectRequest)
    ensures req.verb == Connect && req.target == address && req.host == address
    ensures ProxyAuthorization in req.header <==> p.user.Some? && p.user.value.password.Some?
    ensures ProxyAuthorization in req.header ==>
      req.header[ProxyAuthorization] == BasicCredentials(p.user.value.name, p.user.value.password.value)
    ensures req.header.Keys <= {ProxyAuthorization}
  {
    var header :=
      match p.user
      case Some(Userinfo(name, Some(password))) => map[ProxyAuthorization := BasicCredentials(name, password)]
      case _ => map[];
    ConnectRequest(Connect, address, address, header)
  }

  /** The result of `Dial`: the tunnel, or the error and the connection it closed, if one
      was opened. */
  datatype Dialed = Tunnel(conn: Conn) | Refused(err: Error, closed: Option<Conn>)

  /** `httpProxyDialer.Dial(network, address)`. */
  function Dial(p: ProxyUrl, net: Net, network: string, address: string): (r: Dialed)
    ensures net.dial(network, p.host).Err? <==> r.Refused? && r.closed.None?
    ensures net.dial(network, p.host).Err? ==> r.err == net.dial(network, p.host).error
    ensures r.Refused? && r.closed.Some? ==>
      net.dial(network, p.host) == Ok(r.closed.value.id) && !r.closed.value.open
    ensures r.Tunnel? <==>
      && net.dial(network, p.host).Ok?
      && net.write(net.dial(network, p.host).value, ConnectRequestFor(p, address)).None?
      && net.read(net.dial(network, p.host).value).Ok?
      && net.read(net.dial(network, p.host).value).value.statusCode == 200
    ensures r.Tunnel? ==> r.conn == Conn(net.dial(network, p.host).value, true)
  {
    match net.dial(network, p.host)
    case Err(e) => Refused(e, None)
    case Ok(c) =>
      var req := ConnectRequestFor(p, address);
      match net.write(c, req)
      case Some(e) => Refused(Transport(e), Some(Conn(c, false)))
      case None =>
        match net.read(c)
        case Err(e) => Refused(e, Some(Conn(c, false)))
        case Ok(res) =>
          if res.statusCode != 200 then Refused(ProxyStatus(res.status), Some(Conn(c, false)))
          else Tunnel(Conn(c, true))
  }

  /** Any status but 200 is refused with the status text, and the connection is closed. */
  lemma RefusedStatus(p: ProxyUrl, net: Net, network: string, address: string, c: ConnId, res: Response)
    requires net.dial(network, p.host) == Ok(c)
    requires net.write(c, ConnectRequestFor(p, address)).None?
    requires net.read(c) == Ok(res) && res.statusCode != 200
    ensures Dial(p, net, network, address) == Refused(ProxyStatus(res.status), Some(Conn(c, false)))
  {
  }

  /** No path leaves an opened connection both open and unreturned: a connection that was
      dialled is either the open tunnel or closed. */
  lemma NoLeak(p: ProxyUrl, net: Net, network: string, address: string)
    requires net.dial(network, p.host).Ok?
    ensures var r := Dial(p, net, network, address);
      (r.Tunnel? && r.conn.open) || (r.Refused? && r.closed.Some? && !r.closed.value.open)
  {
  }
}
