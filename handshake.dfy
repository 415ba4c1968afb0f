/** The version gate of the WebSocket opening handshake. Both sides put
    `hl/<major>` in the `Sec-WebSocket-Protocol` header (the subprotocol
    negotiation of sections 4.1 and 4.2.2 of RFC 6455): the server refuses a
    request that does not carry exactly its own value, and the client refuses
    a response that does not echo exactly its own value. Only this decision is
    modelled; the rest of the handshake is left to the WebSocket library. */
module Handshake {
  import opened Wire

  /** An HTTP header list in order of appearance. */
  type Headers = seq<(string, string)>

  const ProtocolHeader: string := "Sec-WebSocket-Protocol"

  const SwitchingProtocols: nat := 101
  const BadRequest: nat := 400

  datatype HttpResponse = HttpResponse(status: nat, headers: Headers)

  /** The outcome of the client's check of the server's reply. */
  datatype HandshakeOutcome = Connected | HandshakeIncomplete

  // ---------------------------------------------------------------------------
  // The version string `format!("hl/{}", major)`

  predicate IsDigit(c: char) {
    '0' <= c <= '9'
  }

  function DigitChar(d: nat): (c: char)
    requires d < 10
    ensures IsDigit(c) && c as int - '0' as int == d
  {
    ('0' as int + d) as char
  }

  /** `n` in decimal, without leading zeros (Rust's `{}` for an integer). */
  function Decimal(n: nat): (s: string)
    ensures |s| >= 1
    ensures forall i :: 0 <= i < |s| ==> IsDigit(s[i])
  {
    if n < 10 then [DigitChar(n)] else Decimal(n / 10) + [DigitChar(n % 10)]
  }

  /** The value of a string of decimal digits. */
  function ParseDecimal(s: string): nat
    requires forall i :: 0 <= i < |s| ==> IsDigit(s[i])
  {
    if s == [] then 0
    else
      assert IsDigit(s[|s| - 1]);
      10 * ParseDecimal(s[..|s| - 1]) + (s[|s| - 1] as int - '0' as int)
  }

  lemma {:induction false} ParseDecimalInverts(n: nat)
    ensures ParseDecimal(Decimal(n)) == n
  {
    if n >= 10 {
      var s := Decimal(n);
      assert s[..|s| - 1] == Decimal(n / 10);
      ParseDecimalInverts(n / 10);
    }
  }

  /** The header value both sides derive from the crate version's major number
      (src/client.rs `new_with_config`, src/server.rs `Server::new`). */
  function VersionHeader(major: nat): (h: string)
    ensures |h| >= 4 && h[..3] == "hl/"
    ensures forall i :: 3 <= i < |h| ==> IsDigit(h[i])
  {
    "hl/" + Decimal(major)
  }

  /** Two builds agree on the header exactly when they agree on the major version. */
  lemma VersionHeaderInjective(a: nat, b: nat)
    ensures VersionHeader(a) == VersionHeader(b) <==> a == b
  {
    if VersionHeader(a) == VersionHeader(b) {
      assert Decimal(a) == VersionHeader(a)[3..];
      assert Decimal(b) == VersionHeader(b)[3..];
      ParseDecimalInverts(a);
      ParseDecimalInverts(b);
    }
  }

  // ---------------------------------------------------------------------------
  // Header lookup: `headers().get(name)` returns the first value stored under
  // the name, which is compared without regard to ASCII case.

  function LowerAscii(c: char): char {
    if 'A' <= c <= 'Z' then (c as int + 32) as char else c
  }

  predicate SameName(a: string, b: string) {
    |a| == |b| && forall i :: 0 <= i < |a| ==> LowerAscii(a[i]) == LowerAscii(b[i])
  }

  function Lookup(hs: Headers, name: string): (r: Option<string>)
    ensures r.None? <==> forall i :: 0 <= i < |hs| ==> !SameName(hs[i].0, name)
    ensures r.Some? ==> exists i :: 0 <= i < |hs| && SameName(hs[i].0, name) && hs[i].1 == r.value &&
                          forall j :: 0 <= j < i ==> !SameName(hs[j].0, name)
  {
    if hs == [] then None
    else if SameName(hs[0].0, name) then Some(hs[0].1)
    else
      var r := Lookup(hs[1..], name);
      if r.Some? then
        var i :| 0 <= i < |hs[1..]| && SameName(hs[1..][i].0, name) && hs[1..][i].1 == r.value &&
                 forall j :: 0 <= j < i ==> !SameName(hs[1..][j].0, name);
        assert SameName(hs[i + 1].0, name) && hs[i + 1].1 == r.value;
        r
      else r
  }

  /** A header appended to a list that lacks the name is what a lookup finds. */
  lemma {:induction false} LookupAppended(hs: Headers, name: string, value: string)
    requires Lookup(hs, name).None?
    ensures Lookup(hs + [(name, value)], name) == Some(value)
  {
    if hs != [] {
      assert (hs + [(name, value)])[1..] == hs[1..] + [(name, value)];
      LookupAppended(hs[1..], name, value);
    }
  }

  // ---------------------------------------------------------------------------
  // Client side (src/client.rs `connect`)

  /** The opening request's headers; `key` is the random `Sec-WebSocket-Key`. */
  function ClientRequest(host: string, key: string, version: string): (hs: Headers)
    ensures Lookup(hs, ProtocolHeader) == Some(version)
  {
    var hs := [ ("Host", host), ("Connection", "Upgrade"), ("Upgrade", "websocket"),
                ("Sec-WebSocket-Version", "13"), ("Sec-WebSocket-Key", key),
                (ProtocolHeader, version) ];
    // the five earlier names all differ in length from the protocol header's
    assert Lookup(hs[5..], ProtocolHeader) == Some(version);
    assert Lookup(hs[4..], ProtocolHeader) == Lookup(hs[5..], ProtocolHeader) by { assert hs[4..][1..] == hs[5..]; }
    assert Lookup(hs[3..], ProtocolHeader) == Lookup(hs[4..], ProtocolHeader) by { assert hs[3..][1..] == hs[4..]; }
    assert Lookup(hs[2..], ProtocolHeader) == Lookup(hs[3..], ProtocolHeader) by { assert hs[2..][1..] == hs[3..]; }
    assert Lookup(hs[1..], ProtocolHeader) == Lookup(hs[2..], ProtocolHeader) by { assert hs[1..][1..] == hs[2..]; }
    hs
  }

  /** The client's check of the server's reply headers. */
  function CheckServerProtocol(response: Headers, version: string): (r: HandshakeOutcome)
    ensures r == Connected <==> Lookup(response, ProtocolHeader) == Some(version)
  {
    var protocol := Lookup(response, ProtocolHeader);
    if protocol.None? || protocol.value != version then HandshakeIncomplete else Connected
  }

  // ---------------------------------------------------------------------------
  // Server side (src/server.rs `handle_connection`, the `callback` closure)

  /** The callback's rewrite of the library's default response. A request
      whose protocol header is missing or different gets status 400 and no
      other change; an accepted one keeps its status and gains one header
      carrying the server's version. */
  function Callback(request: Headers, response: HttpResponse, version: string): (r: HttpResponse)
    ensures Lookup(request, ProtocolHeader) != Some(version) ==>
              r.status == BadRequest && r.headers == response.headers
    ensures Lookup(request, ProtocolHeader) == Some(version) ==>
              r.status == response.status &&
              r.headers == response.headers + [(ProtocolHeader, version)]
  {
    var reqVersion := Lookup(request, ProtocolHeader);
    if reqVersion.None? || reqVersion.value != version then
      response.(status := BadRequest)
    else
      response.(headers := response.headers + [(ProtocolHeader, version)])
  }

  /** The two checks together: a client and a server built with major versions
      `clientMajor` and `serverMajor` complete the handshake (status 101 from
      the server, `Connected` at the client) exactly when the majors agree;
      otherwise the server answers 400. */
  lemma HandshakeAgreement(host: string, key: string, clientMajor: nat, serverMajor: nat, base: HttpResponse)
    requires base.status == SwitchingProtocols
    requires Lookup(base.headers, ProtocolHeader).None?
    ensures var r := Callback(ClientRequest(host, key, VersionHeader(clientMajor)), base, VersionHeader(serverMajor));
            (r.status == SwitchingProtocols <==> clientMajor == serverMajor) &&
            (r.status != SwitchingProtocols ==> r.status == BadRequest) &&
            (r.status == SwitchingProtocols ==> CheckServerProtocol(r.headers, VersionHeader(clientMajor)) == Connected)
  {
    VersionHeaderInjective(clientMajor, serverMajor);
    if clientMajor == serverMajor {
      LookupAppended(base.headers, ProtocolHeader, VersionHeader(serverMajor));
    }
  }
}
