/**
  SOCKS5 addresses and UDP datagrams (RFC 1928, sections 5 to 7). A host is what net.ParseIP makes of its
  text: an IPv4 address, any other IPv6 address, or a domain name.
  */
module Socks {
  import opened Text
  import opened Bytes

  datatype Host = V4(ip: seq<byte>) | V6(ip: seq<byte>) | Domain(name: seq<byte>)

  datatype Error = DomainTooLong | Short | BadVersion(got: byte) | Refused(rep: byte) | BadType(got: byte) | Fragmented

  /** An IPv6 address that stands for an IPv4 one; the net package shows it as the latter. */
  predicate Mapped(ip: seq<byte>)
    requires |ip| == 16
  {
    (forall k :: 0 <= k < 10 ==> ip[k] == 0) && ip[10] == 0xff && ip[11] == 0xff
  }

  /** Ten zeros, two bytes of ones, and the four bytes of the other address. */
  lemma MappedMeans(ip: seq<byte>)
    requires |ip| == 16
    ensures Mapped(ip) <==> ip[..12] == [0, 0, 0, 0, 0, 0, 0, 0, 0, 0, 0xff, 0xff]
  {
    var front: seq<byte> := [0, 0, 0, 0, 0, 0, 0, 0, 0, 0, 0xff, 0xff];
    assert forall k :: 0 <= k < 12 ==> ip[..12][k] == ip[k];
    assert forall k :: 0 <= k < 10 ==> front[k] == 0;
  }

  predicate Parsed(host: Host) {
    match host
    case V4(ip) => |ip| == 4
    case V6(ip) => |ip| == 16 && !Mapped(ip)
    case Domain(_) => true
  }

  /** net.IP(buf).String() on sixteen bytes, as a host. */
  function Shown(ip: seq<byte>): Host
    requires |ip| == 16
  {
    if Mapped(ip) then V4(ip[12..]) else V6(ip)
  }

  /** socksAddr: type, address and port; the port is cut to sixteen bits. */
  function Address(host: Host, port: nat): Result<seq<byte>, Error> {
    match host
    case V4(ip) => Success([0x01 as byte] + ip + PutU16(port))
    case V6(ip) => Success([0x04 as byte] + ip + PutU16(port))
    case Domain(name) =>
      if |name| > 255 then Failure(DomainTooLong) else Success([0x03 as byte, |name| as byte] + name + PutU16(port))
  }

  /** A result of reading from a connection, with what is left to read. */
  datatype Read<T> = Read(result: Result<T, Error>, rest: seq<byte>)

  /** The two bytes of the port after the host. */
  function ReadPort(host: Host, s: seq<byte>): Read<(Host, nat)> {
    if |s| < 2 then Read(Failure(Short), []) else Read(Success((host, U16At(s, 0))), s[2..])
  }

  /** readSocksAddr. */
  function ReadAddress(s: seq<byte>): Read<(Host, nat)> {
    if |s| < 4 then Read(Failure(Short), [])
    else if s[0] != 0x05 then Read(Failure(BadVersion(s[0])), s[4..])
    else if s[1] != 0x00 then Read(Failure(Refused(s[1])), s[4..])
    else if s[3] == 0x01 then
      if |s| < 8 then Read(Failure(Short), []) else ReadPort(V4(s[4..8]), s[8..])
    else if s[3] == 0x03 then
      if |s| < 5 || |s| < 5 + s[4] as nat then Read(Failure(Short), [])
      else ReadPort(Domain(s[5..5 + s[4] as nat]), s[5 + s[4] as nat..])
    else if s[3] == 0x04 then
      if |s| < 20 then Read(Failure(Short), []) else ReadPort(Shown(s[4..20]), s[20..])
    else Read(Failure(BadType(s[3])), s[4..])
  }

  /** What a reply is refused for, in this order: its version, its code, the type of its address. */
  lemma RefusedFor(version: byte, code: byte, reserved: byte, kind: byte, rest: seq<byte>)
    ensures var r := ReadAddress([version, code, reserved, kind] + rest).result;
            if version != 5 then r == Failure(BadVersion(version))
            else if code != 0 then r == Failure(Refused(code))
            else if kind !in {1, 3, 4} then r == Failure(BadType(kind))
            else r.Success? || r == Failure(Short)
  {
    var s := [version, code, reserved, kind] + rest;
    assert s[0] == version && s[1] == code && s[3] == kind;
  }

  /** A success header, whose third byte is reserved. */
  function Header(reserved: byte): seq<byte> {
    [0x05, 0x00, reserved]
  }

  lemma PortRoundTrip(host: Host, port: nat, rest: seq<byte>)
    ensures ReadPort(host, PutU16(port) + rest) == Read(Success((host, port % 0x10000)), rest)
  {
    var s := PutU16(port) + rest;
    assert s[0..2] == PutU16(port);
    U16RoundTrip(port, s, 0);
  }

  /** Where the pieces of a reply are. */
  lemma ReplyPieces(kind: byte, body: seq<byte>, port: nat, reserved: byte, rest: seq<byte>)
    ensures var s := Header(reserved) + ([kind] + body + PutU16(port)) + rest;
            && |s| >= 6 + |body| && s[0] == 0x05 && s[1] == 0x00 && s[3] == kind
            && s[4..4 + |body|] == body && s[4 + |body|..] == PutU16(port) + rest
  {
  }

  lemma IPRoundTrip(host: Host, port: nat, reserved: byte, rest: seq<byte>)
    requires Parsed(host) && !host.Domain?
    ensures Address(host, port).Success?
    ensures ReadAddress(Header(reserved) + Address(host, port).value + rest) ==
              Read(Success((host, port % 0x10000)), rest)
  {
    hide Header, PutU16, ReadPort;
    ReplyPieces(if host.V4? then 0x01 else 0x04, host.ip, port, reserved, rest);
    PortRoundTrip(host, port, rest);
  }

  lemma DomainRoundTrip(name: seq<byte>, port: nat, reserved: byte, rest: seq<byte>)
    requires |name| <= 255
    ensures var s := Header(reserved) + Address(Domain(name), port).value + rest;
            ReadAddress(s) == Read(Success((Domain(name), port % 0x10000)), rest)
  {
    hide Header, PutU16, ReadPort;
    var body := [|name| as byte] + name;
    ReplyPieces(0x03, body, port, reserved, rest);
    PortRoundTrip(Domain(name), port, rest);
    assert [0x03 as byte, |name| as byte] + name == [0x03 as byte] + body;
    var s := Header(reserved) + Address(Domain(name), port).value + rest;
    assert s[4..][..1 + |name|] == body;
    assert s[4] == body[0] && s[5..5 + |name|] == body[1..];
  }

  /** What socksAddr writes after a success header, readSocksAddr reads back, and nothing more. */
  lemma AddressRoundTrip(host: Host, port: nat, reserved: byte, rest: seq<byte>)
    requires Parsed(host) && Address(host, port).Success?
    ensures ReadAddress(Header(reserved) + Address(host, port).value + rest) ==
              Read(Success((host, port % 0x10000)), rest)
  {
    hide Header, PutU16, ReadPort, ReadAddress;
    if host.Domain? {
      DomainRoundTrip(host.name, port, reserved, rest);
    } else {
      IPRoundTrip(host, port, reserved, rest);
    }
  }

  /** A host is refused exactly when no reply at all could name it. */
  lemma RefusedIffUnnameable(host: Host, port: nat)
    requires Parsed(host)
    ensures Address(host, port).Failure? <==>
              forall s :: ReadAddress(s).result.Success? ==> ReadAddress(s).result.value.0 != host
  {
    hide ReadAddress;
    if Address(host, port).Success? {
      AddressRoundTrip(host, port, 0, []);
      var s := Header(0) + Address(host, port).value + [];
      assert ReadAddress(s).result.Success? && ReadAddress(s).result.value.0 == host;
    } else {
      forall s | ReadAddress(s).result.Success? ensures ReadAddress(s).result.value.0 != host {
        if ReadAddress(s).result.value.0.Domain? {
          ReadNamesAreShort(s);
        }
      }
    }
  }

  lemma ReadNamesAreShort(s: seq<byte>)
    requires ReadAddress(s).result.Success? && ReadAddress(s).result.value.0.Domain?
    ensures |ReadAddress(s).result.value.0.name| <= 255
  {
  }

  lemma PortIsThere(s: seq<byte>, at: nat)
    requires at + 2 <= |s|
    ensures PutU16(U16At(s, at)) == s[at..at + 2]
  {
    var n := U16At(s, at);
    assert n / 256 == s[at] as nat && n % 256 == s[at + 1] as nat;
  }

  /** A reply of one type is a header, what its type says, two bytes of port, and the rest. */
  lemma PiecesOfReply(s: seq<byte>, from: nat, to: nat)
    requires 4 <= from <= to && to + 2 <= |s| && s[0] == 0x05 && s[1] == 0x00
    ensures s == Header(s[2]) + ([s[3]] + s[4..from] + s[from..to] + PutU16(U16At(s, to))) + s[to + 2..]
  {
    PortIsThere(s, to);
    assert s[..3] == Header(s[2]);
    assert s == s[..3] + ([s[3]] + s[4..from] + s[from..to] + s[to..to + 2]) + s[to + 2..];
  }

  /** The reply says what a writer would have written. */
  predicate Rewritten(s: seq<byte>) {
    && |s| >= 3 && ReadAddress(s).result.Success?
    && var (host, port) := ReadAddress(s).result.value;
       && Parsed(host) && Address(host, port).Success?
       && s == Header(s[2]) + Address(host, port).value + ReadAddress(s).rest
  }

  lemma ReadV4(s: seq<byte>)
    requires ReadAddress(s).result.Success? && s[3] == 0x01
    ensures Rewritten(s)
  {
    hide Header, PutU16;
    PiecesOfReply(s, 4, 8);
    PortAfter(s, 8);
    assert [s[3]] + s[4..4] + s[4..8] == [0x01 as byte] + s[4..8];
  }

  lemma ReadV6(s: seq<byte>)
    requires ReadAddress(s).result.Success? && s[3] == 0x04 && !Mapped(s[4..20])
    ensures Rewritten(s)
  {
    hide Header, PutU16;
    PiecesOfReply(s, 4, 20);
    PortAfter(s, 20);
    assert [s[3]] + s[4..4] + s[4..20] == [0x04 as byte] + s[4..20];
  }

  lemma ReadDomain(s: seq<byte>)
    requires ReadAddress(s).result.Success? && s[3] == 0x03
    ensures Rewritten(s)
  {
    hide Header, PutU16;
    var to := 5 + s[4] as nat;
    PiecesOfReply(s, 5, to);
    PortAfter(s, to);
    assert [s[3]] + s[4..5] + s[5..to] == [0x03 as byte, s[4]] + s[5..to];
  }

  /** Whatever readSocksAddr accepts is an address that socksAddr writes, unless it came as a mapped IPv6 address. */
  lemma ReadIsWritten(s: seq<byte>)
    requires ReadAddress(s).result.Success?
    requires s[3] == 0x04 ==> !Mapped(s[4..20])
    ensures var (host, port) := ReadAddress(s).result.value;
            && Address(host, port).Success?
            && s == [0x05, 0x00, s[2]] + Address(host, port).value + ReadAddress(s).rest
  {
    hide ReadAddress, Address;
    ReplyIsWritten(s);
  }

  lemma ReplyIsWritten(s: seq<byte>)
    requires ReadAddress(s).result.Success?
    requires s[3] == 0x04 ==> !Mapped(s[4..20])
    ensures Rewritten(s)
  {
    hide Rewritten;
    if s[3] == 0x01 {
      ReadV4(s);
    } else if s[3] == 0x03 {
      ReadDomain(s);
    } else {
      ReadV6(s);
    }
  }

  lemma PortAfter(s: seq<byte>, to: nat)
    requires to + 2 <= |s|
    ensures U16At(s[to..], 0) == U16At(s, to) && s[to..][2..] == s[to + 2..]
  {
  }

  /** socksUDPRequest. */
  function UDPRequest(host: Host, port: nat, data: seq<byte>): Result<seq<byte>, Error> {
    match Address(host, port)
    case Failure(error) => Failure(error)
    case Success(address) => Success([0 as byte, 0, 0] + address + data)
  }

  /** The length of the header of a datagram, as socksUDPPayload counts it, up to the port. */
  function HeaderEnd(packet: seq<byte>): Result<nat, Error>
    requires |packet| >= 4
  {
    if packet[3] == 0x01 then Success(8)
    else if packet[3] == 0x03 then if |packet| < 5 then Failure(Short) else Success(5 + packet[4] as nat)
    else if packet[3] == 0x04 then Success(20)
    else Failure(BadType(packet[3]))
  }

  /** socksUDPPayload. */
  function UDPPayload(packet: seq<byte>): Result<seq<byte>, Error> {
    if |packet| < 4 then Failure(Short)
    else if packet[2] != 0 then Failure(Fragmented)
    else match HeaderEnd(packet)
      case Failure(error) => Failure(error)
      case Success(off) => if |packet| < off + 2 then Failure(Short) else Success(packet[off + 2..])
  }

  /** Behind two bytes in front, the datagram is read as the reply would be. */
  lemma UDPAddressRead(host: Host, port: nat, data: seq<byte>)
    requires Parsed(host) && UDPRequest(host, port, data).Success?
    ensures ReadAddress([0x05, 0x00] + UDPRequest(host, port, data).value[2..]) ==
            Read(Success((host, port % 0x10000)), data)
  {
    hide ReadAddress, Address;
    var packet, address := UDPRequest(host, port, data).value, Address(host, port).value;
    AddressRoundTrip(host, port, 0, data);
    assert [0x05, 0x00] + packet[2..] == Header(0) + address + data;
  }

  /** The payload comes out of a datagram as it went in, for every host, port and payload. */
  lemma UDPRoundTrip(host: Host, port: nat, data: seq<byte>)
    requires Parsed(host) && UDPRequest(host, port, data).Success?
    ensures UDPPayload(UDPRequest(host, port, data).value) == Success(data)
    ensures UDPRequest(host, port, data).value[..3] == [0, 0, 0]
    ensures ReadAddress([0x05, 0x00] + UDPRequest(host, port, data).value[2..]) ==
            Read(Success((host, port % 0x10000)), data)
  {
    var packet := UDPRequest(host, port, data).value;
    var address := Address(host, port).value;
    assert packet[3] == address[0];
    assert packet[3 + |address|..] == data;
    UDPAddressRead(host, port, data);
    if host.Domain? {
      assert packet[4] == address[1];
    }
  }

  /** The address in a datagram is the one that a TCP reply with the same bytes would carry. */
  lemma UDPAddressAgrees(packet: seq<byte>)
    requires |packet| >= 4
    ensures UDPPayload(packet).Success? <==> packet[2] == 0 && ReadAddress(Header(0) + packet[3..]).result.Success?
    ensures UDPPayload(packet).Success? ==> UDPPayload(packet).value == ReadAddress(Header(0) + packet[3..]).rest
  {
    var s := Header(0) + packet[3..];
    assert s[3..] == packet[3..] && |s| == |packet|;
    assert forall k :: 3 <= k < |packet| ==> s[k] == packet[k];
    if HeaderEnd(packet).Success? {
      var off := HeaderEnd(packet).value;
      if off + 2 <= |packet| {
        assert s[off..] == packet[off..] && s[off..][2..] == packet[off + 2..];
      }
    }
  }

  /** An address that stands for an IPv4 one is shown as that one. */
  lemma MappedRead(reserved: byte, ip: seq<byte>, port: nat, rest: seq<byte>)
    requires |ip| == 4
    ensures var head := Header(reserved) + [0x04, 0, 0, 0, 0, 0, 0, 0, 0, 0, 0, 0xff, 0xff];
            ReadAddress(head + ip + PutU16(port) + rest) == Read(Success((V4(ip), port % 0x10000)), rest)
  {
    hide ReadPort, PutU16;
    var long: seq<byte> := [0, 0, 0, 0, 0, 0, 0, 0, 0, 0, 0xff, 0xff] + ip;
    var s := Header(reserved) + [0x04, 0, 0, 0, 0, 0, 0, 0, 0, 0, 0, 0xff, 0xff] + ip + PutU16(port) + rest;
    assert s == Header(reserved) + [0x04] + long + (PutU16(port) + rest);
    assert s[4..20] == long && s[20..] == PutU16(port) + rest && s[3] == 0x04 && s[0] == 0x05 && s[1] == 0x00;
    assert Mapped(long) && long[12..] == ip;
    PortRoundTrip(V4(ip), port, rest);
  }

  // ---------------------------------------------------------------- the first bytes of a relayed connection

  datatype WriteError = Failed | UnexpectedEOF

  /** A connection takes a prefix of what it is given, perhaps all of it, and may report an error, which is counted. */
  class Backend {
    var received: seq<byte>
    var errors: nat

    method Write(p: seq<byte>) returns (n: nat, ok: bool)
      modifies this
      ensures n <= |p| && received == old(received) + p[..n]
      ensures errors == old(errors) + if ok then 0 else 1
    {
      n, ok := *, *;
      if n > |p| {
        n := |p|;
      }
      received := received + p[..n];
      if !ok {
        errors := errors + 1;
      }
    }
  }

  /** writeInitial: the bytes go out in order; without an error all of them have. */
  method WriteInitial(backend: Backend, initial: seq<byte>) returns (written: nat, error: Option<WriteError>)
    modifies backend
    ensures written <= |initial| && backend.received == old(backend.received) + initial[..written]
    ensures error.None? <==> written == |initial| && backend.errors == old(backend.errors)
    ensures error == Some(Failed) <==> backend.errors > old(backend.errors)
  {
    written := 0;
    while written < |initial|
      invariant written <= |initial| && backend.received == old(backend.received) + initial[..written]
      invariant backend.errors == old(backend.errors)
    {
      var n, ok := backend.Write(initial[written..]);
      assert initial[..written] + initial[written..][..n] == initial[..written + n];
      written := written + n;
      if !ok {
        return written, Some(Failed);
      }
      if n == 0 {
        return written, Some(UnexpectedEOF);
      }
    }
    error := None;
  }
}
