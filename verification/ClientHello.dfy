/**
  The two readers of the server name of a TLS ClientHello, and an encoder of ClientHellos (RFC 8446,
  section 4.1.2, and RFC 6066, section 3) against which both are right.
  */
module ClientHello {
  import opened Text
  import opened Bytes

  const SERVER_NAME := 0

  // ---------------------------------------------------------------- what the readers compute

  /** Past a vector whose length is one byte, or two; the end may lie behind the data. */
  function Skip8(s: seq<byte>, at: nat): Option<nat> {
    if |s| < at + 1 then None else Some(at + 1 + s[at] as nat)
  }

  function Skip16(s: seq<byte>, at: nat): Option<nat> {
    if |s| < at + 2 then None else Some(at + 2 + U16At(s, at))
  }

  /** The extensions of a ClientHello body: version, random, session id, cipher suites, compression, extensions. */
  function ExtensionsOf(body: seq<byte>): Option<seq<byte>> {
    match Skip8(body, 34)
    case None => None
    case Some(ciphers) =>
      match Skip16(body, ciphers)
      case None => None
      case Some(compression) =>
        match Skip8(body, compression)
        case None => None
        case Some(at) =>
          match Skip16(body, at)
          case None => None
          case Some(end) => if |body| < end then None else Some(body[at + 2..end])
  }

  /** The data of the first server_name extension. */
  function FindServerName(extensions: seq<byte>): Option<seq<byte>>
    decreases |extensions|
  {
    if |extensions| < 4 then None
    else
      var kind, size, rest := U16At(extensions, 0), U16At(extensions, 2), extensions[4..];
      if |rest| < size then None
      else if kind == SERVER_NAME then Some(rest[..size])
      else FindServerName(rest[size..])
  }

  /** The first host name of a server name list, skipping names of other types. */
  function FindHostName(list: seq<byte>): Option<seq<byte>>
    decreases |list|
  {
    if |list| < 3 then None
    else
      var kind, size, rest := list[0], U16At(list, 1), list[3..];
      if |rest| < size then None
      else if kind == 0 then Some(rest[..size])
      else FindHostName(rest[size..])
  }

  function HostNameIn(data: seq<byte>): Option<seq<byte>> {
    if |data| < 2 || |data| < 2 + U16At(data, 0) then None
    else FindHostName(data[2..2 + U16At(data, 0)])
  }

  /** parseServerNameList: the first name, which must be a host name. */
  function FirstHostName(data: seq<byte>): Option<seq<byte>> {
    if |data| < 5 then None
    else if |data| < 2 + U16At(data, 0) || data[2] != 0 then None
    else if |data| < 5 + U16At(data, 3) then None
    else Some(data[5..5 + U16At(data, 3)])
  }

  /** The body of the handshake message in a single TLS record, as the TCP reader checks it. */
  function RecordBody(data: seq<byte>): Option<seq<byte>> {
    if |data| < 9 || data[0] != 0x16 then None
    else
      var size := U16At(data, 3);
      if size == 0 || |data| < 5 + size then None
      else
        var handshake := data[5..5 + size];
        if |handshake| < 42 || handshake[0] != 0x01 then None
        else
          var length := handshake[1] as nat * 0x10000 + handshake[2] as nat * 0x100 + handshake[3] as nat;
          if length == 0 || |handshake| < 4 + length then None else Some(handshake[4..4 + length])
  }

  /** The raw name that the TCP reader finds. */
  function SniffedName(data: seq<byte>): Option<seq<byte>> {
    match RecordBody(data)
    case None => None
    case Some(body) =>
      match ExtensionsOf(body)
      case None => None
      case Some(extensions) =>
        match FindServerName(extensions)
        case None => None
        case Some(list) => HostNameIn(list)
  }

  function Ascii(s: seq<byte>): string {
    seq(|s|, i requires 0 <= i < |s| => s[i] as char)
  }

  /** normalizeHost of the TCP gateway; net.SplitHostPort is given by `split`, None being an error. */
  function NormalizeHost(split: string -> Option<string>, value: string): string {
    var host := DropLastDot(Lower(TrimSpace(value)));
    match split(host)
    case Some(h) => DropLastDot(h)
    case None => host
  }

  /**
    What a host is to the gateway: without spaces around it, in small letters, without a last dot and without a port;
    the host before a port loses a last dot of its own.
    */
  ghost predicate HostOf(split: string -> Option<string>, value: string, host: string) {
    exists core, small, bare :: Unspaced(value, core) && Folded(core, small) && Undotted(small, bare) &&
      match split(bare)
      case Some(h) => Undotted(h, host)
      case None => host == bare
  }

  lemma NormalizeMeans(split: string -> Option<string>, value: string)
    ensures HostOf(split, value, NormalizeHost(split, value))
  {
    hide Unspaced, Folded, Undotted, TrimSpace, Lower, DropLastDot;
    var core := TrimSpace(value);
    var small := Lower(core);
    var bare := DropLastDot(small);
    TrimSpaceMeans(value);
    LowerMeans(core);
    DropDotMeans(small);
    if split(bare).Some? {
      DropDotMeans(split(bare).value);
    }
  }

  /** A name as clients send it: small letters, no space and no dot at an end. */
  ghost predicate Ordinary(name: seq<byte>) {
    && name != [] && name[|name| - 1] as char != '.'
    && name[0] as char !in WHITE && name[|name| - 1] as char !in WHITE
    && forall i :: 0 <= i < |name| ==> name[i] as char !in CAPITALS
  }

  /** Such a name, if it has no port, comes back byte by byte. */
  lemma OrdinaryStays(split: string -> Option<string>, name: seq<byte>)
    requires Ordinary(name) && split(Ascii(name)).None?
    ensures NormalizeHost(split, Ascii(name)) == Ascii(name)
    ensures |Ascii(name)| == |name| && forall i :: 0 <= i < |name| ==> Ascii(name)[i] as int == name[i] as int
  {
    hide Trim;
    SpacesAreWhite();
    TrimKeeps(Ascii(name), SPACES);
    LowerMeans(Ascii(name));
  }

  /** And no result holds a capital, as long as the host that is split off is part of what it was split from. */
  lemma NoCapitals(split: string -> Option<string>, value: string)
    requires forall s, h, c :: split(s) == Some(h) && c in h ==> c in s
    ensures forall c :: c in NormalizeHost(split, value) ==> c !in CAPITALS
  {
    hide TrimSpace, Lower, DropLastDot;
    var small := Lower(TrimSpace(value));
    LowerIdempotent(TrimSpace(value));
    LowerMeans(small);
    var bare := DropLastDot(small);
    DropDotKeeps(small);
    if split(bare).Some? {
      DropDotKeeps(split(bare).value);
    }
  }

  lemma DropDotKeeps(s: string)
    ensures forall c :: c in DropLastDot(s) ==> c in s
  {
  }

  /** What sniffTLSSNI returns: nothing is the empty string. */
  function Sniffed(split: string -> Option<string>, data: seq<byte>): string {
    match SniffedName(data)
    case None => ""
    case Some(name) => NormalizeHost(split, Ascii(name))
  }

  /** The body that the QUIC reader works on: of a handshake message, in a record or bare. */
  function HandshakeBody(data: seq<byte>): Option<seq<byte>> {
    if |data| < 5 then None
    else if data[0] == 0x16 then
      if |data| < 5 + U16At(data, 3) then None else BareBody(data[5..5 + U16At(data, 3)])
    else BareBody(data)
  }

  function BareBody(handshake: seq<byte>): Option<seq<byte>> {
    if |handshake| < 4 || handshake[0] != 0x01 then None else Some(handshake[4..])
  }

  function ExtractedName(data: seq<byte>): Option<seq<byte>> {
    match HandshakeBody(data)
    case None => None
    case Some(body) =>
      match ExtensionsOf(body)
      case None => None
      case Some(extensions) =>
        match FindServerName(extensions)
        case None => None
        case Some(list) => FirstHostName(list)
  }

  /** A reader ends with a name or without one, or at a read behind the end of its data, where the program panics. */
  datatype Outcome = Name(name: Option<seq<byte>>) | OutOfRange

  /** The data is no handshake message that ends right after its random. */
  predicate GoesOn(data: seq<byte>) {
    HandshakeBody(data).Some? ==> |HandshakeBody(data).value| != 34
  }

  function Extracted(data: seq<byte>): Outcome {
    if GoesOn(data) then Name(ExtractedName(data)) else OutOfRange
  }

  /** Which data that is: the bare message of 38 bytes, or such a message in a record. */
  lemma EndsEarlyIff(data: seq<byte>)
    ensures Extracted(data).OutOfRange? <==>
            || (|data| == 38 && data[0] == 0x01)
            || (|data| >= 43 && data[0] == 0x16 && U16At(data, 3) == 38 && data[5] == 0x01)
  {
  }

  // ---------------------------------------------------------------- the readers

  /** parseSNIExtension. */
  method ParseSNIExtension(split: string -> Option<string>, data: seq<byte>) returns (host: string)
    ensures host == match HostNameIn(data) case None => "" case Some(name) => NormalizeHost(split, Ascii(name))
  {
    if |data| < 2 {
      return "";
    }
    var listLen := U16At(data, 0);
    if |data| < 2 + listLen {
      return "";
    }
    var list := data[2..][..listLen];
    assert list == data[2..2 + listLen];
    while |list| >= 3
      invariant HostNameIn(data) == FindHostName(list)
      decreases |list|
    {
      var kind, nameLen := list[0], U16At(list, 1);
      list := list[3..];
      if |list| < nameLen {
        return "";
      }
      if kind == 0 {
        return NormalizeHost(split, Ascii(list[..nameLen]));
      }
      list := list[nameLen..];
    }
    host := "";
  }

  /** sniffTLSSNI: total on every byte sequence. */
  method SniffTLSSNI(split: string -> Option<string>, data: seq<byte>) returns (host: string)
    ensures host == Sniffed(split, data)
  {
    hide FindServerName, HostNameIn, NormalizeHost, ExtensionsOf;
    if |data| < 9 || data[0] != 0x16 {
      return "";
    }
    var recordLen := U16At(data, 3);
    if recordLen <= 0 || |data| < 5 + recordLen {
      return "";
    }
    var handshake := data[5..5 + recordLen];
    if |handshake| < 42 || handshake[0] != 0x01 {
      return "";
    }
    var hsLen := handshake[1] as nat * 0x10000 + handshake[2] as nat * 0x100 + handshake[3] as nat;
    if hsLen <= 0 || |handshake| < 4 + hsLen {
      return "";
    }
    var body := handshake[4..4 + hsLen];
    var extensions := ReadExtensions(body);
    if extensions.None? {
      return "";
    }
    host := ScanExtensions(split, extensions.value);
  }

  /** The part of sniffTLSSNI that moves over the fields of the body. */
  method ReadExtensions(body: seq<byte>) returns (extensions: Option<seq<byte>>)
    ensures extensions == ExtensionsOf(body)
  {
    var off := 2 + 32;
    if |body| < off + 1 {
      return None;
    }
    off := off + 1 + body[off] as nat;
    if |body| < off + 2 {
      return None;
    }
    off := off + 2 + U16At(body, off);
    if |body| < off + 1 {
      return None;
    }
    off := off + 1 + body[off] as nat;
    if |body| < off + 2 {
      return None;
    }
    var extensionsLen := U16At(body, off);
    off := off + 2;
    if |body| < off + extensionsLen {
      return None;
    }
    extensions := Some(body[off..off + extensionsLen]);
  }

  /** The loop of sniffTLSSNI over the extensions. */
  method ScanExtensions(split: string -> Option<string>, all: seq<byte>) returns (host: string)
    ensures host == match FindServerName(all)
                    case None => ""
                    case Some(list) =>
                      match HostNameIn(list)
                      case None => ""
                      case Some(name) => NormalizeHost(split, Ascii(name))
  {
    var extensions := all;
    while |extensions| >= 4
      invariant FindServerName(all) == FindServerName(extensions)
      decreases |extensions|
    {
      var kind, size := U16At(extensions, 0), U16At(extensions, 2);
      extensions := extensions[4..];
      if |extensions| < size {
        return "";
      }
      if kind == SERVER_NAME {
        host := ParseSNIExtension(split, extensions[..size]);
        return;
      }
      extensions := extensions[size..];
    }
    host := "";
  }

  /** extractSNIExtension. */
  method ExtractSNIExtension(extensions: seq<byte>) returns (name: Option<seq<byte>>)
    ensures name == match FindServerName(extensions) case None => None case Some(list) => FirstHostName(list)
  {
    var off := 0;
    while off + 4 <= |extensions|
      invariant 0 <= off <= |extensions|
      invariant FindServerName(extensions) == FindServerName(extensions[off..])
    {
      var rest := extensions[off..];
      var kind, size := U16At(extensions, off), U16At(extensions, off + 2);
      assert U16At(rest, 0) == kind && U16At(rest, 2) == size && rest[4..] == extensions[off + 4..];
      off := off + 4;
      if off + size > |extensions| {
        return None;
      }
      if kind == SERVER_NAME {
        assert extensions[off..off + size] == rest[4..][..size];
        return FirstHostName(extensions[off..off + size]);
      }
      assert rest[4..][size..] == extensions[off + size..];
      off := off + size;
    }
    name := None;
  }

  /** ExtractSNIFromClientHello: the one read that no guard covers is that of the session id's length. */
  method ExtractSNIFromClientHello(data: seq<byte>) returns (r: Outcome)
    ensures r == Extracted(data)
  {
    if |data| < 5 {
      return Name(None);
    }
    var hs := data;
    if data[0] == 0x16 {
      var recordLen := U16At(data, 3);
      if |data| < 5 + recordLen {
        return Name(None);
      }
      hs := data[5..5 + recordLen];
    }
    if |hs| < 4 || hs[0] != 0x01 {
      return Name(None);
    }
    var hello := hs[4..];
    hide FindServerName, FirstHostName;
    if |hello| < 34 {
      return Name(None);
    }
    var off := 34;
    if |hello| <= off {
      return OutOfRange;
    }
    var name := ExtractFromBody(hello);
    r := Name(name);
  }

  /** The part of ExtractSNIFromClientHello after the random. */
  method ExtractFromBody(hello: seq<byte>) returns (name: Option<seq<byte>>)
    requires |hello| > 34
    ensures name == match ExtensionsOf(hello)
                    case None => None
                    case Some(extensions) =>
                      match FindServerName(extensions)
                      case None => None
                      case Some(list) => FirstHostName(list)
  {
    hide FindServerName, FirstHostName;
    var off := 34;
    var sessionLen := hello[off] as nat;
    off := off + 1;
    if |hello| < off + sessionLen + 2 {
      return None;
    }
    off := off + sessionLen;
    var cipherLen := U16At(hello, off);
    off := off + 2;
    if |hello| < off + cipherLen + 1 {
      return None;
    }
    off := off + cipherLen;
    var compressionLen := hello[off] as nat;
    off := off + 1;
    if |hello| < off + compressionLen + 2 {
      return None;
    }
    off := off + compressionLen;
    var extLen := U16At(hello, off);
    off := off + 2;
    if |hello| < off + extLen {
      return None;
    }
    name := ExtractSNIExtension(hello[off..off + extLen]);
  }

  // ---------------------------------------------------------------- the encoder

  datatype Extension = Extension(kind: nat, data: seq<byte>)

  datatype Hello = Hello(
    version: seq<byte>, random: seq<byte>, session: seq<byte>, ciphers: seq<byte>, compression: seq<byte>,
        extensions: seq<Extension>)

  function PutVector8(s: seq<byte>): seq<byte>
    requires |s| < 256
  {
    [|s| as byte] + s
  }

  function PutVector16(s: seq<byte>): seq<byte> {
    PutU16(|s|) + s
  }

  function PutExtensions(extensions: seq<Extension>): seq<byte> {
    if extensions == [] then []
    else PutU16(extensions[0].kind) + PutVector16(extensions[0].data) + PutExtensions(extensions[1..])
  }

  /** A server_name extension whose list starts with a host name; `more` is the rest of the list. */
  function ServerName(name: seq<byte>, more: seq<byte>): Extension {
    Extension(0, PutVector16([0 as byte] + PutVector16(name) + more))
  }

  ghost predicate WellFormed(h: Hello) {
    && |h.version| == 2 && |h.random| == 32 && |h.session| <= 32
    && 2 <= |h.ciphers| < 0x10000 && 1 <= |h.compression| < 0x100
    && (forall e :: e in h.extensions ==> e.kind < 0x10000 && |e.data| < 0x10000)
    && |PutExtensions(h.extensions)| < 0x10000
  }

  ghost function PutBody(h: Hello): seq<byte>
    requires WellFormed(h)
  {
    h.version + h.random + PutVector8(h.session) + PutVector16(h.ciphers) + PutVector8(h.compression)
    + PutVector16(PutExtensions(h.extensions))
  }

  ghost function PutHandshake(h: Hello): seq<byte>
    requires WellFormed(h) && |PutBody(h)| < 0x1000000
  {
    var n := |PutBody(h)|;
    [1 as byte, (n / 0x10000) as byte, (n / 0x100 % 0x100) as byte, (n % 0x100) as byte] + PutBody(h)
  }

  /** One record, of any legacy version, with whatever follows it. */
  ghost function PutRecord(h: Hello, version: seq<byte>, trailing: seq<byte>): seq<byte>
    requires WellFormed(h) && |version| == 2 && |PutBody(h)| + 4 < 0x10000
  {
    [0x16 as byte] + version + PutVector16(PutHandshake(h)) + trailing
  }

  // ---------------------------------------------------------------- the readers against the encoder

  lemma VectorAt8(pre: seq<byte>, v: seq<byte>, post: seq<byte>)
    requires |v| < 256
    ensures Skip8(pre + PutVector8(v) + post, |pre|) == Some(|pre| + |PutVector8(v)|)
  {
    assert (pre + PutVector8(v) + post)[|pre|] == |v| as byte;
  }

  lemma VectorAt16(pre: seq<byte>, v: seq<byte>, post: seq<byte>)
    requires |v| < 0x10000
    ensures var s := pre + PutVector16(v) + post;
            && Skip16(s, |pre|) == Some(|pre| + |PutVector16(v)|) && U16At(s, |pre|) == |v|
            && s[|pre| + 2..|pre| + 2 + |v|] == v
  {
    var s := pre + PutVector16(v) + post;
    assert s[|pre|..|pre| + 2] == PutU16(|v|);
    U16RoundTrip(|v|, s, |pre|);
    Middle(pre + PutU16(|v|), v, post);
    assert s == pre + PutU16(|v|) + v + post;
  }

  /** The extensions come out of the body as they went in. */
  lemma ExtensionsRoundTrip(h: Hello)
    requires WellFormed(h)
    ensures ExtensionsOf(PutBody(h)) == Some(PutExtensions(h.extensions))
  {
    hide PutVector8, PutVector16, Skip8, Skip16, PutExtensions;
    var body := PutBody(h);
    var p1 := h.version + h.random;
    var p2 := p1 + PutVector8(h.session);
    var p3 := p2 + PutVector16(h.ciphers);
    var p4 := p3 + PutVector8(h.compression);
    var e := PutExtensions(h.extensions);
    VectorAt8(p1, h.session, PutVector16(h.ciphers) + PutVector8(h.compression) + PutVector16(e));
    assert body == p1 + PutVector8(h.session) + (PutVector16(h.ciphers) + PutVector8(h.compression) + PutVector16(e));
    VectorAt16(p2, h.ciphers, PutVector8(h.compression) + PutVector16(e));
    assert body == p2 + PutVector16(h.ciphers) + (PutVector8(h.compression) + PutVector16(e));
    VectorAt8(p3, h.compression, PutVector16(e));
    assert body == p3 + PutVector8(h.compression) + PutVector16(e);
    VectorAt16(p4, e, []);
    assert body == p4 + PutVector16(e) + [];
    assert |PutVector16(e)| == 2 + |e| by { VectorSize(e); }
  }

  lemma VectorSize(s: seq<byte>)
    ensures |PutVector16(s)| == 2 + |s|
  {
  }

  lemma OneExtension(e: Extension, rest: seq<byte>)
    requires e.kind < 0x10000 && |e.data| < 0x10000
    ensures var s := PutU16(e.kind) + PutVector16(e.data) + rest;
            FindServerName(s) == if e.kind == 0 then Some(e.data) else FindServerName(rest)
  {
    var s := PutU16(e.kind) + PutVector16(e.data) + rest;
    assert s[0..2] == PutU16(e.kind);
    U16RoundTrip(e.kind, s, 0);
    VectorAt16(PutU16(e.kind), e.data, rest);
    assert s[4..] == e.data + rest;
    assert s[4..][..|e.data|] == e.data && s[4..][|e.data|..] == rest;
  }

  /** The readers find the first server_name extension, behind any others, or none. */
  lemma {:induction false} ServerNameFound(extensions: seq<Extension>, at: nat)
    requires forall e :: e in extensions ==> e.kind < 0x10000 && |e.data| < 0x10000
    requires at <= |extensions| && forall i :: 0 <= i < at ==> extensions[i].kind != 0
    requires at < |extensions| ==> extensions[at].kind == 0
    ensures FindServerName(PutExtensions(extensions)) == if at < |extensions| then Some(extensions[at].data) else None
  {
    if extensions == [] {
    } else {
      OneExtension(extensions[0], PutExtensions(extensions[1..]));
      if at > 0 {
        ServerNameFound(extensions[1..], at - 1);
      }
    }
  }

  /** Both list parsers take the host name out of a list that starts with one. */
  lemma HostNameRoundTrip(name: seq<byte>, more: seq<byte>)
    requires |name| + 3 + |more| < 0x10000
    ensures HostNameIn(ServerName(name, more).data) == Some(name)
    ensures FirstHostName(ServerName(name, more).data) == Some(name)
  {
    var data := ServerName(name, more).data;
    var list := [0 as byte] + PutVector16(name) + more;
    VectorAt16([], list, []);
    assert [] + PutVector16(list) + [] == data;
    assert data[2..2 + |list|] == list;
    VectorAt16([0 as byte], name, more);
    assert list[0] == 0 && U16At(list, 1) == |name| && list[3..3 + |name|] == name;
    assert list[3..][..|name|] == name;
    assert data[2] == list[0] && data[3] == list[1] && data[4] == list[2];
    assert data[5..5 + |name|] == list[3..3 + |name|];
  }

  /** The list as it must start for the QUIC reader: a length that fits, and a host name that does. */
  lemma FirstHostNameMeans(data: seq<byte>, name: seq<byte>)
    ensures FirstHostName(data) == Some(name) <==>
            && |data| >= 5 + |name| && |name| < 0x10000 && |data| >= 2 + U16At(data, 0)
            && data[2] == 0 && data[3..5 + |name|] == PutVector16(name)
  {
    if |data| >= 5 + |name| {
      assert data[3..5 + |name|] == data[3..5] + data[5..5 + |name|];
      assert data[3..5] == [data[3], data[4]];
      if data[3..5 + |name|] == PutVector16(name) {
        assert data[3..5] == PutVector16(name)[..2] && data[5..5 + |name|] == PutVector16(name)[2..];
        U16RoundTrip(|name|, data, 3);
      }
    }
  }

  lemma HandshakeRoundTrip(h: Hello)
    requires WellFormed(h) && |PutBody(h)| < 0x1000000
    ensures BareBody(PutHandshake(h)) == Some(PutBody(h)) && |PutHandshake(h)| == 4 + |PutBody(h)|
    ensures var s := PutHandshake(h);
            s[1] as nat * 0x10000 + s[2] as nat * 0x100 + s[3] as nat == |PutBody(h)|
  {
    hide PutBody;
    var n := |PutBody(h)|;
    assert PutHandshake(h)[4..] == PutBody(h);
    assert n == n / 0x10000 * 0x10000 + n / 0x100 % 0x100 * 0x100 + n % 0x100;
  }

  lemma RecordRoundTrip(h: Hello, version: seq<byte>, trailing: seq<byte>)
    requires WellFormed(h) && |version| == 2 && |PutBody(h)| + 4 < 0x10000
    ensures RecordBody(PutRecord(h, version, trailing)) == Some(PutBody(h))
    ensures HandshakeBody(PutRecord(h, version, trailing)) == Some(PutBody(h))
  {
    BodySize(h);
    hide PutBody, PutHandshake;
    HandshakeRoundTrip(h);
    var hs, data := PutHandshake(h), PutRecord(h, version, trailing);
    VectorAt16([0x16 as byte] + version, hs, trailing);
    assert data[5..5 + |hs|] == hs;
    assert hs[4..4 + |PutBody(h)|] == hs[4..];
  }

  lemma BodySize(h: Hello)
    requires WellFormed(h)
    ensures |PutBody(h)| > 42
  {
  }

  /**
    On every well-formed ClientHello in a single record whose first server_name extension starts with a
    host name, the TCP reader returns the normalised name and the QUIC reader the name itself; the QUIC
    reader does so on the bare message too.
    */
  lemma BothReadersFindTheName(split: string -> Option<string>, h: Hello, at: nat, name: seq<byte>, more: seq<byte>,
                               version: seq<byte>, trailing: seq<byte>)
    requires WellFormed(h) && |version| == 2 && |PutBody(h)| + 4 < 0x10000
    requires at < |h.extensions| && h.extensions[at] == ServerName(name, more)
    requires forall i :: 0 <= i < at ==> h.extensions[i].kind != 0
    ensures HostOf(split, Ascii(name), Sniffed(split, PutRecord(h, version, trailing)))
    ensures Ordinary(name) && split(Ascii(name)).None? ==>
              var host := Sniffed(split, PutRecord(h, version, trailing));
              |host| == |name| && forall i :: 0 <= i < |name| ==> host[i] as int == name[i] as int
    ensures Extracted(PutRecord(h, version, trailing)) == Name(Some(name))
    ensures Extracted(PutHandshake(h)) == Name(Some(name))
  {
    hide WellFormed, ExtensionsOf, FindServerName, HostNameIn, FirstHostName, RecordBody, NormalizeHost;
    NameFits(h, at, name, more);
    RecordRoundTrip(h, version, trailing);
    HandshakeRoundTrip(h);
    ExtensionsRoundTrip(h);
    HelloExtensions(h);
    ServerNameFound(h.extensions, at);
    HostNameRoundTrip(name, more);
    NormalizeMeans(split, Ascii(name));
    if Ordinary(name) && split(Ascii(name)).None? {
      OrdinaryStays(split, name);
    }
    BareInFull(h);
    BodySize(h);
  }

  lemma HelloExtensions(h: Hello)
    requires WellFormed(h)
    ensures forall e :: e in h.extensions ==> e.kind < 0x10000 && |e.data| < 0x10000
  {
  }

  lemma NameFits(h: Hello, at: nat, name: seq<byte>, more: seq<byte>)
    requires WellFormed(h) && at < |h.extensions| && h.extensions[at] == ServerName(name, more)
    ensures |name| + 3 + |more| < 0x10000
  {
    assert h.extensions[at] in h.extensions;
  }

  lemma BareInFull(h: Hello)
    requires WellFormed(h) && |PutBody(h)| < 0x1000000
    ensures HandshakeBody(PutHandshake(h)) == BareBody(PutHandshake(h))
  {
    BodySize(h);
    assert PutHandshake(h)[0] == 1;
  }

  /** Without a server_name extension neither finds a name. */
  lemma NeitherFindsAName(split: string -> Option<string>, h: Hello, version: seq<byte>, trailing: seq<byte>)
    requires WellFormed(h) && |version| == 2 && |PutBody(h)| + 4 < 0x10000
    requires forall i :: 0 <= i < |h.extensions| ==> h.extensions[i].kind != 0
    ensures Sniffed(split, PutRecord(h, version, trailing)) == "" &&
              Extracted(PutRecord(h, version, trailing)) == Name(None)
  {
    hide WellFormed, ExtensionsOf, FindServerName, HostNameIn, FirstHostName, RecordBody, NormalizeHost;
    RecordRoundTrip(h, version, trailing);
    ExtensionsRoundTrip(h);
    HelloExtensions(h);
    ServerNameFound(h.extensions, |h.extensions|);
    BodySize(h);
  }
}
