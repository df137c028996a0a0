/**
  The way to the ClientHello in a QUIC Initial packet: variable-length integers (section 16 of RFC 9000),
  the long header (section 17.2.2) and the CRYPTO frames (section 19.6). Removing the packet protection is
  not part of this model and enters as a parameter.
  */
module QuicInitial {
  import opened Text
  import opened Bytes
  import opened ClientHello

  // ---------------------------------------------------------------- variable-length integers

  function BigEndian(s: seq<byte>): nat {
    if s == [] then 0 else BigEndian(s[..|s| - 1]) * 256 + s[|s| - 1] as nat
  }

  function PutBigEndian(v: nat, size: nat): (r: seq<byte>)
    ensures |r| == size
  {
    if size == 0 then [] else PutBigEndian(v / 256, size - 1) + [(v % 256) as byte]
  }

  function Power256(n: nat): nat {
    if n == 0 then 1 else 256 * Power256(n - 1)
  }

  lemma {:induction false} BigEndianRoundTrip(v: nat, size: nat)
    requires v < Power256(size)
    ensures BigEndian(PutBigEndian(v, size)) == v
  {
    if size == 0 {
    } else {
      BigEndianRoundTrip(v / 256, size - 1);
      assert PutBigEndian(v, size)[..size - 1] == PutBigEndian(v / 256, size - 1);
    }
  }

  /** The sizes by the two high bits of the first byte. */
  function SizeOf(first: byte): nat {
    [1, 2, 4, 8][first as nat / 64]
  }

  /** readVarint: the value and the number of bytes, which is 0 when the buffer is too short. */
  function ReadVarint(buf: seq<byte>): (r: (nat, nat))
    ensures r.1 <= |buf|
  {
    if buf == [] || |buf| < SizeOf(buf[0]) then (0, 0)
    else (BigEndian([(buf[0] as nat % 64) as byte] + buf[1..SizeOf(buf[0])]), SizeOf(buf[0]))
  }

  /** The encoding in 2^k bytes, for k from 0 to 3. */
  function PutVarint(v: nat, k: nat): seq<byte>
    requires k < 4 && FitsVarint(v, k)
  {
    var s := PutBigEndian(v, [1, 2, 4, 8][k]);
    FirstSmall(v, [1, 2, 4, 8][k]);
    [(s[0] as nat + 64 * k) as byte] + s[1..]
  }

  predicate FitsVarint(v: nat, k: nat)
    requires k < 4
  {
    v < 64 * Power256([0, 1, 3, 7][k])
  }

  lemma {:induction false} FirstSmall(v: nat, size: nat)
    requires size > 0 && v < 64 * Power256(size - 1)
    ensures PutBigEndian(v, size)[0] < 64
  {
    if size > 1 {
      FirstSmall(v / 256, size - 1);
    } else {
      assert PutBigEndian(v, 1) == PutBigEndian(v / 256, 0) + [(v % 256) as byte];
    }
  }

  /** Every integer below 2^62 comes back from each of its encodings, whatever follows. */
  lemma VarintRoundTrip(v: nat, k: nat, rest: seq<byte>)
    requires k < 4 && FitsVarint(v, k)
    ensures ReadVarint(PutVarint(v, k) + rest) == (v, |PutVarint(v, k)|) && |PutVarint(v, k)| == [1, 2, 4, 8][k]
  {
    hide BigEndian, PutBigEndian;
    var size := [1, 2, 4, 8][k];
    var s, put := PutBigEndian(v, size), PutVarint(v, k);
    FirstSmall(v, size);
    var buf := put + rest;
    assert buf[0] as nat == s[0] as nat + 64 * k;
    assert buf[0] as nat / 64 == k && buf[0] as nat % 64 == s[0] as nat;
    assert [(buf[0] as nat % 64) as byte] + buf[1..size] == s;
    assert Power256(size) == 256 * Power256(size - 1);
    BigEndianRoundTrip(v, size);
  }

  // ---------------------------------------------------------------- CRYPTO frames

  const PADDING: byte := 0x00
  const CRYPTO: byte := 0x06

  /** The data of the CRYPTO frame at the start of `s` and the frames after it, if the guards let it through. */
  function CryptoAt(s: seq<byte>): Option<(nat, nat)> {
    if s == [] then None
    else
      var (_, n) := ReadVarint(s[1..]);
      if n == 0 then None
      else
        var (length, m) := ReadVarint(s[1 + n..]);
        if m == 0 || |s| - 1 - n < length then None else Some((1 + n + m, length))
  }

  /**
    What the frames yield: the name in the first CRYPTO frame that has one, unless a frame is reached before it whose
    data does not fit, as the guard measures from before the length field, or whose message ends early.
    */
  function InFrames(s: seq<byte>): Outcome
    decreases |s|
  {
    if s == [] then Name(None)
    else if s[0] == PADDING then InFrames(s[1..])
    else if s[0] != CRYPTO || CryptoAt(s).None? then Name(None)
    else
      var (at, length) := CryptoAt(s).value;
      if |s| < at + length then OutOfRange
      else if Extracted(s[at..at + length]) != Name(None) then Extracted(s[at..at + length])
      else InFrames(s[at + length..])
  }

  /** The two integers of a CRYPTO frame whose type stands at `from`: where its data starts, and its length. */
  method ReadCrypto(plaintext: seq<byte>, from: nat) returns (frame: Option<(nat, nat)>)
    requires from < |plaintext|
    ensures frame == match CryptoAt(plaintext[from..])
                     case None => None
                     case Some((at, length)) => Some((from + at, length))
  {
    hide ReadVarint;
    ghost var s := plaintext[from..];
    var off := from + 1;
    assert plaintext[off..] == s[1..];
    var (_, n) := ReadVarint(plaintext[off..]);
    if n == 0 {
      return None;
    }
    off := off + n;
    assert plaintext[off..] == s[1 + n..];
    var (length, m) := ReadVarint(plaintext[off..]);
    if m == 0 || |plaintext| - off < length {
      return None;
    }
    frame := Some((off + m, length));
  }

  /** What the frame at `from` contributes. */
  lemma CryptoStep(plaintext: seq<byte>, from: nat, start: nat, length: nat)
    requires from < |plaintext| && plaintext[from] == CRYPTO
    requires start >= from && CryptoAt(plaintext[from..]) == Some((start - from, length))
    ensures from < start
    ensures InFrames(plaintext[from..]) ==
            if |plaintext| < start + length then OutOfRange
            else if Extracted(plaintext[start..start + length]) != Name(None)
            then Extracted(plaintext[start..start + length])
            else InFrames(plaintext[start + length..])
  {
    hide ReadVarint, Extracted;
    var s := plaintext[from..];
    var at := start - from;
    if start + length <= |plaintext| {
      assert s[at..at + length] == plaintext[start..start + length];
      assert s[at + length..] == plaintext[start + length..];
    }
  }

  /** parseCryptoFrames. */
  method ParseCryptoFrames(plaintext: seq<byte>) returns (r: Outcome)
    ensures r == InFrames(plaintext)
  {
    hide CryptoAt, Extracted;
    var off := 0;
    assert plaintext[0..] == plaintext;
    while off < |plaintext|
      invariant off <= |plaintext|
      invariant InFrames(plaintext) == InFrames(plaintext[off..])
    {
      var frameType := plaintext[off];
      if frameType == PADDING {
        off := SkipPadding(plaintext, off);
      } else if frameType == CRYPTO {
        var frame := ReadCrypto(plaintext, off);
        if frame.None? {
          return Name(None);
        }
        var (start, length) := frame.value;
        CryptoStep(plaintext, off, start, length);
        if |plaintext| < start + length {
          return OutOfRange;
        }
        r := ExtractSNIFromClientHello(plaintext[start..start + length]);
        if r != Name(None) {
          return;
        }
        off := start + length;
      } else {
        return Name(None);
      }
    }
    r := Name(None);
  }

  /** A padding frame, and the inner loop over those that follow. */
  method SkipPadding(plaintext: seq<byte>, from: nat) returns (off: nat)
    requires from < |plaintext| && plaintext[from] == PADDING
    ensures from < off <= |plaintext|
    ensures InFrames(plaintext[off..]) == InFrames(plaintext[from..])
  {
    hide CryptoAt, Extracted, InFrames;
    PaddingStep(plaintext, from);
    off := from + 1;
    while off < |plaintext| && plaintext[off] == PADDING
      invariant from < off <= |plaintext|
      invariant InFrames(plaintext[off..]) == InFrames(plaintext[from..])
    {
      PaddingStep(plaintext, off);
      off := off + 1;
    }
  }

  lemma PaddingStep(plaintext: seq<byte>, from: nat)
    requires from < |plaintext| && plaintext[from] == PADDING
    ensures InFrames(plaintext[from..]) == InFrames(plaintext[from + 1..])
  {
    hide CryptoAt, Extracted;
    assert plaintext[from..][1..] == plaintext[from + 1..];
  }

  /** The guard lets a frame through whose data ends one byte behind the plaintext. */
  lemma GuardTooEarly()
    ensures InFrames([0x06, 0, 1]) == OutOfRange
  {
    var s: seq<byte> := [0x06, 0, 1];
    assert s[1..] == [0, 1] && s[1 + 1..] == [1];
    VarintRoundTrip(0, 0, [1]);
    VarintRoundTrip(1, 0, []);
    OneByte(0);
    OneByte(1);
    assert PutVarint(0, 0) + [1] == [0, 1] && PutVarint(1, 0) + [] == [1];
  }

  lemma OneByte(v: nat)
    requires v < 64
    ensures PutVarint(v, 0) == [v as byte]
  {
    assert PutBigEndian(v, 1) == PutBigEndian(v / 256, 0) + [(v % 256) as byte];
  }

  /** What a client puts in an Initial packet: padding, and data of the handshake with both integers in any size. */
  datatype Frame = Padding | Crypto(offset: nat, offsetSize: nat, data: seq<byte>, lengthSize: nat)

  ghost predicate FrameFits(f: Frame) {
    f.Crypto? ==>
      && f.offsetSize < 4 && FitsVarint(f.offset, f.offsetSize)
      && f.lengthSize < 4 && FitsVarint(|f.data|, f.lengthSize)
  }

  ghost function PutFrame(f: Frame): seq<byte>
    requires FrameFits(f)
  {
    match f
    case Padding => [0x00]
    case Crypto(offset, offsetSize, data, lengthSize) =>
      [0x06] + PutVarint(offset, offsetSize) + PutVarint(|data|, lengthSize) + data
  }

  ghost function PutFrames(frames: seq<Frame>): seq<byte>
    requires forall f :: f in frames ==> FrameFits(f)
  {
    if frames == [] then [] else PutFrame(frames[0]) + PutFrames(frames[1..])
  }

  lemma CryptoFrameRead(f: Frame, rest: seq<byte>)
    requires FrameFits(f) && f.Crypto?
    ensures var s := PutFrame(f) + rest;
            && CryptoAt(s) == Some((|PutFrame(f)| - |f.data|, |f.data|)) && |f.data| < |PutFrame(f)|
            && s[|PutFrame(f)| - |f.data|..|PutFrame(f)|] == f.data && s[|PutFrame(f)|..] == rest
  {
    hide ReadVarint, PutVarint, FitsVarint, CryptoAt;
    var a, b := PutVarint(f.offset, f.offsetSize), PutVarint(|f.data|, f.lengthSize);
    var s, tail := PutFrame(f) + rest, f.data + rest;
    VarintRoundTrip(f.offset, f.offsetSize, b + tail);
    VarintRoundTrip(|f.data|, f.lengthSize, tail);
    assert s == [0x06] + (a + (b + tail));
    CryptoParts(a, b, tail, f.offset, |f.data|);
    assert PutFrame(f) == ([0x06] + a + b) + f.data;
    Behind([0x06] + a + b, f.data);
    Behind(PutFrame(f), rest);
    assert s[..|PutFrame(f)|] == PutFrame(f);
  }

  lemma CryptoParts(a: seq<byte>, b: seq<byte>, tail: seq<byte>, offset: nat, length: nat)
    requires ReadVarint(a + (b + tail)) == (offset, |a|) && a != []
    requires ReadVarint(b + tail) == (length, |b|) && b != [] && length <= |tail|
    ensures CryptoAt([0x06] + (a + (b + tail))) == Some((1 + |a| + |b|, length))
  {
    hide ReadVarint;
    var s := [0x06] + (a + (b + tail));
    Behind([0x06], a + (b + tail));
    Behind([0x06] + a, b + tail);
    assert s == ([0x06] + a) + (b + tail);
  }

  lemma Behind(a: seq<byte>, b: seq<byte>)
    ensures (a + b)[|a|..] == b
  {
  }

  /** What one encoded frame contributes to those behind it. */
  lemma FrameStep(f: Frame, rest: seq<byte>)
    requires FrameFits(f)
    ensures InFrames(PutFrame(f) + rest) == if Silent(f) then InFrames(rest) else Extracted(f.data)
  {
    hide Extracted, CryptoAt, FrameFits;
    var s := PutFrame(f) + rest;
    if f.Padding? {
      assert s[0] == 0x00 && s[1..] == rest;
    } else {
      assert s[0] == 0x06;
      CryptoFrameRead(f, rest);
    }
  }

  /** A frame without a name, that is read in bounds. */
  predicate Silent(f: Frame) {
    f.Padding? || Extracted(f.data) == Name(None)
  }

  /**
    Behind padding and frames without a name, in any sizes of the integers, what the first other frame holds is what
    is found: its name, unless its message ends early.
    */
  lemma {:induction false} FramesRoundTrip(frames: seq<Frame>, at: nat)
    requires forall f :: f in frames ==> FrameFits(f)
    requires at <= |frames| && forall i :: 0 <= i < at ==> Silent(frames[i])
    requires at < |frames| ==> !Silent(frames[at])
    ensures InFrames(PutFrames(frames)) == if at < |frames| then Extracted(frames[at].data) else Name(None)
    decreases |frames|
  {
    hide Extracted, FrameFits, InFrames, PutFrame;
    if frames == [] {
      NoFrames();
    } else {
      FrameStep(frames[0], PutFrames(frames[1..]));
      if at > 0 {
        FramesRoundTrip(frames[1..], at - 1);
      }
    }
  }

  lemma NoFrames()
    ensures InFrames([]) == Name(None)
  {
  }

  // ---------------------------------------------------------------- the long header

  /** Where the protected part starts, how long it is, and the destination connection id. */
  datatype Header = Header(off: nat, length: nat, dcid: seq<byte>)

  /** readConnectionID: the id and where it ends. */
  function ReadConnectionID(data: seq<byte>, off: nat): Option<(seq<byte>, nat)> {
    if |data| < off + 1 || |data| < off + 1 + data[off] as nat then None
    else Some((data[off + 1..off + 1 + data[off] as nat], off + 1 + data[off] as nat))
  }

  /** A version 1 packet with the long header and the Initial type. */
  predicate Initial(data: seq<byte>) {
    && |data| >= 5 && data[0] >= 0x80 && data[0] as nat / 16 % 4 == 0
    && data[1] == 0 && data[2] == 0 && data[3] == 0 && data[4] == 1
  }

  function ReadHeader(data: seq<byte>): Option<Header> {
    if !Initial(data) then None
    else match ReadConnectionID(data, 5)
      case None => None
      case Some((dcid, next)) =>
        match ReadConnectionID(data, next)
        case None => None
        case Some((_, off)) => ReadLengths(data, off, dcid)
  }

  function ReadLengths(data: seq<byte>, off: nat, dcid: seq<byte>): Option<Header>
    requires off <= |data|
  {
    var (tokenLength, n) := ReadVarint(data[off..]);
    if n == 0 || |data| < off + n + tokenLength then None
    else
      var start := off + n + tokenLength;
      var (length, m) := ReadVarint(data[start..]);
      if m == 0 || |data| < start + m + length then None else Some(Header(start + m, length, dcid))
  }

  /** Removing the protection of the header and the payload; None when the tag does not fit. */
  type Protection = (seq<byte>, Header) -> Option<seq<byte>>

  function InPacket(protection: Protection, data: seq<byte>): Outcome {
    match ReadHeader(data)
    case None => Name(None)
    case Some(header) =>
      match protection(data, header)
      case None => Name(None)
      case Some(plaintext) => InFrames(plaintext)
  }

  /** ExtractSNI. */
  method ExtractSNI(protection: Protection, data: seq<byte>) returns (r: Outcome)
    ensures r == InPacket(protection, data)
  {
    hide ReadVarint, InFrames;
    if |data| < 5 || data[0] < 0x80 {
      return Name(None);
    }
    if data[1] != 0 || data[2] != 0 || data[3] != 0 || data[4] != 1 {
      return Name(None);
    }
    if data[0] as nat / 16 % 4 != 0 {
      return Name(None);
    }
    var id := ReadConnectionID(data, 5);
    if id.None? {
      return Name(None);
    }
    var (dcid, off) := id.value;
    id := ReadConnectionID(data, off);
    if id.None? {
      return Name(None);
    }
    off := id.value.1;
    var (tokenLength, n) := ReadVarint(data[off..]);
    if n == 0 || |data| < off + n + tokenLength {
      return Name(None);
    }
    off := off + n + tokenLength;
    var (length, m) := ReadVarint(data[off..]);
    if m == 0 || |data| - off < length {
      return Name(None);
    }
    off := off + m;
    if off + length > |data| {
      return Name(None);
    }
    var plaintext := protection(data, Header(off, length, dcid));
    if plaintext.None? {
      return Name(None);
    }
    r := ParseCryptoFrames(plaintext.value);
  }

  /** A packet as section 17.2.2 lays it out, up to the protected part, and whatever is coalesced after it. */
  ghost function PutHeader(low: nat, dcid: seq<byte>, scid: seq<byte>, token: seq<byte>, tokenSize: nat, length: nat,
      lengthSize: nat): seq<byte>
    requires low < 16 && |dcid| <= 20 && |scid| <= 20 && tokenSize < 4 && lengthSize < 4
    requires FitsVarint(|token|, tokenSize) && FitsVarint(length, lengthSize)
  {
    [(0xC0 + low) as byte, 0, 0, 0, 1] + PutVector8(dcid) + PutVector8(scid) + (PutVarint(|token|, tokenSize) + token) +
        PutVarint(length, lengthSize)
  }

  lemma ConnectionIDAt(pre: seq<byte>, id: seq<byte>, post: seq<byte>)
    requires |id| <= 20
    ensures ReadConnectionID(pre + PutVector8(id) + post, |pre|) == Some((id, |pre| + 1 + |id|))
  {
    var s := pre + PutVector8(id) + post;
    assert s[|pre|] == |id| as byte;
    assert s[|pre| + 1..|pre| + 1 + |id|] == id;
  }

  lemma LengthsAt(pre: seq<byte>, dcid: seq<byte>, token: seq<byte>, tokenSize: nat, body: seq<byte>, lengthSize: nat,
      trailing: seq<byte>)
    requires tokenSize < 4 && lengthSize < 4 && FitsVarint(|token|, tokenSize) && FitsVarint(|body|, lengthSize)
    ensures var t, l := PutVarint(|token|, tokenSize), PutVarint(|body|, lengthSize);
            ReadLengths(pre + (t + token) + l + body + trailing, |pre|, dcid) ==
            Some(Header(|pre + (t + token) + l|, |body|, dcid))
  {
    hide ReadVarint, PutVarint, FitsVarint;
    var t, l := PutVarint(|token|, tokenSize), PutVarint(|body|, lengthSize);
    var data := pre + (t + token) + l + body + trailing;
    VarintRoundTrip(|token|, tokenSize, token + l + body + trailing);
    assert data[|pre|..] == t + (token + l + body + trailing);
    VarintRoundTrip(|body|, lengthSize, body + trailing);
    assert data[|pre| + |t| + |token|..] == l + (body + trailing);
  }

  lemma IDsAt(first: seq<byte>, dcid: seq<byte>, scid: seq<byte>, rest: seq<byte>)
    requires |dcid| <= 20 && |scid| <= 20
    ensures var data := first + PutVector8(dcid) + PutVector8(scid) + rest;
            && ReadConnectionID(data, |first|) == Some((dcid, |first + PutVector8(dcid)|))
            && ReadConnectionID(data, |first + PutVector8(dcid)|) ==
               Some((scid, |first + PutVector8(dcid) + PutVector8(scid)|))
  {
    hide PutVector8, ReadConnectionID;
    var data := first + PutVector8(dcid) + PutVector8(scid) + rest;
    IdSize(dcid);
    IdSize(scid);
    ConnectionIDAt(first, dcid, PutVector8(scid) + rest);
    assert data == first + PutVector8(dcid) + (PutVector8(scid) + rest);
    ConnectionIDAt(first + PutVector8(dcid), scid, rest);
  }

  /** The reader finds the protected part and the connection id exactly where they were put. */
  lemma HeaderRoundTrip(low: nat, dcid: seq<byte>, scid: seq<byte>, token: seq<byte>, tokenSize: nat, body: seq<byte>,
      lengthSize: nat, trailing: seq<byte>)
    requires low < 16 && |dcid| <= 20 && |scid| <= 20 && tokenSize < 4 && lengthSize < 4
    requires FitsVarint(|token|, tokenSize) && FitsVarint(|body|, lengthSize)
    ensures var header := PutHeader(low, dcid, scid, token, tokenSize, |body|, lengthSize);
            && ReadHeader(header + body + trailing) == Some(Header(|header|, |body|, dcid))
            && (header + body + trailing)[|header|..|header| + |body|] == body
  {
    hide ReadVarint, PutVarint, PutVector8, ReadConnectionID, FitsVarint, ReadLengths, Initial;
    var header := PutHeader(low, dcid, scid, token, tokenSize, |body|, lengthSize);
    var data := header + body + trailing;
    var first := [(0xC0 + low) as byte, 0, 0, 0, 1];
    var pre := first + PutVector8(dcid) + PutVector8(scid);
    var t, l := PutVarint(|token|, tokenSize), PutVarint(|body|, lengthSize);
    IDsAt(first, dcid, scid, t + token + l + body + trailing);
    assert data == pre + (t + token + l + body + trailing);
    LengthsAt(pre, dcid, token, tokenSize, body, lengthSize, trailing);
    assert data == pre + (t + token) + l + body + trailing;
    FirstByte(data, low);
    Middle(header, body, trailing);
  }

  lemma IdSize(id: seq<byte>)
    requires |id| <= 20
    ensures |PutVector8(id)| == 1 + |id|
  {
  }

  lemma FirstByte(data: seq<byte>, low: nat)
    requires low < 16 && |data| >= 5 && data[..5] == [(0xC0 + low) as byte, 0, 0, 0, 1]
    ensures Initial(data)
  {
    assert data[0] == data[..5][0] && data[1] == data[..5][1] && data[2] == data[..5][2] && data[3] == data[..5][3] &&
        data[4] == data[..5][4];
  }

  /**
    A whole packet: if the protection gives back the client's frames, then what the first frame holds that is not
    silent is found, such as the name of its ClientHello, behind any connection ids and token.
    */
  lemma NameInInitial(protection: Protection, low: nat, dcid: seq<byte>, scid: seq<byte>, token: seq<byte>,
      tokenSize: nat, body: seq<byte>, lengthSize: nat, trailing: seq<byte>, frames: seq<Frame>, at: nat)
    requires low < 16 && |dcid| <= 20 && |scid| <= 20 && tokenSize < 4 && lengthSize < 4
    requires FitsVarint(|token|, tokenSize) && FitsVarint(|body|, lengthSize)
    requires forall f :: f in frames ==> FrameFits(f)
    requires at < |frames| && forall i :: 0 <= i < at ==> Silent(frames[i])
    requires !Silent(frames[at])
    requires var header := PutHeader(low, dcid, scid, token, tokenSize, |body|, lengthSize);
             protection(header + body + trailing, Header(|header|, |body|, dcid)) == Some(PutFrames(frames))
    ensures var header := PutHeader(low, dcid, scid, token, tokenSize, |body|, lengthSize);
            InPacket(protection, header + body + trailing) == Extracted(frames[at].data)
  {
    hide ReadHeader, PutHeader, InFrames, Extracted, FrameFits, FitsVarint;
    HeaderRoundTrip(low, dcid, scid, token, tokenSize, body, lengthSize, trailing);
    FramesRoundTrip(frames, at);
  }
}
