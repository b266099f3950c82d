/** The heartbeat packet codec (core/internal/heartbeat/packet.go) and the server's answer to a packet
    (core/internal/heartbeat/server.go:62-70). HMAC-SHA256 is an arbitrary function with 32-byte
    results; the packet carries its first 16 bytes (section 5 of RFC 2104). */
module Packets {
  import opened Options

  type byte = b: int | 0 <= b < 256

  type Bytes = seq<byte>

  const MAGIC: Bytes := [0x54, 0x4B, 0x48, 0x42]   // "TKHB"
  const VERSION: byte := 1
  const TYPE_REQ: byte := 1
  const TYPE_REP: byte := 2
  const NAME_LEN := 32
  const MAC_LEN := 16
  const HASH_LEN := 32
  const HEAD_LEN := 4 + 1 + 1 + 4 + 8 + NAME_LEN
  const PACKET_SIZE := HEAD_LEN + MAC_LEN

  /** The keyed hash, of which only the size of its results is known. */
  type Hmac = f: (Bytes, Bytes) -> Bytes | forall k, h :: |f(k, h)| == HASH_LEN
    witness (k: Bytes, h: Bytes) => seq(HASH_LEN, i => 0)

  function Sign(hmac: Hmac, key: Bytes, head: Bytes): (mac: Bytes)
    ensures |mac| == MAC_LEN
  {
    hmac(key, head)[..MAC_LEN]
  }

  datatype Packet = Packet(reply: bool, seqNo: nat, ts: int, name: Bytes)

  /** The field types: uint32 and int64. */
  predicate InRange(p: Packet) {
    p.seqNo < Power(4) && -(Power(8) / 2) <= p.ts < Power(8) / 2
  }

  // ----- names

  predicate NameByte(b: byte) {
    || 'a' as int <= b <= 'z' as int
    || 'A' as int <= b <= 'Z' as int
    || '0' as int <= b <= '9' as int
    || b == '-' as int || b == '_' as int || b == '.' as int || b == '@' as int
  }

  predicate ValidName(n: Bytes) {
    0 < |n| <= NAME_LEN && forall i :: 0 <= i < |n| ==> NameByte(n[i])
  }

  /** A valid name has 1 to 32 bytes, each one of the ASCII codes of - and ., 0 to 9, @ to Z, _ and a to z. */
  lemma ValidNameMeans(n: Bytes)
    ensures ValidName(n) <==> 1 <= |n| <= 32 && forall i :: 0 <= i < |n| ==>
      n[i] in {0x2D, 0x2E, 0x5F} || 0x30 <= n[i] <= 0x39 || 0x40 <= n[i] <= 0x5A || 0x61 <= n[i] <= 0x7A
  {
  }

  function Zeros(n: nat): Bytes { seq(n, i => 0) }

  /** strings.TrimRight(s, "\\x00"). */
  function TrimZeros(s: Bytes): (t: Bytes)
    ensures |t| <= |s| && s == t + Zeros(|s| - |t|)
    ensures t == [] || t[|t| - 1] != 0
  {
    if s == [] || s[|s| - 1] != 0 then s
    else
      var t := TrimZeros(s[..|s| - 1]);
      assert s == s[..|s| - 1] + [0];
      assert Zeros(|s| - |t|) == Zeros(|s| - 1 - |t|) + [0];
      t
  }

  /** A name that does not end in a zero is what remains of it after padding and trimming. */
  lemma {:induction false} TrimPadded(n: Bytes, k: nat)
    requires n != [] && n[|n| - 1] != 0
    ensures TrimZeros(n + Zeros(k)) == n
  {
    var s := n + Zeros(k);
    if k > 0 {
      assert s[..|s| - 1] == n + Zeros(k - 1);
      TrimPadded(n, k - 1);
    } else {
      assert s == n;
    }
  }

  // ----- big-endian numbers

  function Power(width: nat): nat {
    if width == 0 then 1 else 256 * Power(width - 1)
  }

  function BigEndian(v: nat, width: nat): (bs: Bytes)
    ensures |bs| == width
  {
    if width == 0 then [] else BigEndian(v / 256, width - 1) + [v % 256]
  }

  function FromBigEndian(bs: Bytes): (v: nat)
    ensures v < Power(|bs|)
  {
    if bs == [] then 0 else 256 * FromBigEndian(bs[..|bs| - 1]) + bs[|bs| - 1]
  }

  lemma {:induction false} ReadsWritten(v: nat, width: nat)
    requires v < Power(width)
    ensures FromBigEndian(BigEndian(v, width)) == v
  {
    if width > 0 {
      ReadsWritten(v / 256, width - 1);
      assert BigEndian(v, width)[..width - 1] == BigEndian(v / 256, width - 1);
    }
  }

  lemma LastByte(high: nat, low: byte)
    ensures (256 * high + low) / 256 == high && (256 * high + low) % 256 == low
  {
  }

  lemma {:induction false} WritesRead(bs: Bytes)
    ensures BigEndian(FromBigEndian(bs), |bs|) == bs
  {
    if bs != [] {
      var front, low := bs[..|bs| - 1], bs[|bs| - 1];
      WritesRead(front);
      LastByte(FromBigEndian(front), low);
      assert bs == front + [low];
    }
  }

  /** A number is its high bytes, shifted, and its low bytes. */
  lemma {:induction false} ReadsConcat(a: Bytes, b: Bytes)
    ensures FromBigEndian(a + b) == FromBigEndian(a) * Power(|b|) + FromBigEndian(b)
  {
    if b == [] {
      assert a + b == a;
    } else {
      var n := |b| - 1;
      assert (a + b)[..|a + b| - 1] == a + b[..n];
      ReadsConcat(a, b[..n]);
      Shifted(FromBigEndian(a), Power(n), FromBigEndian(b[..n]), b[n]);
    }
  }

  lemma Shifted(x: nat, p: nat, y: nat, z: nat)
    ensures 256 * (x * p + y) + z == x * (256 * p) + (256 * y + z)
  {
  }

  /** The unsigned 32-bit number that stands at position i. */
  function Uint32At(b: Bytes, i: nat): nat
    requires i + 4 <= |b|
  {
    0x100_0000 * b[i] as nat + 0x1_0000 * b[i + 1] as nat + 0x100 * b[i + 2] as nat + b[i + 3] as nat
  }

  lemma ReadsOne(b: byte)
    ensures FromBigEndian([b]) == b
  {
    assert [b][..0] == [];
  }

  lemma ReadsTwo(a: byte, b: byte)
    ensures FromBigEndian([a, b]) == 0x100 * a as nat + b as nat
  {
    assert [a, b] == [a] + [b];
    ReadsConcat([a], [b]);
    ReadsOne(a);
    ReadsOne(b);
    assert Power(1) == 0x100;
  }

  lemma ReadsFour(bs: Bytes)
    requires |bs| == 4
    ensures FromBigEndian(bs) == Uint32At(bs, 0)
  {
    assert bs == [bs[0], bs[1]] + [bs[2], bs[3]];
    ReadsConcat([bs[0], bs[1]], [bs[2], bs[3]]);
    ReadsTwo(bs[0], bs[1]);
    ReadsTwo(bs[2], bs[3]);
    assert Power(2) == 0x1_0000;
  }

  /** Conversions between int64 and uint64: two's complement. */
  function ToUnsigned(ts: int): nat
    requires -(Power(8) / 2) <= ts < Power(8) / 2
  {
    if ts < 0 then ts + Power(8) else ts
  }

  function ToSigned(v: nat): (ts: int)
    requires v < Power(8)
    ensures -(Power(8) / 2) <= ts < Power(8) / 2 && ToUnsigned(ts) == v
  {
    if v < Power(8) / 2 then v else v - Power(8)
  }

  lemma SignedRoundTrip(ts: int)
    requires -(Power(8) / 2) <= ts < Power(8) / 2
    ensures ToUnsigned(ts) < Power(8) && ToSigned(ToUnsigned(ts)) == ts
  {
    assert Power(8) % 2 == 0;
  }

  // ----- the codec

  /** The bytes of a packet before its signature. */
  function Head(p: Packet): (head: Bytes)
    requires InRange(p) && |p.name| <= NAME_LEN
    ensures |head| == HEAD_LEN
  {
    MAGIC + [VERSION] + [if p.reply then TYPE_REP else TYPE_REQ] +
    BigEndian(p.seqNo, 4) + BigEndian(ToUnsigned(p.ts), 8) +
    p.name + Zeros(NAME_LEN - |p.name|)
  }

  function Encoded(hmac: Hmac, key: Bytes, p: Packet): (b: Bytes)
    requires InRange(p) && |p.name| <= NAME_LEN
    ensures |b| == PACKET_SIZE
  {
    Head(p) + Sign(hmac, key, Head(p))
  }

  /** copy(b[at:], s). */
  method CopyAt(b: array<byte>, at: nat, s: Bytes)
    requires at + |s| <= b.Length
    modifies b
    ensures b[..] == old(b[..at]) + s + old(b[at + |s|..])
  {
    for i := 0 to |s|
      invariant b[..at] == old(b[..at])
      invariant b[at..at + i] == s[..i]
      invariant b[at + i..] == old(b[at + i..])
    {
      b[at + i] := s[i];
      assert b[at..at + i + 1] == b[at..at + i] + [s[i]];
    }
    assert b[..] == b[..at] + b[at..at + |s|] + b[at + |s|..];
  }

  /** encode fills a fixed-size buffer field by field. */
  method Encode(hmac: Hmac, key: Bytes, p: Packet) returns (r: Option<Bytes>)
    requires InRange(p)
    ensures r == if ValidName(p.name) then Some(Encoded(hmac, key, p)) else None
    ensures r.Some? ==> Signed(hmac, key, r.value)
  {
    if !ValidName(p.name) {
      return None;
    }
    var b := new byte[PACKET_SIZE](i => 0);
    assert b[..] == Zeros(PACKET_SIZE);
    WriteHead(b, p);
    CopyAt(b, HEAD_LEN, Sign(hmac, key, b[..HEAD_LEN]));
    assert b[..] == Encoded(hmac, key, p);
    EncodesTo(hmac, key, p);
    r := Some(b[..]);
  }

  method WriteHead(b: array<byte>, p: Packet)
    requires InRange(p) && |p.name| <= NAME_LEN && b.Length == PACKET_SIZE && b[..] == Zeros(PACKET_SIZE)
    modifies b
    ensures b[..HEAD_LEN] == Head(p) && b[HEAD_LEN..] == Zeros(MAC_LEN)
  {
    var kind := if p.reply then TYPE_REP else TYPE_REQ;
    Begin(b, kind);
    ghost var start := MAGIC + [VERSION] + [kind];
    WriteNumbers(b, start, BigEndian(p.seqNo, 4), BigEndian(ToUnsigned(p.ts), 8));
    ghost var numbers := start + BigEndian(p.seqNo, 4) + BigEndian(ToUnsigned(p.ts), 8);
    CopyAt(b, 18, p.name);
    assert b[..] == numbers + p.name + Zeros(PACKET_SIZE - 18 - |p.name|);
    SplitZeros(NAME_LEN - |p.name|, MAC_LEN);
    assert b[..] == Head(p) + Zeros(MAC_LEN);
  }

  lemma SplitZeros(m: nat, n: nat)
    ensures Zeros(m + n) == Zeros(m) + Zeros(n)
  {
  }

  /** The sequence number and the timestamp. */
  method WriteNumbers(b: array<byte>, ghost start: Bytes, seqNo: Bytes, ts: Bytes)
    requires b.Length == PACKET_SIZE && |start| == 6 && |seqNo| == 4 && |ts| == 8
    requires b[..] == start + Zeros(PACKET_SIZE - 6)
    modifies b
    ensures b[..] == start + seqNo + ts + Zeros(PACKET_SIZE - 18)
  {
    CopyAt(b, 6, seqNo);
    assert b[..] == start + seqNo + Zeros(PACKET_SIZE - 10);
    CopyAt(b, 10, ts);
  }

  /** The fields before the sequence number. */
  method Begin(b: array<byte>, kind: byte)
    requires b.Length == PACKET_SIZE && b[..] == Zeros(PACKET_SIZE)
    modifies b
    ensures b[..] == MAGIC + [VERSION] + [kind] + Zeros(PACKET_SIZE - 6)
  {
    CopyAt(b, 0, MAGIC);
    assert b[..] == MAGIC + Zeros(PACKET_SIZE - 4);
    b[4] := VERSION;
    assert b[..] == MAGIC + [VERSION] + Zeros(PACKET_SIZE - 5);
    b[5] := kind;
  }

  function Decode(hmac: Hmac, key: Bytes, b: Bytes): (r: Option<Packet>)
    ensures r.Some? ==> InRange(r.value) && ValidName(r.value.name)
  {
    if |b| != PACKET_SIZE || b[..4] != MAGIC || b[4] != VERSION then None
    else if b[HEAD_LEN..] != Sign(hmac, key, b[..HEAD_LEN]) then None
    else
      var name := TrimZeros(b[18..18 + NAME_LEN]);
      if !ValidName(name) || (b[5] != TYPE_REQ && b[5] != TYPE_REP) then None
      else
        assert |b[6..10]| == 4 && |b[10..18]| == 8;
        Some(Packet(b[5] == TYPE_REP, FromBigEndian(b[6..10]), ToSigned(FromBigEndian(b[10..18])), name))
  }

  /** Where the fields are. */
  lemma HeadFields(p: Packet)
    requires InRange(p) && |p.name| <= NAME_LEN
    ensures var h := Head(p);
      && h[..4] == MAGIC && h[4] == VERSION && h[5] == (if p.reply then TYPE_REP else TYPE_REQ)
      && h[6..10] == BigEndian(p.seqNo, 4) && h[10..18] == BigEndian(ToUnsigned(p.ts), 8)
      && h[18..] == p.name + Zeros(NAME_LEN - |p.name|)
  {
    var start := MAGIC + [VERSION] + [if p.reply then TYPE_REP else TYPE_REQ];
    var s, t, n := BigEndian(p.seqNo, 4), BigEndian(ToUnsigned(p.ts), 8), p.name + Zeros(NAME_LEN - |p.name|);
    assert |start| == 6 && |s| == 4 && |t| == 8;
    assert Head(p) == start + s + t + n;
    assert (start + s + t + n)[..6] == start;
    assert (start + s + t + n)[6..10] == s;
    assert (start + s + t + n)[10..18] == t;
    assert (start + s + t + n)[18..] == n;
    assert Head(p)[..4] == start[..4];
  }

  /** Where the fields of an encoded packet are. */
  lemma Fields(hmac: Hmac, key: Bytes, p: Packet)
    requires InRange(p) && |p.name| <= NAME_LEN
    ensures var b := Encoded(hmac, key, p);
      && b[..HEAD_LEN] == Head(p) && b[HEAD_LEN..] == Sign(hmac, key, Head(p))
      && b[..4] == MAGIC && b[4] == VERSION && b[5] == (if p.reply then TYPE_REP else TYPE_REQ)
      && b[6..10] == BigEndian(p.seqNo, 4) && b[10..18] == BigEndian(ToUnsigned(p.ts), 8)
      && b[18..18 + NAME_LEN] == p.name + Zeros(NAME_LEN - |p.name|)
  {
    HeadFields(p);
    SameFields(Encoded(hmac, key, p), Head(p));
  }

  /** A head has its fields where a packet that begins with it has them. */
  lemma SameFields(b: Bytes, h: Bytes)
    requires |h| == HEAD_LEN && |b| == PACKET_SIZE && b[..HEAD_LEN] == h
    ensures b[..4] == h[..4] && b[4] == h[4] && b[5] == h[5]
    ensures b[6..10] == h[6..10] && b[10..18] == h[10..18] && b[18..18 + NAME_LEN] == h[18..]
  {
    assert b == h + b[HEAD_LEN..];
  }

  /** Every packet with a valid name is decoded to itself. */
  lemma DecodeEncode(hmac: Hmac, key: Bytes, p: Packet)
    requires InRange(p) && ValidName(p.name)
    ensures Decode(hmac, key, Encoded(hmac, key, p)) == Some(p)
  {
    Fields(hmac, key, p);
    ReadsWritten(p.seqNo, 4);
    SignedRoundTrip(p.ts);
    ReadsWritten(ToUnsigned(p.ts), 8);
    TrimPadded(p.name, NAME_LEN - |p.name|);
  }

  /** A head is its fields. */
  lemma SplitHead(b: Bytes)
    requires |b| == PACKET_SIZE
    ensures b[..HEAD_LEN] == b[..4] + [b[4]] + [b[5]] + b[6..10] + b[10..18] + b[18..18 + NAME_LEN]
    ensures b == b[..HEAD_LEN] + b[HEAD_LEN..]
  {
    assert b[..6] == b[..4] + [b[4]] + [b[5]];
    assert b[..18] == b[..6] + b[6..10] + b[10..18];
    assert b[..HEAD_LEN] == b[..18] + b[18..18 + NAME_LEN];
  }

  /** Every byte string that is accepted is the encoding of what it decodes to: the form is canonical. */
  lemma EncodeDecode(hmac: Hmac, key: Bytes, b: Bytes)
    requires Decode(hmac, key, b).Some?
    ensures Encoded(hmac, key, Decode(hmac, key, b).value) == b
  {
    var p := Decode(hmac, key, b).value;
    WritesRead(b[6..10]);
    WritesRead(b[10..18]);
    SplitHead(b);
    assert b[..HEAD_LEN] == Head(p);
  }

  // ----- the wire format

  /** The last 16 bytes are the keyed hash of the other 50, cut to 16 bytes. */
  predicate Signed(hmac: Hmac, key: Bytes, b: Bytes) {
    |b| == 66 && b[50..] == hmac(key, b[..50])[..16]
  }

  /** A packet is accepted exactly when it has the size, "TKHB", version 1, type 1 or 2, the signature of its
      own head under the key, and a valid name before zeros. */
  lemma AcceptsExactly(hmac: Hmac, key: Bytes, b: Bytes)
    ensures Decode(hmac, key, b).Some? <==>
      && |b| == 66 && b[..4] == [0x54, 0x4B, 0x48, 0x42] && b[4] == 1 && b[5] in {1, 2}
      && b[50..] == hmac(key, b[..50])[..16]
      && exists name :: ValidName(name) && b[18..50] == name + Zeros(32 - |name|)
  {
    if |b| == 66 {
      NameInField(b[18..50]);
    }
  }

  /** A field holds at most one name. */
  lemma NameInField(field: Bytes)
    requires |field| == 32
    ensures ValidName(TrimZeros(field)) <==> exists name :: ValidName(name) && field == name + Zeros(32 - |name|)
    ensures forall name :: ValidName(name) && field == name + Zeros(32 - |name|) ==> TrimZeros(field) == name
  {
    forall name | ValidName(name) && field == name + Zeros(32 - |name|) ensures TrimZeros(field) == name {
      TrimPadded(name, 32 - |name|);
    }
  }

  /** What is read from an accepted packet, byte by byte. */
  lemma DecodesTo(hmac: Hmac, key: Bytes, b: Bytes)
    requires Decode(hmac, key, b).Some?
    ensures |b| == 66
    ensures var p := Decode(hmac, key, b).value;
      && (p.reply <==> b[5] == 2) && (!p.reply <==> b[5] == 1)
      && p.seqNo == Uint32At(b, 6)
      && p.ts == 0x1_0000_0000 * Uint32At(b, 10) + Uint32At(b, 14)
                 - (if b[10] >= 128 then 0x1_0000_0000_0000_0000 else 0)
      && b[18..50] == p.name + Zeros(32 - |p.name|)
  {
    ReadsFour(b[6..10]);
    ReadsTimestamp(b);
  }

  lemma ReadsTimestamp(b: Bytes)
    requires |b| == 66
    ensures |b[10..18]| == 8
    ensures var ts := 0x1_0000_0000 * Uint32At(b, 10) + Uint32At(b, 14);
      && FromBigEndian(b[10..18]) == ts < Power(8)
      && ToSigned(ts) == ts - if b[10] >= 128 then 0x1_0000_0000_0000_0000 else 0
  {
    assert b[10..18] == b[10..14] + b[14..18];
    ReadsConcat(b[10..14], b[14..18]);
    ReadsFour(b[10..14]);
    ReadsFour(b[14..18]);
    Powers();
  }

  lemma Powers()
    ensures Power(4) == 0x1_0000_0000 && Power(8) == 0x1_0000_0000_0000_0000
  {
    assert Power(2) == 0x1_0000;
    assert Power(6) == 0x1_0000_0000_0000;
  }

  /** What is written for a packet with a valid name. */
  lemma EncodesTo(hmac: Hmac, key: Bytes, p: Packet)
    requires InRange(p) && ValidName(p.name)
    ensures var b := Encoded(hmac, key, p);
      && Signed(hmac, key, b) && b[..4] == [0x54, 0x4B, 0x48, 0x42] && b[4] == 1
      && b[5] == (if p.reply then 2 else 1) && b[18..50] == p.name + Zeros(32 - |p.name|)
  {
    DecodeEncode(hmac, key, p);
    AcceptsExactly(hmac, key, Encoded(hmac, key, p));
    DecodesTo(hmac, key, Encoded(hmac, key, p));
  }

  // ----- the server's answer

  /** One datagram at the server: the client it notes and the reply it sends, or None when it is silent. */
  method Respond(hmac: Hmac, key: Bytes, b: Bytes) returns (r: Option<(Bytes, Bytes)>)
    ensures r == match Decode(hmac, key, b)
                 case Some(p) => if p.reply then None else Some((p.name, Encoded(hmac, key, p.(reply := true))))
                 case None => None
    ensures r.Some? ==> Signed(hmac, key, b) && b[5] == 1 && Signed(hmac, key, r.value.1) && r.value.1[5] == 2
    ensures r.None? ==> Decode(hmac, key, b).None? || b[5] == 2
  {
    if Decode(hmac, key, b).Some? {
      AcceptsExactly(hmac, key, b);
      DecodesTo(hmac, key, b);
      EncodesTo(hmac, key, Decode(hmac, key, b).value.(reply := true));
    }
    var p := Decode(hmac, key, b);
    if p.None? || p.value.reply {
      return None;
    }
    var reply := Encode(hmac, key, Packet(true, p.value.seqNo, p.value.ts, p.value.name));
    r := Some((p.value.name, reply.value));
  }

  /** The reply to a request is as long as the request, differs from it only in the type byte and the
      signature, carries its sequence number, timestamp and name, and is itself never answered. */
  lemma ReplyEchoes(hmac: Hmac, key: Bytes, b: Bytes)
    requires Decode(hmac, key, b).Some? && !Decode(hmac, key, b).value.reply
    ensures var p := Decode(hmac, key, b).value;
      var reply := Encoded(hmac, key, p.(reply := true));
      && |reply| == |b|
      && Decode(hmac, key, reply) == Some(p.(reply := true))
      && (forall i :: 0 <= i < HEAD_LEN && i != 5 ==> reply[i] == b[i])
  {
    var p := Decode(hmac, key, b).value;
    EncodeDecode(hmac, key, b);
    DecodeEncode(hmac, key, p.(reply := true));
  }
}
