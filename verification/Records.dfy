/**
 The record format shared by the log and the snapshot:
 length (4), CRC (4), then the payload of type (1), version (8),
 expiry (8), key length (2), key and value.
 */
module Records {
  import opened Bytes
  import opened Crc32
  import opened Lww

  const TYPE_SET: Byte := 1
  const TYPE_DELETE: Byte := 2
  const MAX_KEY := 65535

  datatype Record = Record(recType: Byte, key: Key, value: Value, version: nat, expiresAt: nat)

  /** Every field fits its width. */
  predicate Storable(r: Record)
  {
    && |r.key| <= MAX_KEY
    && 19 + |r.key| + |r.value| < 0x1_0000_0000
    && r.version < 0x1_0000_0000_0000_0000
    && r.expiresAt < 0x8000_0000_0000_0000
  }

  function Head(r: Record): (h: seq<Byte>)
    ensures |h| == 19
  {
    [r.recType] + BigEndian(r.version, 8) + BigEndian(r.expiresAt, 8) + BigEndian(|r.key|, 2)
  }

  function Payload(r: Record): (p: seq<Byte>)
    ensures |p| == 19 + |r.key| + |r.value|
  {
    Head(r) + r.key + r.value
  }

  function Frame(p: seq<Byte>): (f: seq<Byte>)
    ensures |f| == 8 + |p|
  {
    BigEndian(|p|, 4) + BigEndian(Checksum(p), 4) + p
  }

  function Encode(r: Record): seq<Byte>
  {
    Frame(Payload(r))
  }

  function EncodeAll(rs: seq<Record>): seq<Byte>
  {
    if rs == [] then [] else Encode(rs[0]) + EncodeAll(rs[1..])
  }

  lemma {:induction false} EncodeAllConcat(a: seq<Record>, b: seq<Record>)
    ensures EncodeAll(a + b) == EncodeAll(a) + EncodeAll(b)
  {
    hide Encode;
    if a == [] {
      assert a + b == b;
    } else {
      assert (a + b)[1..] == a[1..] + b;
      EncodeAllConcat(a[1..], b);
    }
  }

  lemma EncodeAllSnoc(rs: seq<Record>, r: Record)
    ensures EncodeAll(rs + [r]) == EncodeAll(rs) + Encode(r)
  {
    hide Encode;
    EncodeAllConcat(rs, [r]);
    assert [r][1..] == [];
    assert EncodeAll([r]) == Encode(r) + [];
  }

  // ------------------------------------------------------------- reading

  /** How a read loop ends: normally, or with one of the errors of wal.go. */
  datatype Status = Complete | ShortPayload | ChecksumMismatch | CorruptRecord

  datatype Parsed = Parsed(records: seq<Record>, status: Status)

  /** An int64 of nanoseconds; only positive ones become a time. */
  function ReadExpiry(raw: nat): nat
  {
    if raw < 0x8000_0000_0000_0000 then raw else 0
  }

  function DecodePayload(p: seq<Byte>): Option<Record>
  {
    if |p| < 19 then None
    else
      var keyLen := FromBigEndian(p[17..19]);
      if |p| < 19 + keyLen then None
      else Some(Record(
        p[0], p[19..19 + keyLen], p[19 + keyLen..],
        FromBigEndian(p[1..9]), ReadExpiry(FromBigEndian(p[9..17]))))
  }

  function PayloadSize(b: seq<Byte>): nat
    requires |b| >= 8
  {
    FromBigEndian(b[0..4])
  }

  /** One frame from the front of the input: the record, or why there is none. */
  datatype Read = Item(record: Record) | End(status: Status)

  function ReadFrame(b: seq<Byte>): Read
  {
    if |b| < 8 then End(Complete)
    else if |b| < 8 + PayloadSize(b) then End(ShortPayload)
    else
      var p := b[8..8 + PayloadSize(b)];
      if Checksum(p) != FromBigEndian(b[4..8]) then End(ChecksumMismatch)
      else match DecodePayload(p)
        case None => End(CorruptRecord)
        case Some(r) => Item(r)
  }

  function Prepend(rs: seq<Record>, p: Parsed): Parsed
  {
    Parsed(rs + p.records, p.status)
  }

  function Parse(b: seq<Byte>): Parsed
    decreases |b|
  {
    match ReadFrame(b)
    case End(status) => Parsed([], status)
    case Item(r) => Prepend([r], Parse(b[8 + PayloadSize(b)..]))
  }

  // ---------------------------------------------------------- round trip

  lemma SixSlices(t: Byte, v: seq<Byte>, e: seq<Byte>, l: seq<Byte>, key: Key, value: Value, n: nat)
    requires |v| == |e| == 8 && |l| == 2 && n <= |key|
    ensures var p := ([t] + v + e + l) + key + value;
            && p[0] == t && p[1..9] == v && p[9..17] == e && p[17..19] == l
            && p[19..19 + n] == key[..n]
            && p[19 + n..] == key[n..] + value
  {
  }

  lemma PayloadSlices(r: Record, n: nat)
    requires n <= |r.key|
    ensures var p := Payload(r);
            && p[0] == r.recType
            && p[1..9] == BigEndian(r.version, 8)
            && p[9..17] == BigEndian(r.expiresAt, 8)
            && p[17..19] == BigEndian(|r.key|, 2)
            && p[19..19 + n] == r.key[..n]
            && p[19 + n..] == r.key[n..] + r.value
  {
    hide BigEndian;
    SixSlices(r.recType, BigEndian(r.version, 8), BigEndian(r.expiresAt, 8), BigEndian(|r.key|, 2), r.key, r.value, n);
  }

  /** The payload read back, with the key cut where its 16-bit length says. */
  lemma DecodePayloadWraps(r: Record)
    requires r.version < 0x1_0000_0000_0000_0000 && r.expiresAt < 0x8000_0000_0000_0000
    ensures var n := |r.key| % 0x1_0000;
            DecodePayload(Payload(r)) ==
            Some(Record(r.recType, r.key[..n], r.key[n..] + r.value, r.version, r.expiresAt))
  {
    hide BigEndian, FromBigEndian, Payload, Pow256;
    FieldWidths();
    PayloadSlices(r, |r.key| % 0x1_0000);
    BigEndianRoundTrip(r.version, 8);
    BigEndianRoundTrip(r.expiresAt, 8);
    BigEndianWraps(|r.key|, 2);
  }

  /** The key length is unchecked when a snapshot is written: it is lossless exactly up to 65535 bytes. */
  lemma PayloadRoundTripIff(r: Record)
    requires r.version < 0x1_0000_0000_0000_0000 && r.expiresAt < 0x8000_0000_0000_0000
    ensures DecodePayload(Payload(r)) == Some(r) <==> |r.key| <= MAX_KEY
  {
    DecodePayloadWraps(r);
    var n := |r.key| % 0x1_0000;
    if |r.key| <= MAX_KEY {
      assert r.key[..n] == r.key && r.key[n..] + r.value == r.value;
    } else {
      assert |r.key[..n]| < |r.key|;
    }
  }

  lemma FourSlices(a: seq<Byte>, c: seq<Byte>, p: seq<Byte>, rest: seq<Byte>)
    requires |a| == |c| == 4
    ensures var b := (a + c + p) + rest;
            && b[0..4] == a
            && b[4..8] == c
            && b[8..8 + |p|] == p
            && b[8 + |p|..] == rest
  {
  }

  lemma FrameSlices(p: seq<Byte>, rest: seq<Byte>)
    ensures var b := Frame(p) + rest;
            && b[0..4] == BigEndian(|p|, 4)
            && b[4..8] == BigEndian(Checksum(p), 4)
            && b[8..8 + |p|] == p
            && b[8 + |p|..] == rest
  {
    hide BigEndian, Checksum;
    FourSlices(BigEndian(|p|, 4), BigEndian(Checksum(p), 4), p, rest);
  }

  lemma Field32(x: nat)
    requires x < 0x1_0000_0000
    ensures FromBigEndian(BigEndian(x, 4)) == x
  {
    FieldWidths();
    BigEndianRoundTrip(x, 4);
  }

  lemma ChecksumField(p: seq<Byte>)
    ensures FromBigEndian(BigEndian(Checksum(p), 4)) == Checksum(p)
  {
    ChecksumBound(p);
    Field32(Checksum(p));
  }

  /** A frame at the front of the input is read back whole. */
  lemma ReadFrameOfFrame(p: seq<Byte>, rest: seq<Byte>)
    requires |p| < 0x1_0000_0000
    ensures PayloadSize(Frame(p) + rest) == |p|
    ensures ReadFrame(Frame(p) + rest) ==
            match DecodePayload(p) case None => End(CorruptRecord) case Some(r) => Item(r)
    ensures (Frame(p) + rest)[8 + |p|..] == rest
  {
    hide Frame, BigEndian, FromBigEndian, DecodePayload;
    FrameSlices(p, rest);
    Field32(|p|);
    ChecksumField(p);
  }

  lemma ParseEncoded(r: Record, rest: seq<Byte>)
    requires Storable(r)
    ensures Parse(Encode(r) + rest) == Prepend([r], Parse(rest))
  {
    ReadFrameOfFrame(Payload(r), rest);
    PayloadRoundTripIff(r);
  }

  lemma PrependTwice(r: Record, rs: seq<Record>, p: Parsed)
    requires rs != [] && rs[0] == r
    ensures Prepend([r], Prepend(rs[1..], p)) == Prepend(rs, p)
  {
    assert [r] + (rs[1..] + p.records) == rs + p.records;
  }

  /** Any log of storable records reads back in order, whatever bytes follow it. */
  lemma {:induction false} RoundTrip(rs: seq<Record>, rest: seq<Byte>)
    requires forall i :: 0 <= i < |rs| ==> Storable(rs[i])
    ensures Parse(EncodeAll(rs) + rest) == Prepend(rs, Parse(rest))
  {
    hide Encode, Parse, Storable;
    if rs == [] {
      assert EncodeAll(rs) + rest == rest;
    } else {
      var r, tail := rs[0], EncodeAll(rs[1..]);
      assert (Encode(r) + tail) + rest == Encode(r) + (tail + rest);
      ParseEncoded(r, tail + rest);
      RoundTrip(rs[1..], rest);
      PrependTwice(r, rs, Parse(rest));
    }
  }

  lemma NothingFollows(rs: seq<Record>, s: Status)
    ensures Prepend(rs, Parsed([], s)) == Parsed(rs, s)
  {
    assert rs + [] == rs;
  }

  lemma CleanLog(rs: seq<Record>)
    requires forall i :: 0 <= i < |rs| ==> Storable(rs[i])
    ensures Parse(EncodeAll(rs)) == Parsed(rs, Complete)
  {
    hide Storable, Encode;
    RoundTrip(rs, []);
    NothingFollows(rs, Complete);
    assert EncodeAll(rs) + [] == EncodeAll(rs);
  }

  // ---------------------------------------------------------- torn tails

  lemma ShortFrame(b: seq<Byte>)
    requires 8 <= |b| < 8 + PayloadSize(b)
    ensures Parse(b) == Parsed([], ShortPayload)
  {
    hide PayloadSize, Checksum, DecodePayload, FromBigEndian;
  }

  lemma PrefixSlice(f: seq<Byte>, n: nat, rest: seq<Byte>)
    requires 4 <= n <= |f|
    ensures (f[..n] + rest)[0..4] == (f + [])[0..4]
  {
  }

  /** A frame cut after its length, with too few bytes behind it to make up for the cut. */
  lemma FramePrefix(p: seq<Byte>, n: nat, rest: seq<Byte>)
    requires 4 <= n <= |Frame(p)|
    requires |p| < 0x1_0000_0000
    requires 8 <= n + |rest| < |Frame(p)|
    ensures Parse(Frame(p)[..n] + rest) == Parsed([], ShortPayload)
  {
    hide Frame, BigEndian, FromBigEndian, Parse;
    FrameSlices(p, []);
    PrefixSlice(Frame(p), n, rest);
    Field32(|p|);
    ShortFrame(Frame(p)[..n] + rest);
  }

  /**
   A log that ends in a proper prefix of another record delivers the whole
   records before it, and succeeds exactly when fewer than 8 bytes are left over.
   */
  lemma TornTail(rs: seq<Record>, r: Record, n: nat)
    requires forall i :: 0 <= i < |rs| ==> Storable(rs[i])
    requires Storable(r) && n < |Encode(r)|
    ensures Parse(EncodeAll(rs) + Encode(r)[..n]) == Parsed(rs, if n < 8 then Complete else ShortPayload)
  {
    var torn := Encode(r)[..n];
    RoundTrip(rs, torn);
    if n >= 8 {
      FramePrefix(Payload(r), n, []);
      assert torn + [] == torn;
    }
    NothingFollows(rs, Parse(torn).status);
  }

  /** Fewer than 8 stray bytes of any kind end the log normally. */
  lemma StrayTail(rs: seq<Record>, tail: seq<Byte>)
    requires forall i :: 0 <= i < |rs| ==> Storable(rs[i])
    requires |tail| < 8
    ensures Parse(EncodeAll(rs) + tail) == Parsed(rs, Complete)
  {
    hide Storable, EncodeAll;
    RoundTrip(rs, tail);
    NothingFollows(rs, Complete);
  }

  lemma TornThen(rs: seq<Record>, r: Record, n: nat, rest: seq<Byte>)
    requires forall i :: 0 <= i < |rs| ==> Storable(rs[i])
    requires Storable(r) && 4 <= n < 8
    requires 8 <= n + |rest| < |Encode(r)|
    ensures Parse(EncodeAll(rs) + (Encode(r)[..n] + rest)) == Parsed(rs, ShortPayload)
  {
    hide Frame, Parse, EncodeAll;
    RoundTrip(rs, Encode(r)[..n] + rest);
    FramePrefix(Payload(r), n, rest);
    NothingFollows(rs, ShortPayload);
  }

  lemma Associate(a: seq<Byte>, b: seq<Byte>, c: seq<Byte>)
    ensures (a + b) + c == a + (b + c)
  {
  }

  lemma EncodeAllLength(rs: seq<Record>)
    ensures rs != [] ==> |EncodeAll(rs)| >= 8
  {
  }

  /**
   Appending after a tolerated tail of 4 to 7 bytes: as long as the log has not
   grown past the payload that the torn length announces, the next read loses
   every record appended since and ends in an error.
   */
  lemma AppendAfterTornTail(rs: seq<Record>, r: Record, n: nat, more: seq<Record>)
    requires forall i :: 0 <= i < |rs| ==> Storable(rs[i])
    requires Storable(r) && 4 <= n < 8
    requires more != [] && n + |EncodeAll(more)| < |Encode(r)|
    ensures Parse(EncodeAll(rs) + Encode(r)[..n]) == Parsed(rs, Complete)
    ensures Parse(EncodeAll(rs) + Encode(r)[..n] + EncodeAll(more)) == Parsed(rs, ShortPayload)
  {
    TornTail(rs, r, n);
    EncodeAllLength(more);
    hide *;
    TornThen(rs, r, n, EncodeAll(more));
    Associate(EncodeAll(rs), Encode(r)[..n], EncodeAll(more));
  }

  lemma Shifted(n: nat, z: seq<Byte>, a: seq<Byte>, tail: seq<Byte>,
                z': seq<Byte>, a': seq<Byte>, c: seq<Byte>, q: seq<Byte>, rest: seq<Byte>)
    requires n < 4 && |z| == |a'| == n && |a| == |z'| == 4 - n && |c| == 4
    ensures var b := ((z + a) + tail)[..n] + (((z' + a') + c + q) + rest);
            b[0..4] == z + z' && b[4..8] == a' + c[..4 - n]
  {
    var b := ((z + a) + tail)[..n] + (((z' + a') + c + q) + rest);
    assert ((z + a) + tail)[..n] == z;
    assert b == z + z' + a' + c + q + rest;
    assert b[0..4] == z + z';
    assert b[4..8] == a' + c[..4 - n];
  }

  lemma ShiftedSlices(p: seq<Byte>, n: nat, q: seq<Byte>, rest: seq<Byte>)
    requires 1 <= n < 4 && |p| < Pow256(4 - n) && |q| < Pow256(n)
    ensures var b := Frame(p)[..n] + (Frame(q) + rest);
            && b[0..4] == Zeros(4)
            && b[4..8] == BigEndian(|q|, n) + BigEndian(Checksum(q), 4)[..4 - n]
  {
    hide BigEndian, Checksum, Zeros, Pow256;
    LeadingZeros(|p|, 4, 4 - n);
    LeadingZeros(|q|, 4, n);
    ZerosSplit(n, 4 - n);
    Shifted(n, Zeros(n), BigEndian(|p|, 4 - n), BigEndian(Checksum(p), 4) + p,
            Zeros(4 - n), BigEndian(|q|, n), BigEndian(Checksum(q), 4), q, rest);
    Associate(BigEndian(|p|, 4), BigEndian(Checksum(p), 4), p);
  }

  /** An empty payload has checksum 0. */
  lemma EmptyMismatch(b: seq<Byte>)
    requires |b| >= 8 && FromBigEndian(b[0..4]) == 0 && FromBigEndian(b[4..8]) != 0
    ensures Parse(b) == Parsed([], ChecksumMismatch)
  {
    hide FromBigEndian, Checksum, DecodePayload;
    ChecksumOfNothing();
    assert b[8..8] == [];
  }

  lemma ShiftedFrame(p: seq<Byte>, n: nat, q: seq<Byte>, rest: seq<Byte>)
    requires 1 <= n < 4 && |p| < Pow256(4 - n) && 0 < |q| < Pow256(n)
    ensures Parse(Frame(p)[..n] + (Frame(q) + rest)) == Parsed([], ChecksumMismatch)
  {
    hide Frame, BigEndian, FromBigEndian, Checksum, Zeros, Pow256, Parse;
    var b := Frame(p)[..n] + (Frame(q) + rest);
    ShiftedSlices(p, n, q, rest);
    ZerosRead(4);
    BigEndianRoundTrip(|q|, n);
    PrefixReads(BigEndian(|q|, n), BigEndian(Checksum(q), 4)[..4 - n]);
    EmptyMismatch(b);
  }

  /**
   A tail of 1 to 3 bytes shifts the length of the next record into the checksum, as long as the
   two lengths leave the bytes before them zero: the next read ends in a mismatch at once.
   */
  lemma AppendAfterShortTail(rs: seq<Record>, r: Record, n: nat, next: Record, rest: seq<Byte>)
    requires forall i :: 0 <= i < |rs| ==> Storable(rs[i])
    requires 1 <= n < 4 && |Payload(r)| < Pow256(4 - n) && |Payload(next)| < Pow256(n)
    ensures Parse(EncodeAll(rs) + (Encode(r)[..n] + (Encode(next) + rest))) == Parsed(rs, ChecksumMismatch)
  {
    hide Parse, EncodeAll, Storable, Payload, Pow256;
    ShiftedFrame(Payload(r), n, Payload(next), rest);
    RoundTrip(rs, Encode(r)[..n] + (Encode(next) + rest));
    NothingFollows(rs, ChecksumMismatch);
  }

  // ---------------------------------------------------------- corruption

  /** `b` with the bytes from `at` on overwritten by `w`. */
  function Overwrite(b: seq<Byte>, at: nat, w: seq<Byte>): (c: seq<Byte>)
    requires at + |w| <= |b|
    ensures |c| == |b|
  {
    b[..at] + w + b[at + |w|..]
  }

  lemma BadSlices(a: seq<Byte>, c: seq<Byte>, p: seq<Byte>, at: nat, w: seq<Byte>, rest: seq<Byte>)
    requires |a| == |c| == 4 && at + |w| <= |p|
    ensures var b := Overwrite(a + c + p, 8 + at, w) + rest;
            && b[0..4] == a
            && b[4..8] == c
            && b[8..8 + |p|] == Overwrite(p, at, w)
  {
    var b := Overwrite(a + c + p, 8 + at, w) + rest;
    assert b == (a + c + Overwrite(p, at, w)) + rest;
    FourSlices(a, c, Overwrite(p, at, w), rest);
  }

  lemma BadFrame(p: seq<Byte>, at: nat, w: seq<Byte>, rest: seq<Byte>)
    requires |p| < 0x1_0000_0000 && at + |w| <= |p|
    requires |w| <= 4 && w != p[at..at + |w|]
    ensures ReadFrame(Overwrite(Frame(p), 8 + at, w) + rest) == End(ChecksumMismatch)
  {
    hide Checksum, BigEndian, FromBigEndian, DecodePayload;
    assert p == p[..at] + p[at..at + |w|] + p[at + |w|..];
    BurstChangesChecksum(p[..at], p[at..at + |w|], w, p[at + |w|..]);
    BadSlices(BigEndian(|p|, 4), BigEndian(Checksum(p), 4), p, at, w, rest);
    Field32(|p|);
    ChecksumField(p);
  }

  /**
   Any change confined to four neighbouring bytes of one payload is caught:
   the records before it are delivered and the checksum mismatch is returned.
   */
  lemma BurstCaught(before: seq<Record>, r: Record, rest: seq<Byte>, at: nat, w: seq<Byte>)
    requires forall i :: 0 <= i < |before| ==> Storable(before[i])
    requires Storable(r)
    requires |w| <= 4 && at + |w| <= |Payload(r)|
    requires w != Payload(r)[at..at + |w|]
    ensures Parse(EncodeAll(before) + Overwrite(Encode(r), 8 + at, w) + rest) == Parsed(before, ChecksumMismatch)
  {
    hide ReadFrame, Frame;
    var bad := Overwrite(Encode(r), 8 + at, w);
    BadFrame(Payload(r), at, w, rest);
    assert EncodeAll(before) + bad + rest == EncodeAll(before) + (bad + rest);
    RoundTrip(before, bad + rest);
    NothingFollows(before, ChecksumMismatch);
  }

  /** In particular a change of a single payload byte. */
  lemma ByteFlipCaught(before: seq<Record>, r: Record, rest: seq<Byte>, at: nat, x: Byte)
    requires forall i :: 0 <= i < |before| ==> Storable(before[i])
    requires Storable(r)
    requires at < |Payload(r)| && x != Payload(r)[at]
    ensures Parse(EncodeAll(before) + Encode(r)[8 + at := x] + rest) == Parsed(before, ChecksumMismatch)
  {
    hide Frame, Head, Storable, Parse, EncodeAll;
    var w: seq<Byte> := [x];
    assert Payload(r)[at..at + 1] == [Payload(r)[at]];
    BurstCaught(before, r, rest, at, w);
    assert Overwrite(Encode(r), 8 + at, w) == Encode(r)[8 + at := x];
  }

  // ------------------------------------------------------ log of operations

  function RecordOf(op: Op): Record
  {
    match op
    case Set(k, v, ver, exp) => Record(TYPE_SET, k, v, ver, exp)
    case Delete(k, ver) => Record(TYPE_DELETE, k, [], ver, 0)
  }

  function RecordsOf(ops: seq<Op>): (rs: seq<Record>)
    ensures |rs| == |ops|
    ensures forall i :: 0 <= i < |ops| ==> rs[i] == RecordOf(ops[i])
  {
    if ops == [] then [] else [RecordOf(ops[0])] + RecordsOf(ops[1..])
  }

  // ------------------------------------------------------ the format, byte by byte

  /** The digits of a number in a field of `n` bytes. */
  ghost predicate Digits(b: seq<Byte>, x: nat, n: nat)
  {
    |b| == n && forall i :: 0 <= i < n ==> b[i] == (x / Pow256(n - 1 - i)) % 256
  }

  lemma BigEndianDigits(x: nat, n: nat)
    ensures Digits(BigEndian(x, n), x, n)
  {
    hide BigEndian, Pow256;
    forall i | 0 <= i < n
      ensures BigEndian(x, n)[i] == (x / Pow256(n - 1 - i)) % 256
    {
      BigEndianAt(x, n, i);
    }
  }

  /** Slices of a payload, seen from the frame around it. */
  lemma InsideFrame(f: seq<Byte>, p: seq<Byte>, m: nat)
    requires |f| == 8 + |p| && (f + [])[8..8 + |p|] == p && 19 + m <= |p|
    ensures f[8..] == p && (f + [])[0..4] == f[0..4] && (f + [])[4..8] == f[4..8] && f[8] == p[0]
    ensures f[9..17] == p[1..9] && f[17..25] == p[9..17] && f[25..27] == p[17..19]
    ensures f[27..27 + m] == p[19..19 + m] && f[27 + m..] == p[19 + m..]
  {
    assert f + [] == f;
    assert f[8..] == p;
  }

  /** Where each field of a record stands in the file. */
  lemma EncodedLayout(r: Record)
    ensures var b, n := Encode(r), 19 + |r.key| + |r.value|;
            && |b| == 8 + n
            && Digits(b[0..4], n, 4) && Digits(b[4..8], Checksum(b[8..]), 4)
            && b[8] == r.recType
            && Digits(b[9..17], r.version, 8) && Digits(b[17..25], r.expiresAt, 8) && Digits(b[25..27], |r.key|, 2)
            && b[27..27 + |r.key|] == r.key && b[27 + |r.key|..] == r.value
  {
    hide Digits, BigEndian, Checksum, Payload, Frame;
    var p, m := Payload(r), |r.key|;
    PayloadSlices(r, m);
    FrameSlices(p, []);
    BigEndianDigits(|p|, 4);
    BigEndianDigits(Checksum(p), 4);
    BigEndianDigits(r.version, 8);
    BigEndianDigits(r.expiresAt, 8);
    BigEndianDigits(m, 2);
    InsideFrame(Frame(p), p, m);
  }

  /** A Set is logged with type 1, a Delete with type 2, no value and no expiry. */
  lemma OperationLayout(op: Op)
    ensures var b, r := Encode(RecordOf(op)), RecordOf(op);
            && b[8] == (if op.Set? then 1 else 2)
            && Digits(b[9..17], op.version, 8)
            && Digits(b[17..25], if op.Set? then op.expiresAt else 0, 8)
            && b[27..27 + |op.key|] == op.key
            && b[27 + |op.key|..] == if op.Set? then op.value else []
  {
    hide Digits, Encode;
    var r := RecordOf(op);
    EncodedLayout(r);
    assert r.key == op.key && r.version == op.version;
  }

  lemma TwoBytes(b: seq<Byte>)
    requires |b| == 2
    ensures FromBigEndian(b) == 256 * (b[0] as int) + b[1]
  {
    var one := [b[0]];
    assert one[..0] == [];
    assert FromBigEndian(one) == b[0];
    assert b[..1] == one;
  }

  lemma SevenBytes()
    ensures Pow256(7) == 0x100_0000_0000_0000
  {
    FieldWidths();
    assert Pow256(8) == 256 * Pow256(7);
  }

  lemma SignBit(b: seq<Byte>)
    requires |b| == 8
    ensures FromBigEndian(b) < 0x8000_0000_0000_0000 <==> b[0] < 128
  {
    hide BigEndian;
    BigEndianOfRead(b);
    FieldWidths();
    var x := FromBigEndian(b);
    FromBigEndianBound(b);
    BigEndianAt(x, 8, 0);
    assert Pow256(7) == 0x100_0000_0000_0000 by { SevenBytes(); }
  }

  function KeyLength(p: seq<Byte>): nat
    requires |p| >= 19
  {
    256 * (p[17] as int) + p[18]
  }

  /** Which payloads are refused, and what the others say; an expiry with its sign bit set is none. */
  lemma DecodedPayload(p: seq<Byte>)
    ensures DecodePayload(p).None? <==> |p| < 19 || |p| < 19 + KeyLength(p)
    ensures DecodePayload(p).Some? ==>
              var r, n := DecodePayload(p).value, KeyLength(p);
              && r.recType == p[0] && r.key == p[19..19 + n] && r.value == p[19 + n..]
              && BigEndian(r.version, 8) == p[1..9]
              && (if p[9] < 128 then BigEndian(r.expiresAt, 8) == p[9..17] else r.expiresAt == 0)
  {
    if |p| >= 19 {
      hide BigEndian, FromBigEndian;
      TwoBytes(p[17..19]);
      BigEndianOfRead(p[1..9]);
      BigEndianOfRead(p[9..17]);
      SignBit(p[9..17]);
    }
  }

  lemma RefusedFrame(p: seq<Byte>, rest: seq<Byte>)
    requires |p| < 0x1_0000_0000 && DecodePayload(p).None?
    ensures Parse(Frame(p) + rest) == Parsed([], CorruptRecord)
  {
    hide Frame, DecodePayload;
    ReadFrameOfFrame(p, rest);
  }

  /**
   A well-framed payload that is too short for its fields, or for the key it announces: the records
   before it are delivered and the corruption is reported.
   */
  lemma ShortFieldsCaught(before: seq<Record>, p: seq<Byte>, rest: seq<Byte>)
    requires forall i :: 0 <= i < |before| ==> Storable(before[i])
    requires |p| < 0x1_0000_0000 && (|p| < 19 || |p| < 19 + KeyLength(p))
    ensures Parse(EncodeAll(before) + (Frame(p) + rest)) == Parsed(before, CorruptRecord)
  {
    hide EncodeAll, Storable, Frame;
    DecodedPayload(p);
    hide DecodePayload, KeyLength;
    RefusedFrame(p, rest);
    RoundTrip(before, Frame(p) + rest);
    NothingFollows(before, CorruptRecord);
  }
}
