/**
 The write-ahead log: a file that Append extends by one record and Replay reads
 from the start. The file is a sequence of bytes; writes and syncs do not fail.
 */
module Wals {
  import opened Bytes
  import opened Crc32
  import opened Lww
  import opened Records

  method PutBigEndian(buf: array<Byte>, at: nat, n: nat, x: nat)
    requires at + n <= buf.Length
    modifies buf
    ensures buf[..] == Overwrite(old(buf[..]), at, BigEndian(x, n))
  {
    ghost var before := buf[..];
    var i, y := n, x;
    while i > 0
      invariant 0 <= i <= n
      invariant BigEndian(x, n) == BigEndian(y, i) + buf[at + i..at + n]
      invariant buf[..at + i] == before[..at + i]
      invariant buf[at + n..] == before[at + n..]
    {
      i := i - 1;
      buf[at + i] := y % 256;
      assert buf[at + i..at + n] == [y % 256] + buf[at + i + 1..at + n];
      y := y / 256;
    }
    assert BigEndian(y, 0) == [];
    assert buf[..] == buf[..at] + buf[at..at + n] + buf[at + n..];
  }

  method Copy(buf: array<Byte>, at: nat, src: seq<Byte>)
    requires at + |src| <= buf.Length
    modifies buf
    ensures buf[..] == Overwrite(old(buf[..]), at, src)
  {
    ghost var before := buf[..];
    for i := 0 to |src|
      invariant buf[at..at + i] == src[..i]
      invariant buf[..at] == before[..at]
      invariant buf[at + i..] == before[at + i..]
    {
      buf[at + i] := src[i];
      assert buf[at..at + i + 1] == buf[at..at + i] + [src[i]];
    }
    assert buf[..] == buf[..at] + buf[at..at + |src|] + buf[at + |src|..];
  }

  /** Two writes side by side are one write. */
  lemma WriteNext(b: seq<Byte>, at: nat, u: seq<Byte>, v: seq<Byte>)
    requires at + |u| + |v| <= |b|
    ensures Overwrite(Overwrite(b, at, u), at + |u|, v) == Overwrite(b, at, u + v)
  {
  }

  /** The length first, then the payload, then the checksum between them. */
  lemma WriteParts(b: seq<Byte>, a: seq<Byte>, c: seq<Byte>, p: seq<Byte>)
    requires |a| == |c| == 4 && |b| == 8 + |p|
    ensures var b' := Overwrite(Overwrite(b, 0, a), 8, p);
            b'[8..] == p && Overwrite(b', 4, c) == a + c + p
  {
    var b1 := Overwrite(b, 0, a);
    assert b1 == a + b[4..];
    var b' := Overwrite(b1, 8, p);
    assert b1[..8] == a + b[4..8];
    assert b' == a + b[4..8] + p;
    assert b'[..4] == a && b'[8..] == p;
  }

  method FillPayload(buf: array<Byte>, r: Record)
    requires buf.Length == 8 + |Payload(r)|
    modifies buf
    ensures buf[..] == Overwrite(old(buf[..]), 8, Payload(r))
  {
    hide BigEndian, Overwrite;
    ghost var b := buf[..];
    var t: seq<Byte> := [r.recType];
    Copy(buf, 8, t);
    PutBigEndian(buf, 9, 8, r.version);
    WriteNext(b, 8, t, BigEndian(r.version, 8));
    PutBigEndian(buf, 17, 8, r.expiresAt);
    WriteNext(b, 8, t + BigEndian(r.version, 8), BigEndian(r.expiresAt, 8));
    PutBigEndian(buf, 25, 2, |r.key|);
    WriteNext(b, 8, t + BigEndian(r.version, 8) + BigEndian(r.expiresAt, 8), BigEndian(|r.key|, 2));
    assert buf[..] == Overwrite(b, 8, Head(r));
    Copy(buf, 27, r.key);
    WriteNext(b, 8, Head(r), r.key);
    if |r.value| > 0 {
      Copy(buf, 27 + |r.key|, r.value);
      WriteNext(b, 8, Head(r) + r.key, r.value);
    } else {
      assert Payload(r) == Head(r) + r.key;
    }
  }

  /** One record laid out in a fresh buffer, field by field, with the checksum put in last. */
  method FillRecord(r: Record) returns (buf: array<Byte>)
    ensures fresh(buf)
    ensures buf[..] == Encode(r)
  {
    hide Overwrite, Payload, Checksum, BigEndian;
    var size := 19 + |r.key| + |r.value|;
    buf := new Byte[8 + size];
    ghost var blank := buf[..];
    ghost var p := Payload(r);
    PutBigEndian(buf, 0, 4, size);
    FillPayload(buf, r);
    ghost var filled := buf[..];
    WriteParts(blank, BigEndian(size, 4), BigEndian(Checksum(p), 4), p);
    assert buf[8..] == filled[8..];
    var checksum := Checksum(buf[8..]);
    PutBigEndian(buf, 4, 4, checksum);
  }

  /** The directory that holds the log and the committed snapshot, if any. */
  class DataDir {
    var snapshot: Option<seq<Byte>>

    constructor ()
      ensures snapshot == None
    {
      snapshot := None;
    }
  }

  class Wal {
    const dir: DataDir
    var file: seq<Byte>
    var size: nat

    ghost predicate Valid()
      reads this
    {
      size == |file|
    }

    /** Opens the log over what the file already holds. */
    constructor (dir: DataDir, existing: seq<Byte>)
      ensures Valid() && this.dir == dir && file == existing
    {
      this.dir := dir;
      this.file := existing;
      this.size := |existing|;
    }

    /** Refuses keys whose length does not fit its field; otherwise the file grows by the record. */
    method Append(recType: Byte, key: Key, value: Value, version: nat, expiresAt: nat) returns (ok: bool)
      requires Valid()
      modifies this`file, this`size
      ensures Valid()
      ensures ok <==> |key| <= MAX_KEY
      ensures file == old(file) + if ok then Encode(Record(recType, key, value, version, expiresAt)) else []
    {
      hide Encode;
      if |key| > MAX_KEY {
        return false;
      }
      var buf := FillRecord(Record(recType, key, value, version, expiresAt));
      file := file + buf[..];
      size := size + buf.Length;
      return true;
    }

    method Truncate()
      modifies this`file, this`size
      ensures Valid() && file == []
    {
      file := [];
      size := 0;
    }
  }

  /** Reads the frame at a position of an open file, as both Replay and LoadSnapshot do. */
  method ReadNext(file: seq<Byte>, pos: nat) returns (read: Read, next: nat)
    requires pos <= |file|
    ensures read == ReadFrame(file[pos..])
    ensures read.Item? ==> pos < next <= |file| && next == pos + 8 + PayloadSize(file[pos..])
  {
    hide Checksum, DecodePayload, FromBigEndian;
    ghost var b := file[pos..];
    next := pos;
    if |file| - pos < 8 {
      return End(Complete), next;
    }
    var header := file[pos..pos + 8];
    assert header == b[..8];
    assert b[..8][0..4] == b[0..4] && b[..8][4..8] == b[4..8];
    var size := FromBigEndian(header[0..4]);
    var expected := FromBigEndian(header[4..8]);
    if |file| - pos - 8 < size {
      return End(ShortPayload), next;
    }
    var payload := file[pos + 8..pos + 8 + size];
    assert payload == b[8..8 + size];
    if Checksum(payload) != expected {
      return End(ChecksumMismatch), next;
    }
    var decoded := DecodePayload(payload);
    if decoded == None {
      return End(CorruptRecord), next;
    }
    return Item(decoded.value), pos + 8 + size;
  }

  /** A read loop at `pos` that started at `start`: what it has delivered, and what it has still to read. */
  ghost predicate Reading(file: seq<Byte>, start: nat, pos: nat, delivered: seq<Record>)
  {
    && start <= pos <= |file|
    && Parse(file[start..]) == Prepend(delivered, Parse(file[pos..]))
  }

  lemma ReadingStarts(file: seq<Byte>, start: nat)
    requires start <= |file|
    ensures Reading(file, start, start, [])
  {
    hide Parse;
    assert [] + Parse(file[start..]).records == Parse(file[start..]).records;
  }

  lemma PrependSnoc(rs: seq<Record>, r: Record, p: Parsed)
    ensures Prepend(rs, Prepend([r], p)) == Prepend(rs + [r], p)
  {
    assert rs + ([r] + p.records) == (rs + [r]) + p.records;
  }

  lemma ReadingGoesOn(file: seq<Byte>, start: nat, pos: nat, delivered: seq<Record>, r: Record, next: nat)
    requires Reading(file, start, pos, delivered)
    requires ReadFrame(file[pos..]) == Item(r) && pos < next <= |file| && next == pos + 8 + PayloadSize(file[pos..])
    ensures Reading(file, start, next, delivered + [r])
  {
    hide ReadFrame, PayloadSize;
    assert file[pos..][8 + PayloadSize(file[pos..])..] == file[next..];
    PrependSnoc(delivered, r, Parse(file[next..]));
  }

  lemma ReadingEnds(file: seq<Byte>, start: nat, pos: nat, delivered: seq<Record>, status: Status)
    requires Reading(file, start, pos, delivered) && ReadFrame(file[pos..]) == End(status)
    ensures Parse(file[start..]) == Parsed(delivered, status)
  {
    hide ReadFrame;
    NothingFollows(delivered, status);
  }
}
