// The log's wire format: records, their payloads, and the frames around them.
module Format {
  import opened Bytes
  import opened FrameLog

  type Name = seq<Byte>

  // CRC-32C (section 12.1 of RFC 3720) enters only as some function of the
  // payload; every result here holds for any such function.
  type Checksum = seq<Byte> -> U32

  const MAX_PAYLOAD: nat := 64 * 1024 * 1024
  const MAX_NAME: nat := 65535
  const MAX_SNAPSHOT_SEQS: nat := 8_388_603

  datatype Op = Record | Confirm | Expire | ConfirmUpTo

  datatype Rec =
    | Register(slot: U32, ts: U64, stream: Name, consumer: Name)
    | SeqOp(op: Op, slot: U32, ts: U64, n: U64)
    | Tombstone(slot: U32, ts: U64)
    | Snapshot(slot: U32, ts: U64, minSeq: U64, maxSeq: U64, seqs: seq<U64>)

  function OpByte(op: Op): Byte {
    match op
    case Record => 2
    case Confirm => 3
    case Expire => 4
    case ConfirmUpTo => 7
  }

  function Head(op: Byte, slot: U32, ts: U64): (h: seq<Byte>)
    ensures |h| == 13
  {
    [op] + LE(slot, 4) + LE(ts, 8)
  }

  function Words(ns: seq<U64>): (s: seq<Byte>)
    ensures |s| == 8 * |ns|
  {
    if ns == [] then [] else Words(ns[..|ns| - 1]) + LE(ns[|ns| - 1], 8)
  }

  function Payload(r: Rec): (p: seq<Byte>)
    ensures |p| == PayloadSize(r)
  {
    match r
    case Register(slot, ts, stream, consumer) =>
      Head(1, slot, ts) + (LE(|stream|, 2) + LE(|consumer|, 2) + stream + consumer)
    case SeqOp(op, slot, ts, n) => Head(OpByte(op), slot, ts) + LE(n, 8)
    case Tombstone(slot, ts) => Head(5, slot, ts) + []
    case Snapshot(slot, ts, mn, mx, seqs) =>
      Head(6, slot, ts) + (LE(mn, 8) + LE(mx, 8) + LE(|seqs|, 4) + Words(seqs))
  }

  function PayloadSize(r: Rec): nat {
    match r
    case Register(_, _, stream, consumer) => 17 + |stream| + |consumer|
    case SeqOp(_, _, _, _) => 21
    case Tombstone(_, _) => 13
    case Snapshot(_, _, _, _, seqs) => 33 + 8 * |seqs|
  }

  // The length fields hold what they must: names up to 65535 bytes, and a seq
  // count that fits 32 bits.
  predicate Encodable(r: Rec) {
    match r
    case Register(_, _, stream, consumer) => |stream| <= MAX_NAME && |consumer| <= MAX_NAME
    case Snapshot(_, _, _, _, seqs) => |seqs| < 0x1_0000_0000
    case _ => true
  }

  // Decoding, branch for branch as the decoder takes them.
  function Decode(p: seq<Byte>): (r: Option<Rec>) {
    if |p| < 1 then None
    else if p[0] in {2, 3, 4, 7} then
      if |p| != 21 then None
      else
        var op := if p[0] == 2 then Record else if p[0] == 3 then Confirm
                  else if p[0] == 4 then Expire else ConfirmUpTo;
        Some(SeqOp(op, U32At(p, 1), U64At(p, 5), U64At(p, 13)))
    else if p[0] == 5 then
      if |p| != 13 then None else Some(Tombstone(U32At(p, 1), U64At(p, 5)))
    else if p[0] == 1 then
      if |p| < 17 then None
      else
        var sl, cl := U16At(p, 13), U16At(p, 15);
        if 17 + sl + cl != |p| then None
        else Some(Register(U32At(p, 1), U64At(p, 5), p[17..17 + sl], p[17 + sl..17 + sl + cl]))
    else if p[0] == 6 then
      if |p| < 33 then None
      else
        var count := U32At(p, 29);
        if 33 + count * 8 != |p| then None
        else Some(Snapshot(U32At(p, 1), U64At(p, 5), U64At(p, 13), U64At(p, 21), SeqsAt(p, count)))
    else None
  }

  function SeqsAt(p: seq<Byte>, count: nat): (ns: seq<U64>)
    requires 33 + 8 * count <= |p|
    ensures |ns| == count
  {
    if count == 0 then [] else SeqsAt(p, count - 1) + [U64At(p, 33 + 8 * (count - 1))]
  }

  lemma HeadParts(op: Byte, slot: seq<Byte>, ts: seq<Byte>, body: seq<Byte>)
    requires |slot| == 4 && |ts| == 8
    ensures var p := [op] + slot + ts + body;
            p[0] == op && p[1..5] == slot && p[5..13] == ts && p[13..] == body
  {
  }

  lemma HeadFields(op: Byte, slot: U32, ts: U64, body: seq<Byte>)
    ensures var p := Head(op, slot, ts) + body;
            && |p| == 13 + |body| && p[0] == op
            && U32At(p, 1) == slot && U64At(p, 5) == ts && p[13..] == body
  {
    var p := Head(op, slot, ts) + body;
    HeadParts(op, LE(slot, 4), LE(ts, 8), body);
    U32Field(p, 1, slot);
    U64Field(p, 5, ts);
  }

  lemma TwoParts(p: seq<Byte>, off: nat, a: seq<Byte>, b: seq<Byte>)
    requires off + |a| + |b| <= |p| && p[off..off + |a| + |b|] == a + b
    ensures p[off..off + |a|] == a && p[off + |a|..off + |a| + |b|] == b
  {
    var q := p[off..off + |a| + |b|];
    assert p[off..off + |a|] == q[..|a|] && p[off + |a|..off + |a| + |b|] == q[|a|..];
  }

  lemma {:induction false} SeqsAtWords(p: seq<Byte>, ns: seq<U64>)
    requires 33 + 8 * |ns| <= |p| && p[33..33 + 8 * |ns|] == Words(ns)
    ensures SeqsAt(p, |ns|) == ns
  {
    if ns != [] {
      var k := |ns| - 1;
      TwoParts(p, 33, Words(ns[..k]), LE(ns[k], 8));
      SeqsAtWords(p, ns[..k]);
      U64Field(p, 33 + 8 * k, ns[k]);
      assert ns == ns[..k] + [ns[k]];
    }
  }

  lemma {:induction false} WordsOfSeqsAt(p: seq<Byte>, count: nat)
    requires 33 + 8 * count <= |p|
    ensures Words(SeqsAt(p, count)) == p[33..33 + 8 * count]
  {
    if count > 0 {
      var k := count - 1;
      WordsOfSeqsAt(p, k);
      var ns := SeqsAt(p, count);
      assert ns[..k] == SeqsAt(p, k) && ns[k] == U64At(p, 33 + 8 * k);
      U64Field(p, 33 + 8 * k, ns[k]);
      assert p[33..33 + 8 * count] == p[33..33 + 8 * k] + p[33 + 8 * k..33 + 8 * k + 8];
    }
  }

  lemma DecodePayloadOfRegister(r: Rec)
    requires r.Register? && Encodable(r)
    ensures Decode(Payload(r)) == Some(r)
  {
    var p := Payload(r);
    var body := LE(|r.stream|, 2) + LE(|r.consumer|, 2) + r.stream + r.consumer;
    HeadFields(1, r.slot, r.ts, body);
    NamesAt(p, Head(1, r.slot, r.ts), LE(|r.stream|, 2), LE(|r.consumer|, 2), r.stream, r.consumer);
    U16Field(p, 13, |r.stream|);
    U16Field(p, 15, |r.consumer|);
  }

  lemma NamesAt(p: seq<Byte>, head: seq<Byte>, sl: seq<Byte>, cl: seq<Byte>, stream: Name, consumer: Name)
    requires |head| == 13 && |sl| == 2 && |cl| == 2 && p == head + (sl + cl + stream + consumer)
    ensures |p| == 17 + |stream| + |consumer| && p[13..15] == sl && p[15..17] == cl
    ensures p[17..17 + |stream|] == stream && p[17 + |stream|..17 + |stream| + |consumer|] == consumer
  {
    assert p[13..] == sl + cl + stream + consumer;
  }

  lemma DecodePayloadOfSnapshot(r: Rec)
    requires r.Snapshot? && Encodable(r)
    ensures Decode(Payload(r)) == Some(r)
  {
    var p := Payload(r);
    var body := LE(r.minSeq, 8) + LE(r.maxSeq, 8) + LE(|r.seqs|, 4) + Words(r.seqs);
    HeadFields(6, r.slot, r.ts, body);
    assert p[13..21] == LE(r.minSeq, 8) && p[21..29] == LE(r.maxSeq, 8);
    U64Field(p, 13, r.minSeq);
    U64Field(p, 21, r.maxSeq);
    assert p[29..33] == LE(|r.seqs|, 4);
    U32Field(p, 29, |r.seqs|);
    assert p[33..33 + 8 * |r.seqs|] == Words(r.seqs);
    SeqsAtWords(p, r.seqs);
  }

  lemma DecodeOfPayload(r: Rec)
    requires Encodable(r)
    ensures Decode(Payload(r)) == Some(r)
  {
    match r
    case Register(_, _, _, _) => DecodePayloadOfRegister(r);
    case SeqOp(op, slot, ts, n) =>
      HeadFields(OpByte(op), slot, ts, LE(n, 8));
      assert Payload(r)[13..21] == LE(n, 8);
      U64Field(Payload(r), 13, n);
    case Tombstone(slot, ts) => HeadFields(5, slot, ts, []);
    case Snapshot(_, _, _, _, _) => DecodePayloadOfSnapshot(r);
  }

  lemma SplitHead(p: seq<Byte>)
    requires |p| >= 13
    ensures p == Head(p[0], U32At(p, 1), U64At(p, 5)) + p[13..]
  {
    U32Field(p, 1, U32At(p, 1));
    U64Field(p, 5, U64At(p, 5));
    SplitAt(p, 0, 1);
    SplitAt(p, 1, 5);
    SplitAt(p, 5, 13);
    assert p[0..] == p && p[0..1] == [p[0]];
    Grouped(p[0..1], p[1..5], p[5..13], p[13..]);
  }

  lemma Grouped(a: seq<Byte>, b: seq<Byte>, c: seq<Byte>, d: seq<Byte>)
    ensures a + (b + (c + d)) == a + b + c + d
  {
  }

  lemma SplitNames(p: seq<Byte>, sl: nat)
    requires |p| >= 17 + sl
    ensures p[13..] == p[13..15] + p[15..17] + p[17..17 + sl] + p[17 + sl..]
  {
    SplitAt(p, 13, 15);
    SplitAt(p, 15, 17);
    SplitAt(p, 17, 17 + sl);
    Grouped(p[13..15], p[15..17], p[17..17 + sl], p[17 + sl..]);
  }

  lemma PayloadOfRegister(p: seq<Byte>)
    requires |p| > 0 && p[0] == 1 && Decode(p).Some?
    ensures Payload(Decode(p).value) == p
  {
    SplitHead(p);
    var r := Decode(p).value;
    U16Field(p, 13, |r.stream|);
    U16Field(p, 15, |r.consumer|);
    SplitNames(p, |r.stream|);
    assert p[17 + |r.stream|..] == r.consumer;
  }

  lemma SplitAt(p: seq<Byte>, i: nat, j: nat)
    requires i <= j <= |p|
    ensures p[i..] == p[i..j] + p[j..]
  {
  }

  lemma SnapshotBody(p: seq<Byte>, count: nat)
    requires |p| == 33 + 8 * count
    ensures p[13..] == LE(U64At(p, 13), 8) + LE(U64At(p, 21), 8) + LE(U32At(p, 29), 4) + Words(SeqsAt(p, count))
  {
    U64Field(p, 13, U64At(p, 13));
    U64Field(p, 21, U64At(p, 21));
    U32Field(p, 29, U32At(p, 29));
    WordsOfSeqsAt(p, count);
    SplitAt(p, 13, 21);
    SplitAt(p, 21, 29);
    SplitAt(p, 29, 33);
    assert p[33..] == p[33..33 + 8 * count];
    Grouped(p[13..21], p[21..29], p[29..33], p[33..]);
  }

  lemma PayloadOfSnapshot(p: seq<Byte>)
    requires |p| > 0 && p[0] == 6 && Decode(p).Some?
    ensures Payload(Decode(p).value) == p
  {
    SplitHead(p);
    SnapshotBody(p, U32At(p, 29));
  }

  lemma PayloadOfDecode(p: seq<Byte>)
    requires Decode(p).Some?
    ensures Encodable(Decode(p).value) && Payload(Decode(p).value) == p
  {
    if p[0] == 1 {
      PayloadOfRegister(p);
    } else if p[0] == 6 {
      PayloadOfSnapshot(p);
    } else {
      SplitHead(p);
      if p[0] != 5 {
        U64Field(p, 13, U64At(p, 13));
        assert p[13..] == p[13..21];
      }
    }
  }

  // Where the fields of a payload are: the record's kind, its slot and its time
  // come first, and then, by kind, the seq, the two name lengths and the names,
  // or the two bounds, the count and the seqs.
  lemma PayloadLayout(r: Rec)
    requires Encodable(r)
    ensures var p := Payload(r);
            && |p| >= 13 && U32At(p, 1) == r.slot && U64At(p, 5) == r.ts
            && match r
               case Register(_, _, stream, consumer) =>
                 && p[0] == 1 && |p| == 17 + |stream| + |consumer|
                 && U16At(p, 13) == |stream| && U16At(p, 15) == |consumer|
                 && p[17..17 + |stream|] == stream && p[17 + |stream|..] == consumer
               case SeqOp(op, _, _, n) =>
                 && p[0] == (match op case Record => 2 case Confirm => 3 case Expire => 4 case ConfirmUpTo => 7)
                 && |p| == 21 && U64At(p, 13) == n
               case Tombstone(_, _) => p[0] == 5 && |p| == 13
               case Snapshot(_, _, mn, mx, seqs) =>
                 && p[0] == 6 && |p| == 33 + 8 * |seqs| && U64At(p, 13) == mn && U64At(p, 21) == mx
                 && U32At(p, 29) == |seqs| && forall i :: 0 <= i < |seqs| ==> U64At(p, 33 + 8 * i) == seqs[i]
  {
    var p := Payload(r);
    DecodeOfPayload(r);
    if r.Snapshot? {
      SeqsAtAre(p, |r.seqs|);
    } else if r.Register? {
      assert p[17 + |r.stream|..] == p[17 + |r.stream|..17 + |r.stream| + |r.consumer|];
    }
  }

  lemma {:induction false} SeqsAtAre(p: seq<Byte>, count: nat)
    requires 33 + 8 * count <= |p|
    ensures forall i :: 0 <= i < count ==> SeqsAt(p, count)[i] == U64At(p, 33 + 8 * i)
  {
    if count > 0 {
      SeqsAtAre(p, count - 1);
    }
  }

  // The decoder inverts the encoders exactly: it accepts a payload and returns
  // `r` just when that payload is the encoding of an encodable `r`.
  lemma DecodeInvertsPayload(p: seq<Byte>, r: Rec)
    ensures Decode(p) == Some(r) <==> Encodable(r) && Payload(r) == p
  {
    if Decode(p).Some? {
      PayloadOfDecode(p);
    }
    if Encodable(r) && Payload(r) == p {
      DecodeOfPayload(r);
    }
  }

  // A name longer than 65535 bytes is cut down to its length modulo 65536 in
  // the length field, so the record it was written as is never read back.
  lemma LongNameIsNotReadBack(r: Rec)
    requires !Encodable(r)
    ensures Decode(Payload(r)) != Some(r)
  {
    DecodeInvertsPayload(Payload(r), r);
  }

  // ---- Frames ----

  function Frame(crc: Checksum, p: seq<Byte>): (f: seq<Byte>)
    ensures |f| == 8 + |p|
  {
    LE(|p|, 4) + p + LE(crc(p), 4)
  }

  function FrameOf(crc: Checksum, r: Rec): (f: seq<Byte>)
    ensures |f| == 8 + PayloadSize(r)
  {
    Frame(crc, Payload(r))
  }

  // A record replay reads back: encodable and within the 64 MiB payload limit.
  predicate Storable(r: Rec) {
    Encodable(r) && PayloadSize(r) <= MAX_PAYLOAD
  }

  lemma SnapshotLimit(r: Rec)
    requires r.Snapshot?
    ensures Storable(r) <==> |r.seqs| <= MAX_SNAPSHOT_SEQS
  {
  }

  // One frame at the head of `s`: length, plausibility, payload, checksum and
  // structure, in the order the reader checks them.
  function ParseFrame(crc: Checksum, s: seq<Byte>): Option<(Rec, nat)> {
    if |s| < 4 then None
    else
      var plen := U32At(s, 0);
      if plen == 0 || plen > MAX_PAYLOAD then None
      else if |s| < 4 + plen then None
      else
        var p := s[4..4 + plen];
        if |s| < 4 + plen + 4 then None
        else if crc(p) != U32At(s, 4 + plen) then None
        else match Decode(p)
          case None => None
          case Some(r) => Some((r, 8 + plen))
  }

  lemma ThreeParts(a: seq<Byte>, b: seq<Byte>, c: seq<Byte>)
    requires |a| == 4 && |c| == 4
    ensures var f := a + b + c; f[0..4] == a && f[4..4 + |b|] == b && f[4 + |b|..4 + |b| + 4] == c
  {
  }

  // A frame is the payload's length, the payload, and the payload's checksum.
  lemma FrameLayout(crc: Checksum, r: Rec)
    requires Storable(r)
    ensures var f, n := FrameOf(crc, r), |Payload(r)|;
            && |f| == 8 + n && U32At(f, 0) == n && f[4..4 + n] == Payload(r) && U32At(f, 4 + n) == crc(Payload(r))
  {
    var p := Payload(r);
    var n: U32, sum: U32 := |p|, crc(p);
    ThreeParts(LE(n, 4), p, LE(sum, 4));
    U32Field(FrameOf(crc, r), 0, n);
    U32Field(FrameOf(crc, r), 4 + n, sum);
  }

  lemma ParseFrameOfFrame(crc: Checksum, r: Rec, tail: seq<Byte>)
    requires Storable(r)
    ensures ParseFrame(crc, FrameOf(crc, r) + tail) == Some((r, |FrameOf(crc, r)|))
  {
    var p := Payload(r);
    var s := FrameOf(crc, r) + tail;
    var plen := |p|;
    assert s[0..4] == LE(plen, 4);
    U32Field(s, 0, plen);
    assert s[4..4 + plen] == p;
    assert s[4 + plen..4 + plen + 4] == LE(crc(p), 4);
    U32Field(s, 4 + plen, crc(p));
    DecodeOfPayload(r);
  }

  // A frame is read from the head of `s` exactly when the head of `s` is the
  // frame of a storable record.
  lemma ParseFrameIsFrame(crc: Checksum, s: seq<Byte>, r: Rec, k: nat)
    ensures ParseFrame(crc, s) == Some((r, k)) <==>
            Storable(r) && k == |FrameOf(crc, r)| && FrameOf(crc, r) <= s
  {
    if ParseFrame(crc, s) == Some((r, k)) {
      FrameOfParseFrame(crc, s, r, k);
    }
    if Storable(r) && k == |FrameOf(crc, r)| && FrameOf(crc, r) <= s {
      assert s == FrameOf(crc, r) + s[k..];
      ParseFrameOfFrame(crc, r, s[k..]);
    }
  }

  lemma FrameFields(s: seq<Byte>, plen: U32, sum: U32)
    requires 8 + plen <= |s| && U32At(s, 0) == plen && U32At(s, 4 + plen) == sum
    ensures s[..8 + plen] == LE(plen, 4) + s[4..4 + plen] + LE(sum, 4)
  {
    U32Field(s, 0, plen);
    U32Field(s, 4 + plen, sum);
    assert s[..8 + plen] == s[0..4] + s[4..4 + plen] + s[4 + plen..4 + plen + 4];
  }

  lemma FrameOfParseFrame(crc: Checksum, s: seq<Byte>, r: Rec, k: nat)
    requires ParseFrame(crc, s) == Some((r, k))
    ensures Storable(r) && k == |FrameOf(crc, r)| && FrameOf(crc, r) <= s
  {
    var plen := k - 8;
    var p := s[4..4 + plen];
    FrameFields(s, plen, crc(p));
    assert Decode(p) == Some(r);
    PayloadOfDecode(p);
    assert s[..k] == Frame(crc, p);
  }

  // ---- The log as a file of frames ----

  ghost predicate Writes(c: Codec<Rec>, crc: Checksum, r: Rec) {
    c.enc(r) == FrameOf(crc, r) && (c.ok(r) <==> Storable(r))
  }

  ghost predicate Reads(c: Codec<Rec>, crc: Checksum, s: seq<Byte>) {
    c.parse(s) == ParseFrame(crc, s)
  }

  ghost predicate IsLogCodec(c: Codec<Rec>, crc: Checksum) {
    (forall r :: Writes(c, crc, r)) && (forall s :: Reads(c, crc, s))
  }

  // The log's frames as a codec. It is named by what it does, so that a proof
  // about files looks into a frame only where it says so.
  ghost function LogCodec(crc: Checksum): (c: Codec<Rec>)
    ensures IsLogCodec(c, crc)
  {
    LogCodecExists(crc);
    var c :| IsLogCodec(c, crc);
    c
  }

  lemma LogCodecExists(crc: Checksum)
    ensures exists c :: IsLogCodec(c, crc)
  {
    var c := Codec(r => FrameOf(crc, r), s => ParseFrame(crc, s), r => Storable(r));
    assert IsLogCodec(c, crc);
  }

  lemma LogCodecIsLawful(crc: Checksum)
    ensures Lawful(LogCodec(crc))
  {
    var c := LogCodec(crc);
    forall s
      ensures ReadsFrame(c, s)
    {
      assert Reads(c, crc, s);
      match c.parse(s)
      case None =>
      case Some((r, k)) =>
        ParseFrameIsFrame(crc, s, r, k);
        assert Writes(c, crc, r);
    }
    forall r, s
      ensures FrameIsRead(c, r, s)
    {
      assert Reads(c, crc, s) && Writes(c, crc, r);
      ParseFrameIsFrame(crc, s, r, |c.enc(r)|);
    }
  }

  predicate AllStorable(rs: seq<Rec>) {
    forall i :: 0 <= i < |rs| ==> Storable(rs[i])
  }

  lemma StorableIsReadable(crc: Checksum, rs: seq<Rec>)
    ensures AllOk(LogCodec(crc), rs) <==> AllStorable(rs)
  {
    assert forall i :: 0 <= i < |rs| ==> Writes(LogCodec(crc), crc, rs[i]);
  }

  ghost function FileOf(crc: Checksum, rs: seq<Rec>): seq<Byte> {
    FileBytes(LogCodec(crc), rs)
  }

  ghost function ReopenLog(crc: Checksum, file: seq<Byte>): Reopened<Rec> {
    LogCodecIsLawful(crc);
    Reopen(LogCodec(crc), file)
  }
}
