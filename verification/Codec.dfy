// The encoders, which fill a caller's buffer in place, and the decoder.
module Codec {
  import opened Bytes
  import opened Format

  // `s` with `bytes` written over it at `off`.
  function Splice(s: seq<Byte>, off: nat, bytes: seq<Byte>): (r: seq<Byte>)
    requires off + |bytes| <= |s|
    ensures |r| == |s|
  {
    s[..off] + bytes + s[off + |bytes|..]
  }

  // One write right behind another is one longer write.
  lemma SpliceTwice(s: seq<Byte>, off: nat, a: seq<Byte>, b: seq<Byte>)
    requires off + |a| + |b| <= |s|
    ensures Splice(Splice(s, off, a), off + |a|, b) == Splice(s, off, a + b)
  {
    var t := Splice(s, off, a);
    assert t[..off + |a|] == s[..off] + a;
    assert t[off + |a| + |b|..] == s[off + |a| + |b|..];
  }

  lemma SpliceHead(s: seq<Byte>, bytes: seq<Byte>)
    requires |bytes| <= |s|
    ensures Splice(s, 0, bytes)[..|bytes|] == bytes && Splice(s, 0, bytes)[|bytes|..] == s[|bytes|..]
  {
  }

  // A little-endian store of the low `w` bytes of `n`.
  method PutLE(dst: array<Byte>, off: nat, n: nat, w: nat)
    requires off + w <= dst.Length
    modifies dst
    ensures dst[..] == Splice(old(dst[..]), off, LE(n, w))
  {
    var i, v := 0, n;
    while i < w
      invariant 0 <= i <= w
      invariant dst[off..off + i] + LE(v, w - i) == LE(n, w)
      invariant dst[..off] == old(dst[..off]) && dst[off + w..] == old(dst[off + w..])
    {
      ghost var before := dst[off..off + i];
      ghost var rest := LE(v, w - i);
      dst[off + i] := v % 256;
      i, v := i + 1, v / 256;
      assert dst[off..off + i] == before + [rest[0]];
      assert rest == [rest[0]] + LE(v, w - i);
    }
    assert LE(v, 0) == [];
    assert dst[..] == dst[..off] + dst[off..off + w] + dst[off + w..];
  }

  method CopyInto(dst: array<Byte>, off: nat, src: seq<Byte>)
    requires off + |src| <= dst.Length
    modifies dst
    ensures dst[..] == Splice(old(dst[..]), off, src)
  {
    var i := 0;
    while i < |src|
      invariant 0 <= i <= |src|
      invariant dst[off..off + i] == src[..i]
      invariant dst[..off] == old(dst[..off]) && dst[off + |src|..] == old(dst[off + |src|..])
    {
      dst[off + i] := src[i];
      i := i + 1;
    }
    assert dst[..] == dst[..off] + dst[off..off + |src|] + dst[off + |src|..];
  }

  lemma FrameAround(s: seq<Byte>, len: seq<Byte>, p: seq<Byte>, sum: seq<Byte>)
    requires |len| == 4 && |sum| == 4 && 8 + |p| <= |s| && s[4..4 + |p|] == p
    ensures Splice(Splice(s, 0, len), 4 + |p|, sum) == Splice(s, 0, len + p + sum)
  {
    assert Splice(s, 0, len) == Splice(s, 0, len + p);
    SpliceTwice(s, 0, len + p, sum);
  }

  // The length prefix and checksum around a payload already written at offset 4.
  method FrameFinish(crc: Checksum, dst: array<Byte>, plen: nat) returns (size: nat)
    requires 8 + plen <= dst.Length
    modifies dst
    ensures size == 8 + plen && dst[..] == Splice(old(dst[..]), 0, Frame(crc, old(dst[4..4 + plen])))
  {
    ghost var was, p := dst[..], dst[4..4 + plen];
    PutLE(dst, 0, plen, 4);
    assert dst[4..4 + plen] == p;
    var sum := crc(dst[4..4 + plen]);
    PutLE(dst, 4 + plen, sum, 4);
    FrameAround(was, LE(plen, 4), p, LE(sum, 4));
    size := 8 + plen;
  }

  // A frame written around a payload replaces it.
  lemma FrameOver(s: seq<Byte>, p: seq<Byte>, frame: seq<Byte>)
    requires |frame| == 8 + |p| <= |s|
    ensures Splice(s, 4, p)[4..4 + |p|] == p
    ensures Splice(Splice(s, 4, p), 0, frame) == Splice(s, 0, frame)
  {
  }

  method FinishRecord(crc: Checksum, dst: array<Byte>, plen: nat, ghost was: seq<Byte>, ghost r: Rec)
    returns (size: nat)
    requires plen == PayloadSize(r) && 8 + plen <= |was| && dst[..] == Splice(was, 4, Payload(r))
    modifies dst
    ensures size == 8 + plen && dst[..] == Splice(was, 0, FrameOf(crc, r))
  {
    FrameOver(was, Payload(r), FrameOf(crc, r));
    assert dst[4..4 + plen] == dst[..][4..4 + plen];
    size := FrameFinish(crc, dst, plen);
  }

  method PutHead(dst: array<Byte>, op: Byte, slot: U32, ts: U64)
    requires 17 <= dst.Length
    modifies dst
    ensures dst[..] == Splice(old(dst[..]), 4, Head(op, slot, ts))
  {
    ghost var was := dst[..];
    dst[4] := op;
    assert dst[..] == Splice(was, 4, [op]);
    PutLE(dst, 5, slot, 4);
    SpliceTwice(was, 4, [op], LE(slot, 4));
    PutLE(dst, 9, ts, 8);
    SpliceTwice(was, 4, [op] + LE(slot, 4), LE(ts, 8));
  }

  method EncodeSeqOp(crc: Checksum, dst: array<Byte>, op: Op, slot: U32, ts: U64, n: U64) returns (size: nat)
    requires dst.Length >= 29
    modifies dst
    ensures size == 29 && dst[..] == Splice(old(dst[..]), 0, FrameOf(crc, SeqOp(op, slot, ts, n)))
  {
    ghost var was := dst[..];
    PutHead(dst, OpByte(op), slot, ts);
    PutLE(dst, 17, n, 8);
    SpliceTwice(was, 4, Head(OpByte(op), slot, ts), LE(n, 8));
    size := FinishRecord(crc, dst, 21, was, SeqOp(op, slot, ts, n));
  }

  method EncodeTombstone(crc: Checksum, dst: array<Byte>, slot: U32, ts: U64) returns (size: nat)
    requires dst.Length >= 21
    modifies dst
    ensures size == 21 && dst[..] == Splice(old(dst[..]), 0, FrameOf(crc, Tombstone(slot, ts)))
  {
    ghost var was := dst[..];
    PutHead(dst, 5, slot, ts);
    assert Head(5, slot, ts) == Payload(Tombstone(slot, ts));
    size := FinishRecord(crc, dst, 13, was, Tombstone(slot, ts));
  }

  method PutNames(dst: array<Byte>, stream: Name, consumer: Name)
    requires dst.Length >= 21 + |stream| + |consumer|
    modifies dst
    ensures dst[..] == Splice(old(dst[..]), 17, LE(|stream|, 2) + LE(|consumer|, 2) + stream + consumer)
  {
    ghost var was := dst[..];
    PutLE(dst, 17, |stream|, 2);
    PutLE(dst, 19, |consumer|, 2);
    SpliceTwice(was, 17, LE(|stream|, 2), LE(|consumer|, 2));
    CopyInto(dst, 21, stream);
    SpliceTwice(was, 17, LE(|stream|, 2) + LE(|consumer|, 2), stream);
    CopyInto(dst, 21 + |stream|, consumer);
    SpliceTwice(was, 17, LE(|stream|, 2) + LE(|consumer|, 2) + stream, consumer);
  }

  method EncodeRegister(crc: Checksum, dst: array<Byte>, slot: U32, ts: U64, stream: Name, consumer: Name)
    returns (size: nat)
    requires dst.Length >= 25 + |stream| + |consumer|
    modifies dst
    ensures size == 25 + |stream| + |consumer|
    ensures dst[..] == Splice(old(dst[..]), 0, FrameOf(crc, Register(slot, ts, stream, consumer)))
  {
    ghost var was := dst[..];
    PutHead(dst, 1, slot, ts);
    PutNames(dst, stream, consumer);
    SpliceTwice(was, 4, Head(1, slot, ts), LE(|stream|, 2) + LE(|consumer|, 2) + stream + consumer);
    size := FinishRecord(crc, dst, 17 + |stream| + |consumer|, was, Register(slot, ts, stream, consumer));
  }

  method PutWords(dst: array<Byte>, off: nat, seqs: seq<U64>)
    requires off + 8 * |seqs| <= dst.Length
    modifies dst
    ensures dst[..] == Splice(old(dst[..]), off, Words(seqs))
  {
    ghost var was := dst[..];
    for i := 0 to |seqs|
      invariant dst[..] == Splice(was, off, Words(seqs[..i]))
    {
      PutLE(dst, off + 8 * i, seqs[i], 8);
      SpliceTwice(was, off, Words(seqs[..i]), LE(seqs[i], 8));
      assert seqs[..i + 1][..i] == seqs[..i];
    }
    assert seqs[..|seqs|] == seqs;
  }

  method PutBounds(dst: array<Byte>, minSeq: U64, maxSeq: U64, count: nat)
    requires dst.Length >= 37
    modifies dst
    ensures dst[..] == Splice(old(dst[..]), 17, LE(minSeq, 8) + LE(maxSeq, 8) + LE(count, 4))
  {
    ghost var was := dst[..];
    PutLE(dst, 17, minSeq, 8);
    PutLE(dst, 25, maxSeq, 8);
    SpliceTwice(was, 17, LE(minSeq, 8), LE(maxSeq, 8));
    PutLE(dst, 33, count, 4);
    SpliceTwice(was, 17, LE(minSeq, 8) + LE(maxSeq, 8), LE(count, 4));
  }

  lemma SnapshotPayload(slot: U32, ts: U64, minSeq: U64, maxSeq: U64, seqs: seq<U64>)
    ensures Payload(Snapshot(slot, ts, minSeq, maxSeq, seqs))
            == Head(6, slot, ts) + (LE(minSeq, 8) + LE(maxSeq, 8) + LE(|seqs|, 4)) + Words(seqs)
  {
  }

  method EncodeSnapshot(crc: Checksum, dst: array<Byte>, slot: U32, ts: U64, minSeq: U64, maxSeq: U64, seqs: seq<U64>)
    returns (size: nat)
    requires dst.Length >= 41 + 8 * |seqs|
    modifies dst
    ensures size == 41 + 8 * |seqs|
    ensures dst[..] == Splice(old(dst[..]), 0, FrameOf(crc, Snapshot(slot, ts, minSeq, maxSeq, seqs)))
  {
    ghost var was := dst[..];
    ghost var bounds := LE(minSeq, 8) + LE(maxSeq, 8) + LE(|seqs|, 4);
    PutHead(dst, 6, slot, ts);
    PutBounds(dst, minSeq, maxSeq, |seqs|);
    SpliceTwice(was, 4, Head(6, slot, ts), bounds);
    PutWords(dst, 37, seqs);
    SpliceTwice(was, 4, Head(6, slot, ts) + bounds, Words(seqs));
    SnapshotPayload(slot, ts, minSeq, maxSeq, seqs);
    size := FinishRecord(crc, dst, 33 + 8 * |seqs|, was, Snapshot(slot, ts, minSeq, maxSeq, seqs));
  }

  method DecodePayload(p: seq<Byte>) returns (r: Option<Rec>)
    ensures r == Decode(p)
  {
    if |p| < 1 {
      return None;
    }
    var op := p[0];
    if op == 2 || op == 3 || op == 4 || op == 7 {
      if |p| != 21 {
        return None;
      }
      var kind := if op == 2 then Record else if op == 3 then Confirm else if op == 4 then Expire else ConfirmUpTo;
      r := Some(SeqOp(kind, U32At(p, 1), U64At(p, 5), U64At(p, 13)));
    } else if op == 5 {
      if |p| != 13 {
        return None;
      }
      r := Some(Tombstone(U32At(p, 1), U64At(p, 5)));
    } else if op == 1 {
      if |p| < 17 {
        return None;
      }
      var sl: nat, cl: nat := U16At(p, 13), U16At(p, 15);
      if 17 + sl + cl != |p| {
        return None;
      }
      r := Some(Register(U32At(p, 1), U64At(p, 5), p[17..17 + sl], p[17 + sl..17 + sl + cl]));
    } else if op == 6 {
      if |p| < 33 {
        return None;
      }
      var count: nat := U32At(p, 29);
      if 33 + count * 8 != |p| {
        return None;
      }
      var seqs: seq<U64> := [];
      var off := 33;
      for i := 0 to count
        invariant off == 33 + 8 * i && seqs == SeqsAt(p, i)
      {
        seqs := seqs + [U64At(p, off)];
        off := off + 8;
      }
      r := Some(Snapshot(U32At(p, 1), U64At(p, 5), U64At(p, 13), U64At(p, 21), seqs));
    } else {
      r := None;
    }
  }
}
