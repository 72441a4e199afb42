// The read loops over the log file, and the rewrite compaction does.
module LogFile {
  import opened Bytes
  import opened FrameLog
  import opened Format
  import opened Codec
  import opened Replay
  import opened Sorting
  import opened Compaction

  lemma FieldAt(s: seq<Byte>, pos: nat, off: nat)
    requires pos + off + 4 <= |s|
    ensures U32At(s, pos + off) == U32At(s[pos..], off)
  {
    assert s[pos + off..pos + off + 4] == s[pos..][off..off + 4];
  }

  // One pass of the read loop: a length, a payload, a checksum.
  method ReadFrame(crc: Checksum, s: seq<Byte>, pos: nat) returns (r: Option<(Rec, nat)>)
    requires pos <= |s|
    ensures r == LogCodec(crc).parse(s[pos..])
  {
    assert Reads(LogCodec(crc), crc, s[pos..]);
    if |s| - pos < 4 {
      return None;
    }
    FieldAt(s, pos, 0);
    var plen := U32At(s, pos);
    if plen <= 0 || plen > MAX_PAYLOAD {
      return None;
    }
    if |s| - pos - 4 < plen {
      return None;
    }
    var payload := s[pos + 4..pos + 4 + plen];
    assert payload == s[pos..][4..4 + plen];
    if |s| - pos - 4 - plen < 4 {
      return None;
    }
    FieldAt(s, pos, 4 + plen);
    if crc(payload) != U32At(s, pos + 4 + plen) {
      return None;
    }
    var dec := DecodePayload(payload);
    if dec.None? {
      return None;
    }
    r := Some((dec.value, 8 + plen));
  }

  // Deleting, one key at a time, every live seq at or below the cursor.
  method DeleteUpTo(live: Live, cursor: U64) returns (kept: Live, removed: nat)
    ensures kept == DropUpTo(live, cursor) && removed == |live| - |kept|
  {
    kept, removed := live, 0;
    var keys := live.Keys;
    while keys != {}
      invariant keys <= live.Keys && kept.Keys <= live.Keys && keys <= kept.Keys
      invariant forall n :: n in kept ==> kept[n] == live[n]
      invariant forall n :: n in live && n !in keys ==> (n in kept <==> n > cursor)
      invariant removed == |live| - |kept|
      decreases |keys|
    {
      var n :| n in keys;
      keys := keys - {n};
      if n <= cursor {
        assert kept.Keys == (kept - {n}).Keys + {n};
        assert |kept.Keys| == |kept| && |(kept - {n}).Keys| == |kept - {n}|;
        kept := kept - {n};
        removed := removed + 1;
      }
    }
  }

  method StampAll(seqs: seq<U64>, ts: I64) returns (live: Live)
    ensures live == Stamped(seqs, ts)
  {
    live := map[];
    for i := 0 to |seqs|
      invariant live == Stamped(seqs[..i], ts)
    {
      assert seqs[..i + 1][..i] == seqs[..i];
      live := live[seqs[i] := ts];
    }
    assert seqs[..|seqs|] == seqs;
  }

  method ApplyReplayRecord(acc: Acc, r: Rec, cutoff: I64) returns (acc': Acc)
    ensures acc' == ApplyReplay(acc, r, cutoff)
  {
    match r {
      case Register(id, ts, stream, consumer) =>
        var rs := Ensure(acc, id);
        if rs.registered.None? {
          rs := rs.(registered := Some(ts));
        }
        acc' := Acc(acc.slots[id := rs], acc.names[id := Names(stream, consumer)]);
      case SeqOp(op, id, ts, n) =>
        if op == Record && Expired(ts, cutoff) {
          return acc;
        }
        var rs := Ensure(acc, id);
        match op {
          case Record => acc' := SetLive(acc, id, rs.live[n := AsI64(ts)]);
          case Confirm => acc' := SetLive(acc, id, rs.live - {n});
          case Expire => acc' := SetLive(acc, id, rs.live - {n});
          case ConfirmUpTo =>
            var kept, removed := DeleteUpTo(rs.live, n);
            acc' := SetLive(acc, id, kept);
        }
      case Tombstone(id, ts) => acc' := Forget(acc, id);
      case Snapshot(id, ts, minSeq, maxSeq, seqs) =>
        var live: Live := map[];
        if !Expired(ts, cutoff) {
          live := StampAll(seqs, AsI64(ts));
        }
        acc' := SetLive(acc, id, live);
    }
  }

  method ApplyScanRecord(acc: Acc, r: Rec, cutoff: I64) returns (acc': Acc)
    ensures acc' == ApplyScan(acc, r, cutoff)
  {
    match r {
      case Register(id, ts, stream, consumer) =>
        acc' := Acc(acc.slots[id := Ensure(acc, id)], acc.names[id := Names(stream, consumer)]);
      case SeqOp(op, id, ts, n) =>
        if op == Record && Expired(ts, cutoff) {
          return acc;
        }
        var rs := Ensure(acc, id);
        if op == Record {
          acc' := SetLive(acc, id, rs.live[n := AsI64(ts)]);
        } else if op == ConfirmUpTo {
          var kept, removed := DeleteUpTo(rs.live, n);
          acc' := SetLive(acc, id, kept);
        } else {
          acc' := SetLive(acc, id, rs.live - {n});
        }
      case Tombstone(id, ts) => acc' := Forget(acc, id);
      case Snapshot(id, ts, minSeq, maxSeq, seqs) =>
        acc' := SetLive(acc, id, map[]);
        if Expired(ts, cutoff) {
          return;
        }
        var live := StampAll(seqs, AsI64(ts));
        acc' := SetLive(acc', id, live);
    }
  }

  // The read loop run when the log is opened: the records folded, and the
  // offset just past the last whole frame.
  method ReplayFrames(crc: Checksum, s: seq<Byte>, cutoff: I64) returns (acc: Acc, goodOffset: nat)
    ensures Lawful(LogCodec(crc))
    ensures goodOffset == ParseAll(LogCodec(crc), s).1 && acc == FoldReplay(ParseAll(LogCodec(crc), s).0, cutoff)
  {
    ghost var c := LogCodec(crc);
    LogCodecIsLawful(crc);
    acc, goodOffset := EMPTY_ACC, 0;
    ghost var recs: seq<Rec> := [];
    ReadStart(c, s);
    var next := ReadFrame(crc, s, 0);
    while next.Some?
      invariant goodOffset <= |s| && ReadUpTo(c, s, goodOffset, recs)
      invariant next == c.parse(s[goodOffset..])
      invariant acc == FoldReplay(recs, cutoff)
      decreases |s| - goodOffset, next.Some?
    {
      var (r, size) := next.value;
      ReadOne(c, s, goodOffset, recs);
      acc := ApplyReplayRecord(acc, r, cutoff);
      assert (recs + [r])[..|recs|] == recs;
      recs := recs + [r];
      goodOffset := goodOffset + size;
      next := ReadFrame(crc, s, goodOffset);
    }
    ReadEnd(c, s, goodOffset, recs);
  }

  // Opening a file: what it folds to, and what is left of it.
  method ReplayFile(crc: Checksum, file: seq<Byte>, cutoff: I64) returns (ok: bool, acc: Acc, kept: seq<Byte>)
    ensures ok <==> ReopenLog(crc, file).Reopened?
    ensures ok ==> acc == FoldReplay(ReopenLog(crc, file).recs, cutoff) && kept == ReopenLog(crc, file).file
  {
    ok, acc, kept := true, EMPTY_ACC, MAGIC;
    if |file| < 8 {
      return;
    }
    if file[..8] != MAGIC {
      ok := false;
      return;
    }
    var goodOffset;
    acc, goodOffset := ReplayFrames(crc, file[8..], cutoff);
    kept := file[..8 + goodOffset];
  }

  // Compaction's own read loop over the same file.
  method ScanFrames(crc: Checksum, s: seq<Byte>, cutoff: I64) returns (acc: Acc)
    ensures Lawful(LogCodec(crc)) && acc == FoldScan(ParseAll(LogCodec(crc), s).0, cutoff)
  {
    ghost var c := LogCodec(crc);
    LogCodecIsLawful(crc);
    acc := EMPTY_ACC;
    var pos := 0;
    ghost var recs: seq<Rec> := [];
    ReadStart(c, s);
    var next := ReadFrame(crc, s, 0);
    while next.Some?
      invariant pos <= |s| && ReadUpTo(c, s, pos, recs)
      invariant next == c.parse(s[pos..])
      invariant acc == FoldScan(recs, cutoff)
      decreases |s| - pos, next.Some?
    {
      var (r, size) := next.value;
      ReadOne(c, s, pos, recs);
      acc := ApplyScanRecord(acc, r, cutoff);
      assert (recs + [r])[..|recs|] == recs;
      recs := recs + [r];
      pos := pos + size;
      next := ReadFrame(crc, s, pos);
    }
    ReadEnd(c, s, pos, recs);
  }

  method ScanLiveState(crc: Checksum, file: seq<Byte>, cutoff: I64) returns (ok: bool, acc: Acc)
    ensures ok <==> ReopenLog(crc, file).Reopened?
    ensures ok ==> acc == FoldScan(ReopenLog(crc, file).recs, cutoff)
  {
    ok, acc := true, EMPTY_ACC;
    if |file| < 8 {
      return;
    }
    if file[..8] != MAGIC {
      ok := false;
      return;
    }
    acc := ScanFrames(crc, file[8..], cutoff);
  }

  lemma FileOfAppend(crc: Checksum, a: seq<Rec>, b: seq<Rec>)
    ensures FileOf(crc, a + b) == FileOf(crc, a) + EncodeAll(LogCodec(crc), b)
  {
    EncodeAllAppend(LogCodec(crc), a, b);
  }

  lemma FileOfSnoc(crc: Checksum, rs: seq<Rec>, r: Rec)
    ensures FileOf(crc, rs + [r]) == FileOf(crc, rs) + FrameOf(crc, r)
  {
    FileOfAppend(crc, rs, [r]);
    assert Writes(LogCodec(crc), crc, r);
    EncodeAllOne(LogCodec(crc), r);
  }

  lemma {:induction false} FileSize(crc: Checksum, rs: seq<Rec>)
    ensures |FileOf(crc, rs)| == 8 + LogBytes(rs)
  {
    if rs != [] {
      var k := |rs| - 1;
      FileSize(crc, rs[..k]);
      assert rs == rs[..k] + [rs[k]];
      FileOfSnoc(crc, rs[..k], rs[k]);
    } else {
      assert EncodeAll(LogCodec(crc), rs) == [];
    }
  }

  lemma TwoFrames(crc: Checksum, a: Rec, b: Rec)
    ensures EncodeAll(LogCodec(crc), [a, b]) == LogCodec(crc).enc(a) + LogCodec(crc).enc(b)
  {
    var c := LogCodec(crc);
    EncodeAllAppend(c, [a], [b]);
    EncodeAllOne(c, a);
    EncodeAllOne(c, b);
    assert [a] + [b] == [a, b];
  }

  // One record in a buffer of exactly its size.
  method WriteRegister(crc: Checksum, id: U32, now: U64, nm: Names) returns (out: seq<Byte>)
    ensures out == LogCodec(crc).enc(Register(id, now, nm.stream, nm.consumer))
  {
    var buf := new Byte[25 + |nm.stream| + |nm.consumer|];
    ghost var was := buf[..];
    var n := EncodeRegister(crc, buf, id, now, nm.stream, nm.consumer);
    out := buf[..n];
    SpliceHead(was, FrameOf(crc, Register(id, now, nm.stream, nm.consumer)));
    assert Writes(LogCodec(crc), crc, Register(id, now, nm.stream, nm.consumer));
  }

  method WriteSnapshot(crc: Checksum, id: U32, now: U64, seqs: seq<U64>) returns (out: seq<Byte>)
    requires seqs != []
    ensures out == LogCodec(crc).enc(Snapshot(id, now, seqs[0], seqs[|seqs| - 1], seqs))
  {
    var buf := new Byte[41 + 8 * |seqs|];
    ghost var was := buf[..];
    var n := EncodeSnapshot(crc, buf, id, now, seqs[0], seqs[|seqs| - 1], seqs);
    out := buf[..n];
    SpliceHead(was, FrameOf(crc, Snapshot(id, now, seqs[0], seqs[|seqs| - 1], seqs)));
    assert Writes(LogCodec(crc), crc, Snapshot(id, now, seqs[0], seqs[|seqs| - 1], seqs));
  }

  method SortSeqs(live: Live) returns (seqs: seq<U64>)
    ensures seqs == Asc64(live.Keys)
  {
    seqs := Sort64(live.Keys);
  }

  lemma SlotFrames(crc: Checksum, id: U32, v: SlotView, now: U64)
    requires v.live != map[]
    ensures var ns := Asc64(v.live.Keys);
            && ns != []
            && EncodeAll(LogCodec(crc), CompactSlot(id, v, now))
               == LogCodec(crc).enc(Register(id, now, NameOr(v).stream, NameOr(v).consumer))
                + LogCodec(crc).enc(Snapshot(id, now, ns[0], ns[|ns| - 1], ns))
  {
    var part := CompactSlot(id, v, now);
    TwoFrames(crc, part[0], part[1]);
  }

  // The records of one slot, if it holds anything.
  method WriteSlot(crc: Checksum, acc: Acc, id: U32, now: U64) returns (out: seq<Byte>)
    requires id in acc.slots
    ensures out == EncodeAll(LogCodec(crc), CompactSlot(id, ViewOf(acc, id), now))
  {
    var live := acc.slots[id].live;
    if live == map[] {
      return [];
    }
    SlotFrames(crc, id, ViewOf(acc, id), now);
    var nm := if id in acc.names then acc.names[id] else Names([], []);
    var reg := WriteRegister(crc, id, now, nm);
    var seqs := SortSeqs(live);
    var snap := WriteSnapshot(crc, id, now, seqs);
    out := reg + snap;
  }

  lemma CompactIdsSnoc(crc: Checksum, acc: Acc, ids: seq<U32>, i: nat, now: U64)
    requires i < |ids|
    ensures FileOf(crc, CompactIds(acc, ids[..i + 1], now))
            == FileOf(crc, CompactIds(acc, ids[..i], now))
             + EncodeAll(LogCodec(crc), CompactSlot(ids[i], ViewOf(acc, ids[i]), now))
  {
    assert ids[..i + 1][..i] == ids[..i];
    FileOfAppend(crc, CompactIds(acc, ids[..i], now), CompactSlot(ids[i], ViewOf(acc, ids[i]), now));
  }

  lemma CompactedFileSize(crc: Checksum, acc: Acc, now: U64)
    ensures |FileOf(crc, Compacted(acc, now))| == 8 + TotalCost(acc, Asc32(acc.slots.Keys))
  {
    FileSize(crc, Compacted(acc, now));
    CompactedSize(acc, Asc32(acc.slots.Keys), now);
  }

  method SortIds(slots: map<U32, Rebuild>) returns (ids: seq<U32>)
    ensures ids == Asc32(slots.Keys)
    ensures forall i :: 0 <= i < |ids| ==> ids[i] in slots
  {
    var ns := SortKeys(slots.Keys);
    ghost var asc := Asc32(slots.Keys);
    assert forall i :: 0 <= i < |ns| ==> ns[i] == asc[i] && asc[i] in asc;
    ids := ns;
  }

  // The compacted file, and its size as the writer counted it.
  method WriteCompacted(crc: Checksum, acc: Acc, now: U64) returns (out: seq<Byte>, size: nat)
    ensures out == FileOf(crc, Compacted(acc, now))
    ensures size == |out| && size == 8 + TotalCost(acc, Asc32(acc.slots.Keys))
  {
    out, size := MAGIC, 8;
    var ids := SortIds(acc.slots);
    for i := 0 to |ids|
      invariant out == FileOf(crc, CompactIds(acc, ids[..i], now)) && size == |out|
    {
      var bytes := WriteSlot(crc, acc, ids[i], now);
      CompactIdsSnoc(crc, acc, ids, i, now);
      out := out + bytes;
      size := size + |bytes|;
    }
    assert ids[..|ids|] == ids;
    CompactedFileSize(crc, acc, now);
  }
}
