// Files made of self-delimiting frames: reading one back, cutting it at an
// arbitrary byte, and recovering. Nothing here depends on what a frame holds.
module FrameLog {
  import opened Bytes

  const MAGIC: seq<Byte> := [0x41, 0x52, 0x42, 0x57, 0x41, 0x4C, 0x30, 0x31]

  // `enc` writes the frame of a value, `parse` reads one at the head of a byte
  // string and says how long it was, `ok` names the values that can be read back.
  datatype Codec<!R> = Codec(enc: R -> seq<Byte>, parse: seq<Byte> -> Option<(R, nat)>, ok: R -> bool)

  // What is parsed at the head of `s` is the frame of a readable value.
  predicate ReadsFrame<R>(c: Codec<R>, s: seq<Byte>) {
    match c.parse(s)
    case None => true
    case Some((r, k)) => c.ok(r) && 0 < k == |c.enc(r)| && c.enc(r) <= s
  }

  // The frame of a readable value is parsed, whatever follows it.
  predicate FrameIsRead<R(==)>(c: Codec<R>, r: R, s: seq<Byte>) {
    c.ok(r) && c.enc(r) <= s ==> c.parse(s) == Some((r, |c.enc(r)|))
  }

  ghost predicate Lawful<R(!new)>(c: Codec<R>) {
    && (forall s :: ReadsFrame(c, s))
    && (forall r, s :: FrameIsRead(c, r, s))
  }

  // ---- The whole log ----

  function EncodeAll<R>(c: Codec<R>, rs: seq<R>): seq<Byte> {
    if rs == [] then [] else EncodeAll(c, rs[..|rs| - 1]) + c.enc(rs[|rs| - 1])
  }

  predicate AllOk<R>(c: Codec<R>, rs: seq<R>) {
    forall i :: 0 <= i < |rs| ==> c.ok(rs[i])
  }

  // The records the read loop accepts, and how many bytes they span.
  ghost function ParseAll<R(!new)>(c: Codec<R>, s: seq<Byte>): (res: (seq<R>, nat))
    requires Lawful(c)
    ensures res.1 <= |s|
    decreases |s|
  {
    assert ReadsFrame(c, s);
    match c.parse(s)
    case None => ([], 0)
    case Some((r, k)) =>
      var rest := ParseAll(c, s[k..]);
      ([r] + rest.0, k + rest.1)
  }

  lemma {:induction false} EncodeAllAppend<R>(c: Codec<R>, a: seq<R>, b: seq<R>)
    ensures EncodeAll(c, a + b) == EncodeAll(c, a) + EncodeAll(c, b)
    decreases |b|
  {
    if b == [] {
      assert a + b == a;
    } else {
      var k := |b| - 1;
      EncodeAllAppend(c, a, b[..k]);
      assert (a + b)[..|a| + k] == a + b[..k];
    }
  }

  lemma EncodeAllOne<R>(c: Codec<R>, r: R)
    ensures EncodeAll(c, [r]) == c.enc(r)
  {
    assert [r][..0] == [];
  }

  // What is read can be read back, is byte for byte the prefix it was read
  // from, and the reader stopped only where no frame starts.
  lemma {:induction false} ParseAllSound<R(!new)>(c: Codec<R>, s: seq<Byte>)
    requires Lawful(c)
    ensures var (rs, good) := ParseAll(c, s);
            AllOk(c, rs) && EncodeAll(c, rs) == s[..good] && c.parse(s[good..]) == None
    decreases |s|
  {
    assert ReadsFrame(c, s);
    match c.parse(s)
    case None => assert s[0..] == s;
    case Some((r, k)) =>
      ParseAllSound(c, s[k..]);
      var (rest, good) := ParseAll(c, s[k..]);
      EncodeAllAppend(c, [r], rest);
      EncodeAllOne(c, r);
      assert s[..k + good] == s[..k] + s[k..][..good];
      assert s[k..][good..] == s[k + good..];
  }

  // A log is read back in full, whatever follows it.
  lemma {:induction false} ParseAllOfFrames<R(!new)>(c: Codec<R>, rs: seq<R>, tail: seq<Byte>)
    requires Lawful(c) && AllOk(c, rs)
    ensures var (more, k) := ParseAll(c, tail);
            ParseAll(c, EncodeAll(c, rs) + tail) == (rs + more, |EncodeAll(c, rs)| + k)
    decreases |rs|
  {
    if rs == [] {
      assert EncodeAll(c, rs) + tail == tail;
      assert rs + ParseAll(c, tail).0 == ParseAll(c, tail).0;
    } else {
      var r, rest := rs[0], rs[1..];
      assert rs == [r] + rest;
      EncodeAllAppend(c, [r], rest);
      EncodeAllOne(c, r);
      var s := EncodeAll(c, rs) + tail;
      assert s == c.enc(r) + (EncodeAll(c, rest) + tail);
      ParseAllOfFrames(c, rest, tail);
      assert FrameIsRead(c, r, s);
      assert ReadsFrame(c, s);
      assert s[|c.enc(r)|..] == EncodeAll(c, rest) + tail;
      var more := ParseAll(c, tail).0;
      assert [r] + (rest + more) == rs + more;
    }
  }

  lemma ParseAllOfLog<R(!new)>(c: Codec<R>, rs: seq<R>)
    requires Lawful(c) && AllOk(c, rs)
    ensures ParseAll(c, EncodeAll(c, rs)) == (rs, |EncodeAll(c, rs)|)
  {
    ParseAllOfFrames(c, rs, []);
    assert EncodeAll(c, rs) + [] == EncodeAll(c, rs) && rs + [] == rs;
    assert ReadsFrame(c, []);
  }

  // No list of readable records whose frames begin `s` is longer than the one read.
  lemma ParseAllIsLongest<R(!new)>(c: Codec<R>, s: seq<Byte>, rs: seq<R>)
    requires Lawful(c) && AllOk(c, rs) && EncodeAll(c, rs) <= s
    ensures rs <= ParseAll(c, s).0 && |EncodeAll(c, rs)| <= ParseAll(c, s).1
  {
    var tail := s[|EncodeAll(c, rs)|..];
    assert s == EncodeAll(c, rs) + tail;
    ParseAllOfFrames(c, rs, tail);
  }

  // ---- The read loop ----

  // The reader has come to `pos` having accepted `recs`.
  ghost predicate ReadUpTo<R(!new)>(c: Codec<R>, s: seq<Byte>, pos: nat, recs: seq<R>)
    requires Lawful(c)
  {
    && pos <= |s|
    && ParseAll(c, s) == (recs + ParseAll(c, s[pos..]).0, pos + ParseAll(c, s[pos..]).1)
  }

  lemma ReadStart<R(!new)>(c: Codec<R>, s: seq<Byte>)
    requires Lawful(c)
    ensures ReadUpTo(c, s, 0, [])
  {
    assert s[0..] == s;
    var more := ParseAll(c, s).0;
    assert [] + more == more;
  }

  lemma ReadOne<R(!new)>(c: Codec<R>, s: seq<Byte>, pos: nat, recs: seq<R>)
    requires Lawful(c) && ReadUpTo(c, s, pos, recs) && c.parse(s[pos..]).Some?
    ensures var (r, k) := c.parse(s[pos..]).value;
            k > 0 && ReadUpTo(c, s, pos + k, recs + [r])
  {
    var (r, k) := c.parse(s[pos..]).value;
    assert ReadsFrame(c, s[pos..]);
    assert s[pos..][k..] == s[pos + k..];
    var more := ParseAll(c, s[pos + k..]).0;
    assert recs + ([r] + more) == (recs + [r]) + more;
  }

  lemma ReadEnd<R(!new)>(c: Codec<R>, s: seq<Byte>, pos: nat, recs: seq<R>)
    requires Lawful(c) && ReadUpTo(c, s, pos, recs) && c.parse(s[pos..]) == None
    ensures ParseAll(c, s) == (recs, pos)
  {
    assert recs + [] == recs;
  }

  // ---- Reopening a file ----

  datatype Reopened<R> = BadMagic | Reopened(recs: seq<R>, file: seq<Byte>)

  function FileBytes<R>(c: Codec<R>, rs: seq<R>): seq<Byte> {
    MAGIC + EncodeAll(c, rs)
  }

  // A missing or torn header is rewritten; a wrong one is an error; otherwise
  // the file is cut at the end of the last good frame.
  ghost function Reopen<R(!new)>(c: Codec<R>, file: seq<Byte>): Reopened<R>
    requires Lawful(c)
  {
    if |file| < 8 then Reopened([], MAGIC)
    else if file[..8] != MAGIC then BadMagic
    else
      var (rs, good) := ParseAll(c, file[8..]);
      Reopened(rs, file[..8 + good])
  }

  lemma ReopenOfLog<R(!new)>(c: Codec<R>, rs: seq<R>, tail: seq<Byte>)
    requires Lawful(c) && AllOk(c, rs)
    ensures Reopen(c, FileBytes(c, rs) + tail)
            == Reopened(rs + ParseAll(c, tail).0, FileBytes(c, rs) + tail[..ParseAll(c, tail).1])
  {
    var f := FileBytes(c, rs) + tail;
    assert f[..8] == MAGIC;
    assert f[8..] == EncodeAll(c, rs) + tail;
    ParseAllOfFrames(c, rs, tail);
    var k := ParseAll(c, tail).1;
    assert f[..8 + |EncodeAll(c, rs)| + k] == FileBytes(c, rs) + tail[..k];
  }

  lemma ReopenOfWholeLog<R(!new)>(c: Codec<R>, rs: seq<R>)
    requires Lawful(c) && AllOk(c, rs)
    ensures Reopen(c, FileBytes(c, rs)) == Reopened(rs, FileBytes(c, rs))
  {
    ReopenOfLog(c, rs, []);
    ParseAllOfLog(c, []);
    assert FileBytes(c, rs) + [] == FileBytes(c, rs) && rs + [] == rs;
  }

  // Whatever the file held, the reopened one is a log of exactly the records
  // recovered, and recovering it again changes nothing.
  lemma ReopenIsIdempotent<R(!new)>(c: Codec<R>, file: seq<Byte>)
    requires Lawful(c) && Reopen(c, file).Reopened?
    ensures var o := Reopen(c, file);
            AllOk(c, o.recs) && o.file == FileBytes(c, o.recs) && Reopen(c, o.file) == o
  {
    var o := Reopen(c, file);
    if |file| >= 8 {
      ParseAllSound(c, file[8..]);
      assert o.file == MAGIC + file[8..][..|o.file| - 8];
    }
    ReopenOfWholeLog(c, o.recs);
  }

  lemma AppendToLog<R(!new)>(c: Codec<R>, rs: seq<R>, more: seq<R>)
    requires Lawful(c) && AllOk(c, rs) && AllOk(c, more)
    ensures var f := FileBytes(c, rs) + EncodeAll(c, more); Reopen(c, f) == Reopened(rs + more, f)
  {
    EncodeAllAppend(c, rs, more);
    assert FileBytes(c, rs + more) == FileBytes(c, rs) + EncodeAll(c, more);
    ReopenOfWholeLog(c, rs + more);
  }

  // Records appended after a recovery are read behind the recovered ones.
  lemma AppendAfterRecovery<R(!new)>(c: Codec<R>, file: seq<Byte>, more: seq<R>)
    requires Lawful(c) && Reopen(c, file).Reopened? && AllOk(c, more)
    ensures var o := Reopen(c, file);
            Reopen(c, o.file + EncodeAll(c, more)) == Reopened(o.recs + more, o.file + EncodeAll(c, more))
  {
    ReopenIsIdempotent(c, file);
    AppendToLog(c, Reopen(c, file).recs, more);
  }

  lemma FilePrefix<R>(c: Codec<R>, rs: seq<R>, m: nat)
    requires m <= |rs|
    ensures FileBytes(c, rs[..m]) <= FileBytes(c, rs) && |FileBytes(c, rs[..m])| >= 8
    ensures EncodeAll(c, rs[..m]) <= EncodeAll(c, rs)
  {
    assert rs == rs[..m] + rs[m..];
    EncodeAllAppend(c, rs[..m], rs[m..]);
  }

  // Cutting a log at any byte: what is recovered is a prefix of its records.
  lemma CutIsPrefix<R(!new)>(c: Codec<R>, rs: seq<R>, cut: nat)
    requires Lawful(c) && AllOk(c, rs) && cut <= |FileBytes(c, rs)|
    ensures var o := Reopen(c, FileBytes(c, rs)[..cut]); o.Reopened? && o.recs <= rs
  {
    var file := FileBytes(c, rs)[..cut];
    if cut >= 8 {
      assert file[..8] == MAGIC;
      ParseAllSound(c, file[8..]);
      var recs := Reopen(c, file).recs;
      assert file[8..] <= EncodeAll(c, rs) && EncodeAll(c, recs) <= file[8..];
      assert EncodeAll(c, recs) <= EncodeAll(c, rs);
      ParseAllIsLongest(c, EncodeAll(c, rs), recs);
      ParseAllOfLog(c, rs);
    }
  }

  // ... and it is the prefix of exactly those whose frames lie before the cut,
  // so it has every record that was synced.
  lemma CutKeepsWholeFrames<R(!new)>(c: Codec<R>, rs: seq<R>, cut: nat, m: nat)
    requires Lawful(c) && AllOk(c, rs) && cut <= |FileBytes(c, rs)| && 0 < m <= |rs|
    ensures var o := Reopen(c, FileBytes(c, rs)[..cut]);
            o.Reopened? && (m <= |o.recs| <==> |FileBytes(c, rs[..m])| <= cut)
  {
    CutIsPrefix(c, rs, cut);
    CutFitsRead(c, rs, cut, m);
    if |FileBytes(c, rs[..m])| <= cut {
      CutReadsFitting(c, rs, cut, m);
    }
  }

  lemma CutReadsFitting<R(!new)>(c: Codec<R>, rs: seq<R>, cut: nat, m: nat)
    requires Lawful(c) && AllOk(c, rs) && 0 < m <= |rs|
    requires |FileBytes(c, rs[..m])| <= cut <= |FileBytes(c, rs)|
    ensures var o := Reopen(c, FileBytes(c, rs)[..cut]); o.Reopened? && m <= |o.recs|
  {
    var file := FileBytes(c, rs)[..cut];
    FilePrefix(c, rs, m);
    assert file[..8] == MAGIC;
    assert file[8..] == EncodeAll(c, rs)[..cut - 8];
    CutReadsPrefix(c, EncodeAll(c, rs), cut - 8, rs[..m]);
  }

  lemma CutFitsRead<R(!new)>(c: Codec<R>, rs: seq<R>, cut: nat, m: nat)
    requires Lawful(c) && AllOk(c, rs) && 0 < m <= |rs| && cut <= |FileBytes(c, rs)|
    requires var o := Reopen(c, FileBytes(c, rs)[..cut]); o.Reopened? && o.recs <= rs
    ensures var o := Reopen(c, FileBytes(c, rs)[..cut]);
            m <= |o.recs| ==> |FileBytes(c, rs[..m])| <= cut
  {
    var file := FileBytes(c, rs)[..cut];
    var o := Reopen(c, file);
    if m <= |o.recs| {
      ParseAllSound(c, file[8..]);
      FilePrefix(c, o.recs, m);
      assert o.recs[..m] == rs[..m];
    }
  }

  lemma CutReadsPrefix<R(!new)>(c: Codec<R>, s: seq<Byte>, cut: nat, rs: seq<R>)
    requires Lawful(c) && AllOk(c, rs) && EncodeAll(c, rs) <= s && |EncodeAll(c, rs)| <= cut <= |s|
    ensures |rs| <= |ParseAll(c, s[..cut]).0|
  {
    assert EncodeAll(c, rs) <= s[..cut];
    ParseAllIsLongest(c, s[..cut], rs);
  }
}
