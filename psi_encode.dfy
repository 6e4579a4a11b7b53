/**
 * Single-packet PAT and PMT sections laid out as ISO/IEC 13818-1 lays them
 * out (sections 2.4.4.3 and 2.4.4.8), used as the inverse of the decoders:
 * decoding an encoded table gives its entries back.  The CRC_32 is written
 * as zeros because the decoder never reads it; bytes after the section are
 * 0xFF stuffing.  The PMT is written with an empty program_info loop, the
 * one layout the decoder reads as the standard means it.
 */
module PsiEncode {
  import opened TsPacket
  import opened ResultLists
  import opened Psi

  /** The 4-byte header of a packet with the given PID and payload_unit_start_indicator set. */
  function Header(pid: nat): (h: seq<byte>)
    requires pid <= 0x1FFF
    ensures |h| == 4 && h[0] == SYNC_BYTE && h[1] == 0x40 + pid / 256 && h[2] == pid % 256
  {
    [SYNC_BYTE, 0x40 + pid / 256, pid % 256, 0x10]
  }

  /** 0xFF stuffing up to the end of the packet. */
  function Stuffing(used: nat): (s: seq<byte>)
    requires used <= PACKET_SIZE
    ensures |s| == PACKET_SIZE - used
  {
    seq(PACKET_SIZE - used, _ => 0xFF)
  }

  /** The CRC_32 field, never checked by the decoder. */
  const CRC_PLACEHOLDER: seq<byte> := [0, 0, 0, 0]

  /** The values b sit in p from index a on. */
  ghost predicate BytesAt(p: seq<int>, a: nat, b: seq<int>)
  {
    a + |b| <= |p| && forall t :: 0 <= t < |b| ==> p[a + t] == b[t]
  }

  lemma BytesAtMiddle(x: seq<int>, y: seq<int>, z: seq<int>)
    ensures BytesAt(x + y + z, |x|, y)
  {
    forall t | 0 <= t < |y|
      ensures (x + y + z)[|x| + t] == y[t]
    {
    }
  }

  lemma BytesAtSplit(p: seq<int>, a: nat, b: seq<int>, c: seq<int>)
    requires BytesAt(p, a, b + c)
    ensures BytesAt(p, a, b) && BytesAt(p, a + |b|, c)
  {
    forall t | 0 <= t < |b|
      ensures p[a + t] == b[t]
    {
      assert (b + c)[t] == b[t];
    }
    forall t | 0 <= t < |c|
      ensures p[a + |b| + t] == c[t]
    {
      assert (b + c)[|b| + t] == c[t];
    }
  }

  lemma BytesAtNested(p: seq<int>, a: nat, s: seq<int>, b: nat, c: seq<int>)
    requires BytesAt(p, a, s) && BytesAt(s, b, c)
    ensures BytesAt(p, a + b, c)
  {
    forall t | 0 <= t < |c|
      ensures p[a + b + t] == c[t]
    {
      assert p[a + (b + t)] == s[b + t];
    }
  }

  // ---------------------------------------------------------------- PAT

  /** The fields of a PAT record fit their 16 and 13 bits. */
  predicate ValidPatEntry(e: PatEntry)
  {
    e.programNum <= 0xFFFF && e.programMapPid <= 0x1FFF
  }

  /** Every record valid, stated entry by entry so decoding proofs can peel off one record at a time. */
  predicate ValidPatEntries(es: seq<PatEntry>)
  {
    es == [] || (ValidPatEntry(es[0]) && ValidPatEntries(es[1..]))
  }

  /** A program_number and a program_map_PID (or network_PID) behind three reserved bits. */
  function PatRecordBytes(e: PatEntry): (b: seq<byte>)
    requires ValidPatEntry(e)
    ensures |b| == 4
  {
    [e.programNum / 256, e.programNum % 256, 0xE0 + e.programMapPid / 256, e.programMapPid % 256]
  }

  function PatRecordsBytes(es: seq<PatEntry>): (b: seq<byte>)
    requires ValidPatEntries(es)
    ensures |b| == 4 * |es|
  {
    if es == [] then []
    else
      PatRecordBytes(es[0]) + PatRecordsBytes(es[1..])
  }

  /** The PAT section: table_id 0, section_length, transport_stream_id, version 0, section 0 of 0. */
  function PatSection(tsid: nat, es: seq<PatEntry>): (s: seq<byte>)
    requires tsid <= 0xFFFF && |es| <= 42
    requires ValidPatEntries(es)
    ensures |s| == 12 + 4 * |es|
    ensures s[0] == PAT_TABLE_ID && s[1] == 0xB0 && s[2] == 9 + 4 * |es|
    ensures BytesAt(s, 8, PatRecordsBytes(es))
  {
    var sl := 9 + 4 * |es|;
    var head: seq<byte> := [PAT_TABLE_ID, 0xB0, sl, tsid / 256, tsid % 256, 0xC1, 0x00, 0x00];
    BytesAtMiddle(head, PatRecordsBytes(es), CRC_PLACEHOLDER);
    head + PatRecordsBytes(es) + CRC_PLACEHOLDER
  }

  /** A PAT packet: header for PID 0, pointer_field 0, the section, stuffing. */
  function EncodePat(tsid: nat, es: seq<PatEntry>): (p: Packet)
    requires tsid <= 0xFFFF && |es| <= 42
    requires ValidPatEntries(es)
    ensures p[0] == SYNC_BYTE && p[1] == 0x40 && p[2] == 0x00 && p[4] == 0x00
    ensures p[5] == PAT_TABLE_ID && p[6] == 0xB0 && p[7] == 9 + 4 * |es|
    ensures BytesAt(p, 13, PatRecordsBytes(es))
  {
    var sec := PatSection(tsid, es);
    var lead := Header(0) + [0x00];
    var body := lead + sec;
    var p := body + Stuffing(|body|);
    BytesAtMiddle(lead, sec, Stuffing(|body|));
    assert p[5] == sec[0] && p[6] == sec[1] && p[7] == sec[2];
    BytesAtNested(p, 5, sec, 8, PatRecordsBytes(es));
    p
  }

  /** One PAT record laid out at running offset n reads back as itself. */
  lemma PatRecordDecodes(p: Packet, off: nat, n: nat, e: PatEntry)
    requires ValidPatEntry(e)
    requires BytesAt(p, off + 8 + n, PatRecordBytes(e))
    ensures off + 11 + n < PACKET_SIZE && PatRecordAt(p, off, n) == e
  {
    var b := PatRecordBytes(e);
    assert p[off + 8 + n] == b[0] && p[off + 9 + n] == b[1];
    assert p[off + 10 + n] == b[2] && p[off + 11 + n] == b[3];
    Word16Of(e.programNum);
    Pid13Of(7, e.programMapPid);
  }

  /** The PAT loop reads back the records laid out from running offset n on, dropping program 0. */
  lemma {:induction false} PatRecordsDecode(p: Packet, off: nat, limit: int, n: nat, es: seq<PatEntry>)
    requires ValidPatEntries(es)
    requires BytesAt(p, off + 8 + n, PatRecordsBytes(es))
    requires limit == n + 4 * |es|
    ensures PatRecords(p, off, limit, n) == Decoded(Parsed, Programs(es))
    decreases |es|
  {
    if es != [] {
      var e := es[0];
      var b, rest := PatRecordBytes(e), PatRecordsBytes(es[1..]);
      BytesAtSplit(p, off + 8 + n, b, rest);
      PatRecordDecodes(p, off, n, e);
      PatRecordsDecode(p, off, limit, n + 4, es[1..]);
      assert n < limit;
      assert Programs(es) == (if e.programNum == 0 then [] else [e]) + Programs(es[1..]);
    }
  }

  /** The section fields the PAT parse reads before its loop, as the encoder writes them. */
  lemma PatHeaderDecodes(p: Packet, es: seq<PatEntry>)
    requires |es| <= 42
    requires ValidPatEntries(es)
    requires p[1] == 0x40 && p[5] == PAT_TABLE_ID && p[6] == 0xB0 && p[7] == 9 + 4 * |es|
    requires BytesAt(p, 13, PatRecordsBytes(es))
    ensures Pat(p) == Decoded(Parsed, Programs(es))
  {
    assert PayloadUnitStart(p) == 1 by {
      assert p[1] / 64 == 1;
    }
    assert SectionStart(p) == 5;
    Field12Low(0xB, 9 + 4 * |es|);
    assert SectionLength(p) == 9 + 4 * |es|;
    PatRecordsDecode(p, 5, PatLimit(p), 0, es);
  }

  /**
   * An encoded PAT is found by sw_find_pat, and decoding it gives back its
   * records whose program_number is not 0, in order.
   */
  lemma PatRoundTrip(tsid: nat, es: seq<PatEntry>)
    requires tsid <= 0xFFFF && |es| <= 42
    requires ValidPatEntries(es)
    ensures FindPat(EncodePat(tsid, es)) == 1
    ensures Pat(EncodePat(tsid, es)) == Decoded(Parsed, Programs(es))
  {
    var p := EncodePat(tsid, es);
    Pid13Of(2, 0);
    PatHeaderDecodes(p, es);
  }

  // ---------------------------------------------------------------- PMT

  /** A stream entry of the given program whose fields fit their 8, 13 and 12 bits. */
  predicate ValidStream(e: PmtEntry, programNum: nat)
  {
    e.programNum == programNum && e.streamType <= 0xFF &&
    e.elementaryPid <= 0x1FFF && e.esInfoLength <= 0xFFF
  }

  /** Every stream entry valid, stated entry by entry like ValidPatEntries. */
  predicate ValidStreams(es: seq<PmtEntry>, programNum: nat)
  {
    es == [] || (ValidStream(es[0], programNum) && ValidStreams(es[1..], programNum))
  }

  /** stream_type, elementary_PID, ES_info_length and that many descriptor bytes. */
  function StreamBytes(e: PmtEntry, programNum: nat): (b: seq<byte>)
    requires ValidStream(e, programNum)
    ensures |b| == 5 + e.esInfoLength
  {
    [e.streamType, 0xE0 + e.elementaryPid / 256, e.elementaryPid % 256,
     0xF0 + e.esInfoLength / 256, e.esInfoLength % 256]
      + seq(e.esInfoLength, _ => 0xFF)
  }

  function StreamsBytes(es: seq<PmtEntry>, programNum: nat): (b: seq<byte>)
    requires ValidStreams(es, programNum)
    ensures |b| >= 5 * |es|
  {
    if es == [] then []
    else
      StreamBytes(es[0], programNum) + StreamsBytes(es[1..], programNum)
  }

  /**
   * The PMT section: table_id 2, section_length, program_number, version 0,
   * section 0 of 0, no PCR PID (0x1FFF), program_info_length 0, the streams.
   */
  function PmtSection(programNum: nat, es: seq<PmtEntry>): (s: seq<byte>)
    requires programNum <= 0xFFFF
    requires ValidStreams(es, programNum)
    requires |StreamsBytes(es, programNum)| <= 167
    ensures |s| == 16 + |StreamsBytes(es, programNum)|
    ensures s[0] == PMT_TABLE_ID && s[1] == 0xB0 && s[2] == 13 + |StreamsBytes(es, programNum)|
    ensures s[3] == programNum / 256 && s[4] == programNum % 256 && s[10] == 0xF0 && s[11] == 0x00
    ensures BytesAt(s, 12, StreamsBytes(es, programNum))
  {
    var ss := StreamsBytes(es, programNum);
    var head: seq<byte> := [PMT_TABLE_ID, 0xB0, 13 + |ss|, programNum / 256, programNum % 256,
                            0xC1, 0x00, 0x00, 0xFF, 0xFF, 0xF0, 0x00];
    BytesAtMiddle(head, ss, CRC_PLACEHOLDER);
    head + ss + CRC_PLACEHOLDER
  }

  /** A PMT packet on the given PID: header, pointer_field 0, the section, stuffing. */
  function EncodePmt(pid: nat, programNum: nat, es: seq<PmtEntry>): (p: Packet)
    requires pid <= 0x1FFF && programNum <= 0xFFFF
    requires ValidStreams(es, programNum)
    requires |StreamsBytes(es, programNum)| <= 167
    ensures p[0] == SYNC_BYTE && p[1] == 0x40 + pid / 256 && p[2] == pid % 256 && p[4] == 0x00
    ensures BytesAt(p, 5, PmtSection(programNum, es))
  {
    var lead := Header(pid) + [0x00];
    var body := lead + PmtSection(programNum, es);
    BytesAtMiddle(lead, PmtSection(programNum, es), Stuffing(|body|));
    body + Stuffing(|body|)
  }

  /** One stream entry laid out at running offset n reads back as itself. */
  lemma StreamDecodes(p: Packet, off: nat, programNum: nat, n: nat, e: PmtEntry)
    requires ValidStream(e, programNum)
    requires BytesAt(p, off + 12 + n, StreamBytes(e, programNum))
    ensures off + 16 + n < PACKET_SIZE && PmtStreamAt(p, off, programNum, n) == e
  {
    var b := StreamBytes(e, programNum);
    assert p[off + 12 + n] == b[0] && p[off + 13 + n] == b[1] && p[off + 14 + n] == b[2];
    assert p[off + 15 + n] == b[3] && p[off + 16 + n] == b[4];
    Pid13Of(7, e.elementaryPid);
    Field12Of(0xF, e.esInfoLength);
  }

  /** The PMT loop reads back the streams laid out from running offset n on. */
  lemma {:induction false} PmtStreamsDecode(p: Packet, off: nat, programNum: nat, limit: int, n: nat, es: seq<PmtEntry>)
    requires ValidStreams(es, programNum)
    requires BytesAt(p, off + 12 + n, StreamsBytes(es, programNum))
    requires limit == n + |StreamsBytes(es, programNum)|
    ensures PmtStreams(p, off, programNum, limit, n) == Decoded(Parsed, es)
    decreases |es|
  {
    if es != [] {
      var e := es[0];
      var b, rest := StreamBytes(e, programNum), StreamsBytes(es[1..], programNum);
      BytesAtSplit(p, off + 12 + n, b, rest);
      StreamDecodes(p, off, programNum, n, e);
      var m := n + 5 + e.esInfoLength;
      PmtStreamsDecode(p, off, programNum, limit, m, es[1..]);
      assert n < limit;
      PmtStreamsStep(p, off, programNum, limit, n);
      assert [e] + es[1..] == es;
    }
  }

  /** A packet whose payload starts with pointer_field 0 and an encoded PMT section decodes to its streams. */
  lemma PmtSectionDecodes(p: Packet, programNum: nat, es: seq<PmtEntry>)
    requires programNum <= 0xFFFF
    requires ValidStreams(es, programNum)
    requires |StreamsBytes(es, programNum)| <= 167
    requires (p[1] / 64) % 2 == 1 && BytesAt(p, 5, PmtSection(programNum, es))
    ensures Pmt(p) == Decoded(Parsed, es)
  {
    var sec, ss := PmtSection(programNum, es), StreamsBytes(es, programNum);
    assert p[5] == sec[0] && p[6] == sec[1] && p[7] == sec[2] && p[8] == sec[3] && p[9] == sec[4];
    assert p[15] == sec[10] && p[16] == sec[11];
    assert SectionStart(p) == 5;
    Field12Low(0xB, 13 + |ss|);
    Field12Low(0xF, 0);
    Word16Of(programNum);
    assert PmtProgramNum(p) == programNum;
    assert PmtLimit(p) == |ss|;
    BytesAtNested(p, 5, sec, 12, ss);
    PmtStreamsDecode(p, 5, programNum, PmtLimit(p), 0, es);
  }

  /**
   * An encoded PMT is in sync and carries the given PID, and decoding it
   * gives back its streams, in order.
   */
  lemma PmtRoundTrip(pid: nat, programNum: nat, es: seq<PmtEntry>)
    requires pid <= 0x1FFF && programNum <= 0xFFFF
    requires ValidStreams(es, programNum)
    requires |StreamsBytes(es, programNum)| <= 167
    ensures EncodePmt(pid, programNum, es)[0] == SYNC_BYTE
    ensures GetPid(EncodePmt(pid, programNum, es)) == pid
    ensures Pmt(EncodePmt(pid, programNum, es)) == Decoded(Parsed, es)
  {
    var p := EncodePmt(pid, programNum, es);
    Pid13Of(2, pid);
    assert (p[1] / 64) % 2 == 1 by {
      assert p[1] / 64 == 1;
    }
    PmtSectionDecodes(p, programNum, es);
  }
}
