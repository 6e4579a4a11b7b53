/**
 * sw_parse_pat and sw_parse_pmt as the C code runs them: a loop over the
 * running offset n that reads fields out of the packet buffer and appends
 * one record per iteration to the caller's list.  Each method is proved
 * against the decoding functions of module Psi.
 */
module PsiParser {
  import opened TsPacket
  import opened ResultLists
  import opened Psi

  /**
   * sw_parse_pat: table_id must be 0x00; the loop visits the 4-byte records
   * below section_length - 9 and appends every one whose program_number is
   * not 0.  On success or failure the list holds the entries appended so
   * far after the ones it held before.
   */
  method ParsePat(buf: array<byte>, list: ResultList<PatEntry>) returns (status: Status)
    requires buf.Length == PACKET_SIZE
    modifies list
    ensures status == Pat(buf[..]).status
    ensures list.entries == old(list.entries) + Pat(buf[..]).entries
  {
    ghost var pkt: Packet := buf[..];
    var off := if (buf[1] / 64) % 2 == 0 then 4 else 5;
    assert off == SectionStart(pkt);
    var tableId := buf[off];
    if tableId != PAT_TABLE_ID {
      return WrongTableId;
    }
    var sectionLength := Field12(buf[off + 1], buf[off + 2]);
    ghost var limit := PatLimit(pkt);
    assert sectionLength - 9 == limit;
    var n := 0;
    while n < sectionLength - 9
      invariant buf[..] == pkt
      invariant list.entries + PatRecords(pkt, off, limit, n).entries == old(list.entries) + Pat(pkt).entries
      invariant PatRecords(pkt, off, limit, n).status == Pat(pkt).status
      decreases sectionLength - 9 - n
    {
      if off + 11 + n >= PACKET_SIZE {
        return OutOfPacket;
      }
      ghost var rest := PatRecords(pkt, off, limit, n + 4);
      ghost var record := PatRecordAt(pkt, off, n);
      var programNum := Word16(buf[off + 8 + n], buf[off + 9 + n]);
      assert programNum == record.programNum;
      var networkPid := 0;
      if programNum == 0 {
        // the network PID is read and then not used
        networkPid := Pid13(buf[off + 10 + n], buf[off + 11 + n]);
        assert PatRecords(pkt, off, limit, n) == rest;
      } else {
        var entry := PatEntry(programNum, Pid13(buf[off + 10 + n], buf[off + 11 + n]));
        assert entry == record;
        assert PatRecords(pkt, off, limit, n) == Decoded(rest.status, [entry] + rest.entries);
        ConcatAssoc(list.entries, [entry], rest.entries);
        var added := list.Add(entry);
      }
      n := n + 4;
    }
    return Parsed;
  }

  /**
   * sw_parse_pmt: table_id must be 0x02; each iteration below
   * section_length - 13 - program_info_length appends the stream entry at
   * section offset 12 + n, tagged with the section's program_number, and
   * then moves n on by es_info_length and 5.
   */
  method ParsePmt(buf: array<byte>, list: ResultList<PmtEntry>) returns (status: Status)
    requires buf.Length == PACKET_SIZE
    modifies list
    ensures status == Pmt(buf[..]).status
    ensures list.entries == old(list.entries) + Pmt(buf[..]).entries
  {
    ghost var pkt: Packet := buf[..];
    var off := if (buf[1] / 64) % 2 == 0 then 4 else 5;
    assert off == SectionStart(pkt);
    var tableId := buf[off];
    if tableId != PMT_TABLE_ID {
      return WrongTableId;
    }
    var sectionLength := Field12(buf[off + 1], buf[off + 2]);
    var programInfoLength := Field12(buf[off + 10], buf[off + 11]);
    ghost var programNum := PmtProgramNum(pkt);
    ghost var limit := PmtLimit(pkt);
    assert sectionLength - 13 - programInfoLength == limit;
    var n := 0;
    while n < sectionLength - 13 - programInfoLength
      invariant buf[..] == pkt
      invariant list.entries + PmtStreams(pkt, off, programNum, limit, n).entries == old(list.entries) + Pmt(pkt).entries
      invariant PmtStreams(pkt, off, programNum, limit, n).status == Pmt(pkt).status
      decreases sectionLength - 13 - programInfoLength - n
    {
      if off + 16 + n >= PACKET_SIZE {
        return OutOfPacket;
      }
      var entry := PmtEntry(buf[off + 12 + n], Pid13(buf[off + 13 + n], buf[off + 14 + n]),
                            Field12(buf[off + 15 + n], buf[off + 16 + n]),
                            Word16(buf[off + 3], buf[off + 4]));
      assert entry == PmtStreamAt(pkt, off, programNum, n);
      ghost var next := n + 5 + entry.esInfoLength;
      ghost var rest := PmtStreams(pkt, off, programNum, limit, next);
      assert PmtStreams(pkt, off, programNum, limit, n) == Decoded(rest.status, [entry] + rest.entries);
      if entry.esInfoLength != 0 {
        n := n + entry.esInfoLength;
      }
      n := n + 5;
      assert n == next;
      ConcatAssoc(list.entries, [entry], rest.entries);
      var added := list.Add(entry);
    }
    return Parsed;
  }
}
