/**
 * What sw_parse_pat and sw_parse_pmt compute, as functions of the packet
 * buffer: the PAT of sections 2.4.4.3 and 2.4.4.5 of ISO/IEC 13818-1 and the
 * PMT of sections 2.4.4.8 and 2.4.4.9, decoded at the fixed offsets and with
 * the loop bounds the C code uses.
 *
 * Offsets below are relative to the section start `off` (the C `data_buf`).
 * The C code reads without checking that the index stays inside the
 * 188-byte buffer.  Here each loop iteration first checks its highest read;
 * when that would leave the packet the decode stops with `OutOfPacket`,
 * keeping the entries produced before.
 */
module Psi {
  import opened TsPacket
  import opened ResultLists

  const PAT_TABLE_ID: byte := 0x00
  const PMT_TABLE_ID: byte := 0x02

  /**
   * Parsed is the C return value 1, WrongTableId is its -1.  OutOfPacket has
   * no C counterpart: it marks where the C code would read past the buffer.
   */
  datatype Status = Parsed | WrongTableId | OutOfPacket

  /** The status of one parse and the entries it added, in the order added. */
  datatype Decoded<T> = Decoded(status: Status, entries: seq<T>)

  /** table_id: section byte 0. */
  function TableId(p: Packet): (t: byte)
    ensures PayloadUnitStart(p) == 0 ==> t == p[4]
    ensures PayloadUnitStart(p) == 1 ==> t == p[5]
  {
    p[SectionStart(p)]
  }

  /** section_length: the 12-bit field in section bytes 1 and 2. */
  function SectionLength(p: Packet): (len: nat)
    ensures len <= 0xFFF
  {
    var off := SectionStart(p);
    Field12(p[off + 1], p[off + 2])
  }

  // ---------------------------------------------------------------- PAT

  /** The loop bound of sw_parse_pat, `section_length - 9` in signed int. */
  function PatLimit(p: Packet): (limit: int)
    ensures -9 <= limit <= 0xFFF - 9
  {
    SectionLength(p) - 9
  }

  /** The 4-byte PAT record at section offset 8 + n. */
  function PatRecordAt(p: Packet, off: nat, n: nat): (e: PatEntry)
    requires off + 11 + n < PACKET_SIZE
    ensures e.programNum <= 0xFFFF && e.programMapPid <= 0x1FFF
  {
    PatEntry(Word16(p[off + 8 + n], p[off + 9 + n]), Pid13(p[off + 10 + n], p[off + 11 + n]))
  }

  /** The PAT loop from running offset n on. */
  function PatRecords(p: Packet, off: nat, limit: int, n: nat): (d: Decoded<PatEntry>)
    ensures d.status != WrongTableId
    decreases PACKET_SIZE - n
  {
    if n >= limit then Decoded(Parsed, [])
    else if off + 11 + n >= PACKET_SIZE then Decoded(OutOfPacket, [])
    else
      var rest := PatRecords(p, off, limit, n + 4);
      var r := PatRecordAt(p, off, n);
      // program_number 0 carries the network PID, which is not recorded
      if r.programNum == 0 then rest
      else Decoded(rest.status, [r] + rest.entries)
  }

  /** sw_parse_pat. */
  function Pat(p: Packet): (d: Decoded<PatEntry>)
    ensures TableId(p) != PAT_TABLE_ID ==> d == Decoded(WrongTableId, [])
    ensures TableId(p) == PAT_TABLE_ID ==> d.status != WrongTableId
  {
    if TableId(p) != PAT_TABLE_ID then Decoded(WrongTableId, [])
    else PatRecords(p, SectionStart(p), PatLimit(p), 0)
  }

  /** How many records the PAT loop visits: n = 0, 4, 8, ... below the limit. */
  function RecordCount(limit: int): (c: nat)
    ensures c == 0 <==> limit <= 0
    ensures 4 * c >= limit && (c > 0 ==> 4 * (c - 1) < limit)
  {
    if limit <= 0 then 0 else (limit + 3) / 4
  }

  /** The first c records of the PAT loop from section offset off, network entries included. */
  function RecordTable(p: Packet, off: nat, c: nat): (t: seq<PatEntry>)
    requires off + 7 + 4 * c < PACKET_SIZE
    ensures |t| == c
  {
    seq(c, k requires 0 <= k < c => PatRecordAt(p, off, 4 * k))
  }

  /** Every record the PAT loop visits, network entries included. */
  function PatRecordTable(p: Packet): (t: seq<PatEntry>)
    requires SectionStart(p) + 7 + 4 * RecordCount(PatLimit(p)) < PACKET_SIZE
    ensures |t| == RecordCount(PatLimit(p))
  {
    RecordTable(p, SectionStart(p), RecordCount(PatLimit(p)))
  }

  /** The records that name a program (program_number other than 0). */
  function Programs(rs: seq<PatEntry>): (ps: seq<PatEntry>)
    ensures |ps| <= |rs|
  {
    if rs == [] then []
    else (if rs[0].programNum == 0 then [] else [rs[0]]) + Programs(rs[1..])
  }

  lemma {:induction false} ProgramsMembers(rs: seq<PatEntry>)
    ensures forall e :: e in Programs(rs) <==> e in rs && e.programNum != 0
  {
    if rs != [] {
      ProgramsMembers(rs[1..]);
      assert rs == [rs[0]] + rs[1..];
    }
  }

  lemma ProgramsFrom(t: seq<PatEntry>, j: nat)
    requires j < |t|
    ensures Programs(t[j..]) == (if t[j].programNum == 0 then [] else [t[j]]) + Programs(t[j + 1..])
  {
    assert t[j..][1..] == t[j + 1..];
  }

  lemma {:induction false} PatRecordsFrom(p: Packet, off: nat, limit: int, c: nat, j: nat)
    requires c == RecordCount(limit) && off + 7 + 4 * c < PACKET_SIZE
    requires j <= c
    ensures PatRecords(p, off, limit, 4 * j) == Decoded(Parsed, Programs(RecordTable(p, off, c)[j..]))
    decreases c - j
  {
    var t := RecordTable(p, off, c);
    if j < c {
      var n := 4 * j;
      assert n < limit && off + 11 + n < PACKET_SIZE;
      PatRecordsFrom(p, off, limit, c, j + 1);
      assert 4 * (j + 1) == n + 4;
      assert t[j] == PatRecordAt(p, off, n);
      ProgramsFrom(t, j);
    } else {
      assert t[j..] == [];
    }
  }

  /**
   * When every visited record lies inside the packet, the PAT parse
   * succeeds and yields exactly the records with a program number other
   * than 0, in section order.
   */
  lemma PatDecodesPrograms(p: Packet)
    requires TableId(p) == PAT_TABLE_ID
    requires SectionStart(p) + 7 + 4 * RecordCount(PatLimit(p)) < PACKET_SIZE
    ensures Pat(p) == Decoded(Parsed, Programs(PatRecordTable(p)))
  {
    var t := PatRecordTable(p);
    PatRecordsFrom(p, SectionStart(p), PatLimit(p), RecordCount(PatLimit(p)), 0);
    assert t[0..] == t;
  }

  lemma {:induction false} PatRecordsOut(p: Packet, off: nat, limit: int, j: nat)
    requires off <= 5
    requires j < RecordCount(limit)
    requires RecordCount(limit) > 0 && off + 7 + 4 * RecordCount(limit) >= PACKET_SIZE
    ensures PatRecords(p, off, limit, 4 * j).status == OutOfPacket
    decreases RecordCount(limit) - j
  {
    var c := RecordCount(limit);
    assert 4 * j <= 4 * (c - 1) < limit;
    if off + 11 + 4 * j < PACKET_SIZE {
      assert j + 1 < c;
      PatRecordsOut(p, off, limit, j + 1);
      assert 4 * (j + 1) == 4 * j + 4;
    }
  }

  /** Conversely, a visited record that reaches past the packet ends the parse with OutOfPacket. */
  lemma PatRunsOutOfPacket(p: Packet)
    requires TableId(p) == PAT_TABLE_ID
    requires RecordCount(PatLimit(p)) > 0
    requires SectionStart(p) + 7 + 4 * RecordCount(PatLimit(p)) >= PACKET_SIZE
    ensures Pat(p).status == OutOfPacket
  {
    PatRecordsOut(p, SectionStart(p), PatLimit(p), 0);
  }

  lemma {:induction false} PatRecordsBounds(p: Packet, off: nat, limit: int, n: nat)
    ensures forall e :: e in PatRecords(p, off, limit, n).entries ==>
              0 < e.programNum <= 0xFFFF && e.programMapPid <= 0x1FFF
    decreases PACKET_SIZE - n
  {
    if n < limit && off + 11 + n < PACKET_SIZE {
      PatRecordsBounds(p, off, limit, n + 4);
    }
  }

  /**
   * Every entry the PAT parse adds names a program (program_number other
   * than 0) and a 13-bit program_map_PID.
   */
  lemma PatEntryBounds(p: Packet)
    ensures forall e :: e in Pat(p).entries ==>
              0 < e.programNum <= 0xFFFF && e.programMapPid <= 0x1FFF
  {
    if TableId(p) == PAT_TABLE_ID {
      PatRecordsBounds(p, SectionStart(p), PatLimit(p), 0);
    }
  }

  /** A section_length of at most 9 leaves no room for a record: success, nothing added. */
  lemma PatWithoutRecords(p: Packet)
    requires TableId(p) == PAT_TABLE_ID
    requires SectionLength(p) <= 9
    ensures Pat(p) == Decoded(Parsed, [])
  {
  }

  // ---------------------------------------------------------------- PMT

  /** program_number: section bytes 3 and 4. */
  function PmtProgramNum(p: Packet): (pn: nat)
    ensures pn <= 0xFFFF
  {
    var off := SectionStart(p);
    Word16(p[off + 3], p[off + 4])
  }

  /** program_info_length: the 12-bit field in section bytes 10 and 11. */
  function ProgramInfoLength(p: Packet): (len: nat)
    ensures len <= 0xFFF
  {
    var off := SectionStart(p);
    Field12(p[off + 10], p[off + 11])
  }

  /** The loop bound of sw_parse_pmt, `section_length - 13 - program_info_length` in signed int. */
  function PmtLimit(p: Packet): (limit: int)
    ensures -13 - 0xFFF <= limit <= 0xFFF - 13
  {
    SectionLength(p) - 13 - ProgramInfoLength(p)
  }

  /** The stream entry read at section offset 12 + n. */
  function PmtStreamAt(p: Packet, off: nat, programNum: nat, n: nat): (e: PmtEntry)
    requires off + 16 + n < PACKET_SIZE
    ensures e.programNum == programNum
    ensures e.streamType <= 0xFF && e.elementaryPid <= 0x1FFF && e.esInfoLength <= 0xFFF
  {
    PmtEntry(p[off + 12 + n], Pid13(p[off + 13 + n], p[off + 14 + n]),
             Field12(p[off + 15 + n], p[off + 16 + n]), programNum)
  }

  /** The PMT loop from running offset n on; each entry moves n by 5 + es_info_length. */
  function PmtStreams(p: Packet, off: nat, programNum: nat, limit: int, n: nat): (d: Decoded<PmtEntry>)
    ensures d.status != WrongTableId
    decreases PACKET_SIZE - n
  {
    if n >= limit then Decoded(Parsed, [])
    else if off + 16 + n >= PACKET_SIZE then Decoded(OutOfPacket, [])
    else
      var e := PmtStreamAt(p, off, programNum, n);
      var rest := PmtStreams(p, off, programNum, limit, n + 5 + e.esInfoLength);
      Decoded(rest.status, [e] + rest.entries)
  }

  /** One iteration of the PMT loop: the entry at n, then the loop from n + 5 + es_info_length. */
  lemma PmtStreamsStep(p: Packet, off: nat, programNum: nat, limit: int, n: nat)
    requires n < limit && off + 16 + n < PACKET_SIZE
    ensures var e := PmtStreamAt(p, off, programNum, n);
            var rest := PmtStreams(p, off, programNum, limit, n + 5 + e.esInfoLength);
            PmtStreams(p, off, programNum, limit, n) == Decoded(rest.status, [e] + rest.entries)
  {
  }

  /** sw_parse_pmt. */
  function Pmt(p: Packet): (d: Decoded<PmtEntry>)
    ensures TableId(p) != PMT_TABLE_ID ==> d == Decoded(WrongTableId, [])
    ensures TableId(p) == PMT_TABLE_ID ==> d.status != WrongTableId
  {
    if TableId(p) != PMT_TABLE_ID then Decoded(WrongTableId, [])
    else PmtStreams(p, SectionStart(p), PmtProgramNum(p), PmtLimit(p), 0)
  }

  /** The running offset at which entry j of es was read: the sum of 5 + es_info_length before it. */
  function EntryStart(es: seq<PmtEntry>, j: nat): (n: nat)
    requires j <= |es|
    ensures n >= 5 * j
  {
    if j == 0 then 0 else 5 + es[0].esInfoLength + EntryStart(es[1..], j - 1)
  }

  /** Why the PMT loop stopped at running offset last, given the status it returned. */
  ghost predicate PmtLoopStopsAt(off: nat, limit: int, last: nat, status: Status)
  {
    (status == Parsed ==> last >= limit) &&
    (status == OutOfPacket ==> last < limit && off + 16 + last >= PACKET_SIZE)
  }

  /**
   * es is a run of stream entries read back to back from running offset n
   * on: each inside the bound and the packet, the next one 5 +
   * es_info_length further on.
   */
  ghost predicate LaidOut(p: Packet, off: nat, programNum: nat, limit: int, n: nat, es: seq<PmtEntry>)
    decreases |es|
  {
    |es| == 0 ||
    (n < limit && off + 16 + n < PACKET_SIZE && es[0] == PmtStreamAt(p, off, programNum, n) &&
     LaidOut(p, off, programNum, limit, n + 5 + es[0].esInfoLength, es[1..]))
  }

  /** The entries of the PMT loop are laid out back to back from where it starts. */
  lemma {:induction false} PmtStreamsLaidOut(p: Packet, off: nat, programNum: nat, limit: int, n: nat)
    ensures LaidOut(p, off, programNum, limit, n, PmtStreams(p, off, programNum, limit, n).entries)
    decreases PACKET_SIZE - n
  {
    if n < limit && off + 16 + n < PACKET_SIZE {
      var e := PmtStreamAt(p, off, programNum, n);
      var m := n + 5 + e.esInfoLength;
      var rs := PmtStreams(p, off, programNum, limit, m).entries;
      PmtStreamsStep(p, off, programNum, limit, n);
      PmtStreamsLaidOut(p, off, programNum, limit, m);
      assert ([e] + rs)[1..] == rs;
    }
  }

  /**
   * Entry j of a run laid out from n was read at running offset
   * n + EntryStart(es, j), inside the bound and the packet.
   */
  lemma {:induction false} PmtEntryAt(p: Packet, off: nat, programNum: nat, limit: int, n: nat,
                                       es: seq<PmtEntry>, j: nat)
    requires LaidOut(p, off, programNum, limit, n, es)
    requires j < |es|
    ensures n + EntryStart(es, j) < limit && off + 16 + n + EntryStart(es, j) < PACKET_SIZE
    ensures es[j] == PmtStreamAt(p, off, programNum, n + EntryStart(es, j))
    decreases j
  {
    if j > 0 {
      PmtEntryAt(p, off, programNum, limit, n + 5 + es[0].esInfoLength, es[1..], j - 1);
    }
  }

  lemma {:induction false} PmtStreamsStop(p: Packet, off: nat, programNum: nat, limit: int, n: nat)
    ensures var d := PmtStreams(p, off, programNum, limit, n);
            PmtLoopStopsAt(off, limit, n + EntryStart(d.entries, |d.entries|), d.status)
    decreases PACKET_SIZE - n
  {
    var d := PmtStreams(p, off, programNum, limit, n);
    if n < limit && off + 16 + n < PACKET_SIZE {
      var e := PmtStreamAt(p, off, programNum, n);
      var m := n + 5 + e.esInfoLength;
      var rest := PmtStreams(p, off, programNum, limit, m);
      assert d == Decoded(rest.status, [e] + rest.entries);
      PmtStreamsStop(p, off, programNum, limit, m);
      EntryStartCons(e, rest.entries, |rest.entries|);
    }
  }

  lemma EntryStartCons(e: PmtEntry, rs: seq<PmtEntry>, j: nat)
    requires j <= |rs|
    ensures EntryStart([e] + rs, j + 1) == 5 + e.esInfoLength + EntryStart(rs, j)
  {
    assert ([e] + rs)[1..] == rs;
  }

  /**
   * The PMT loop read entry j at section offset 12 + n_j, where n_0 = 0 and
   * n_(j+1) = n_j + 5 + es_info_length_j; every n_j is below the loop bound;
   * a successful parse ends at the first offset at or past the bound, and an
   * OutOfPacket one at the first entry that would reach past the packet.
   */
  lemma PmtLayout(p: Packet)
    requires TableId(p) == PMT_TABLE_ID
    ensures var off, es := SectionStart(p), Pmt(p).entries;
            forall j :: 0 <= j < |es| ==>
              (EntryStart(es, j) < PmtLimit(p) &&
               off + 16 + EntryStart(es, j) < PACKET_SIZE &&
               es[j] == PmtStreamAt(p, off, PmtProgramNum(p), EntryStart(es, j)))
    ensures var es := Pmt(p).entries;
            PmtLoopStopsAt(SectionStart(p), PmtLimit(p), EntryStart(es, |es|), Pmt(p).status)
  {
    var off, pn, limit := SectionStart(p), PmtProgramNum(p), PmtLimit(p);
    var es := Pmt(p).entries;
    PmtStreamsLaidOut(p, off, pn, limit, 0);
    forall j | 0 <= j < |es|
      ensures EntryStart(es, j) < limit
      ensures off + 16 + EntryStart(es, j) < PACKET_SIZE
      ensures es[j] == PmtStreamAt(p, off, pn, EntryStart(es, j))
    {
      PmtEntryAt(p, off, pn, limit, 0, es, j);
    }
    PmtStreamsStop(p, off, pn, limit, 0);
  }

  /**
   * Every entry the PMT parse adds carries the section's program_number, an
   * 8-bit stream_type, a 13-bit elementary_PID and a 12-bit ES_info_length.
   */
  lemma PmtEntryFields(p: Packet)
    ensures var es := Pmt(p).entries;
            forall j :: 0 <= j < |es| ==>
              (es[j].programNum == PmtProgramNum(p) && es[j].streamType <= 0xFF &&
               es[j].elementaryPid <= 0x1FFF && es[j].esInfoLength <= 0xFFF)
  {
    if TableId(p) == PMT_TABLE_ID {
      var es, off, pn := Pmt(p).entries, SectionStart(p), PmtProgramNum(p);
      PmtStreamsLaidOut(p, off, pn, PmtLimit(p), 0);
      forall j | 0 <= j < |es|
        ensures es[j].programNum == pn && es[j].streamType <= 0xFF &&
                es[j].elementaryPid <= 0x1FFF && es[j].esInfoLength <= 0xFFF
      {
        PmtEntryAt(p, off, pn, PmtLimit(p), 0, es, j);
      }
    }
  }

  /**
   * The parse ends after at most (limit + 4) / 5 entries.  A bound of at
   * most 0 gives no entries at all.
   */
  lemma PmtEntryBound(p: Packet)
    ensures 5 * |Pmt(p).entries| <= if PmtLimit(p) <= 0 then 0 else PmtLimit(p) + 4
  {
    if TableId(p) == PMT_TABLE_ID {
      PmtLayout(p);
      var es := Pmt(p).entries;
      if |es| > 0 {
        assert PmtLimit(p) > EntryStart(es, |es| - 1) >= 5 * (|es| - 1);
      }
    }
  }
}
