/**
 * The control flow of main in swtsmain.c over an in-memory stream: search
 * the PAT, parse it, then for every program of the PAT list search its PMT
 * from the start of the stream and parse it into one shared stream list,
 * which is reported at the end.  Every parse failure ends the run without a
 * report.
 */
module Driver {
  import opened TsPacket
  import opened ResultLists
  import opened Psi
  import opened TableLocator
  import opened PsiParser
  import opened PsiEncode
  import opened StreamType

  /**
   * How a run ends: the stream list in the order it is printed (newest
   * entry first), or an abort without report.  Undefined marks a parse that
   * the C code would continue by reading past the packet buffer.
   */
  datatype RunOutcome = Reported(streams: seq<PmtEntry>) | Aborted | Undefined

  /** sw_find_pmt's int filesize never admits more packets than main's loop. */
  lemma ScanBoundBelow(filesize: nat)
    ensures ScanBound(AsCInt(filesize)) <= filesize / PACKET_SIZE
  {
    AsCIntBelow(filesize);
    var b, c := ScanBound(AsCInt(filesize)), filesize / PACKET_SIZE;
    assert b * PACKET_SIZE <= filesize < (c + 1) * PACKET_SIZE;
  }

  /** The buffer sw_find_pmt leaves for a PID, starting from a cleared one. */
  function PmtBuffer(packets: seq<Packet>, fs: int, pid: nat): (b: Packet)
    requires ScanBound(fs) <= |packets|
    ensures b[0] == SYNC_BYTE ==> GetPid(b) == pid
    ensures ScanBound(fs) == 0 ==> b == ZeroPacket()
  {
    FindPmtSpec(packets, pid, fs, ZeroPacket()).buffer
  }

  /**
   * The PMT loop of main over the PAT programs still to visit, with acc the
   * stream list built so far (oldest first).  The search result is not
   * looked at: `if( ret = 1 )` assigns, so every buffer is parsed.
   */
  function PmtPhase(packets: seq<Packet>, fs: int, programs: seq<PatEntry>, acc: seq<PmtEntry>): (r: RunOutcome)
    requires ScanBound(fs) <= |packets|
    ensures r.Reported? ==> |r.streams| >= |acc|
    decreases |programs|
  {
    if programs == [] then Reported(Reverse(acc))
    else
      var d := Pmt(PmtBuffer(packets, fs, programs[0].programMapPid));
      if d.status == WrongTableId then Aborted
      else if d.status == OutOfPacket then Undefined
      else PmtPhase(packets, fs, programs[1..], acc + d.entries)
  }

  /** One iteration of the PMT loop on program i. */
  lemma PmtPhaseStep(packets: seq<Packet>, fs: int, programs: seq<PatEntry>, i: nat, acc: seq<PmtEntry>)
    requires ScanBound(fs) <= |packets| && i < |programs|
    ensures var d := Pmt(PmtBuffer(packets, fs, programs[i].programMapPid));
            PmtPhase(packets, fs, programs[i..], acc)
            == if d.status == WrongTableId then Aborted
               else if d.status == OutOfPacket then Undefined
               else PmtPhase(packets, fs, programs[i + 1..], acc + d.entries)
  {
    assert programs[i..][0] == programs[i];
    assert programs[i..][1..] == programs[i + 1..];
  }

  /** main from the PAT search to the report. */
  function RunSpec(packets: seq<Packet>, filesize: nat): (r: RunOutcome)
    requires filesize / PACKET_SIZE <= |packets|
    ensures r.Reported? ==> Pat(PatSearch(packets, 0, filesize / PACKET_SIZE, ZeroPacket())).status == Parsed
    ensures filesize < PACKET_SIZE ==> r == Reported([])
  {
    var found := PatSearch(packets, 0, filesize / PACKET_SIZE, ZeroPacket());
    ZeroPacketTables(ZeroPacket());
    var pat := Pat(found);
    if pat.status == WrongTableId then Aborted
    else if pat.status == OutOfPacket then Undefined
    else
      ScanBoundBelow(filesize);
      PmtPhase(packets, AsCInt(filesize), Reverse(pat.entries), [])
  }

  /**
   * main after the file is opened: packets are the whole packets of the
   * file and filesize its size in bytes.
   */
  method Run(packets: seq<Packet>, filesize: nat) returns (outcome: RunOutcome)
    requires filesize / PACKET_SIZE <= |packets|
    ensures outcome == RunSpec(packets, filesize)
  {
    var patList := new ResultList<PatEntry>();
    var pmtList := new ResultList<PmtEntry>();
    var packetBuf := new byte[PACKET_SIZE];
    ClearPacket(packetBuf);
    SearchPat(packets, filesize, packetBuf);
    ghost var found := PatSearch(packets, 0, filesize / PACKET_SIZE, ZeroPacket());
    assert packetBuf[..] == found;
    var retval := ParsePat(packetBuf, patList);
    assert retval == Pat(found).status;
    if retval == WrongTableId {
      patList.Free();
      pmtList.Free();
      assert RunSpec(packets, filesize) == Aborted;
      return Aborted;
    }
    if retval == OutOfPacket {
      assert RunSpec(packets, filesize) == Undefined;
      return Undefined;
    }
    ghost var pat := packetBuf[..];
    PatEntryBounds(pat);
    ScanBoundBelow(filesize);
    var fs := AsCInt(filesize);
    var programs := patList.Traversal();
    assert forall k :: 0 <= k < |programs| ==> programs[k] in Pat(pat).entries;
    assert patList.entries == Pat(found).entries;
    assert RunSpec(packets, filesize) == PmtPhase(packets, fs, programs, []);
    outcome := ScanPmts(packets, fs, programs, pmtList);
    if outcome != Undefined {
      patList.Free();
      pmtList.Free();
    }
  }

  /**
   * The traversal of the PAT list in main: for each program a cleared
   * buffer, sw_find_pmt on it, and sw_parse_pmt on whatever the buffer
   * then holds.  A failed parse stops the loop; otherwise the accumulated
   * list is reported in traversal order.
   */
  method ScanPmts(packets: seq<Packet>, fs: int, programs: seq<PatEntry>, pmtList: ResultList<PmtEntry>)
    returns (outcome: RunOutcome)
    requires ScanBound(fs) <= |packets|
    requires forall k :: 0 <= k < |programs| ==> programs[k].programMapPid <= 0x1FFF
    modifies pmtList
    ensures outcome == PmtPhase(packets, fs, programs, old(pmtList.entries))
    ensures outcome.Reported? ==> outcome.streams == pmtList.Traversal()
  {
    var i := 0;
    while i < |programs|
      invariant 0 <= i <= |programs|
      invariant PmtPhase(packets, fs, programs[i..], pmtList.entries)
                == PmtPhase(packets, fs, programs, old(pmtList.entries))
      decreases |programs| - i
    {
      var pmtBuf := new byte[PACKET_SIZE];
      ClearPacket(pmtBuf);
      var ret := FindPmt(packets, programs[i].programMapPid, fs, pmtBuf);
      ghost var d := Pmt(pmtBuf[..]);
      PmtPhaseStep(packets, fs, programs, i, pmtList.entries);
      ghost var before := pmtList.entries;
      // `if( ret = 1 )` assigns 1 and then tests it
      ret := 1;
      if ret == 1 {
        var status := ParsePmt(pmtBuf, pmtList);
        if status == WrongTableId {
          return Aborted;
        }
        if status == OutOfPacket {
          return Undefined;
        }
        assert pmtList.entries == before + d.entries;
      }
      i := i + 1;
    }
    assert programs[i..] == [];
    outcome := Reported(pmtList.Traversal());
  }

  // ------------------------------------------------------------ properties

  /**
   * A cleared buffer reads as a PAT with section_length 0: success, no
   * entries; as a PMT it has the wrong table_id.
   */
  lemma ZeroPacketTables(z: Packet)
    requires z == ZeroPacket()
    ensures Pat(z) == Decoded(Parsed, [])
    ensures Pmt(z) == Decoded(WrongTableId, [])
  {
    assert z[1] == 0 && z[4] == 0 && z[5] == 0 && z[6] == 0;
    Field12Low(0, 0);
    assert SectionStart(z) == 4 && TableId(z) == 0 && SectionLength(z) == 0;
    assert PatLimit(z) < 0;
  }

  /** With no packet accepted by sw_find_pat, the cleared buffer is parsed and nothing is reported. */
  lemma NoPatReportsNothing(packets: seq<Packet>, filesize: nat)
    requires filesize / PACKET_SIZE <= |packets|
    requires forall j :: 0 <= j < filesize / PACKET_SIZE ==> FindPat(packets[j]) != 1
    ensures RunSpec(packets, filesize) == Reported([])
  {
    var bound := filesize / PACKET_SIZE;
    PatSearchFindsFirst(packets, 0, bound, ZeroPacket());
    assert FirstPat(packets, 0, bound) == bound;
    ZeroPacketTables(PatSearch(packets, 0, bound, ZeroPacket()));
  }

  /** The first packet sw_find_pat accepts is the one parsed; a wrong table_id there aborts the run. */
  lemma PatFailureAborts(packets: seq<Packet>, filesize: nat, k: nat)
    requires filesize / PACKET_SIZE <= |packets|
    requires k < filesize / PACKET_SIZE && FindPat(packets[k]) == 1
    requires forall j :: 0 <= j < k ==> FindPat(packets[j]) != 1
    requires TableId(packets[k]) != PAT_TABLE_ID
    ensures RunSpec(packets, filesize) == Aborted
  {
    var bound := filesize / PACKET_SIZE;
    PatSearchFindsFirst(packets, 0, bound, ZeroPacket());
    assert FirstPat(packets, 0, bound) == k;
  }

  /**
   * A program whose PMT PID no packet carries leaves the cleared buffer,
   * which is parsed anyway and fails its table_id check: the whole run
   * aborts, whatever the other programs hold.
   */
  lemma AbsentPmtAborts(packets: seq<Packet>, fs: int, programs: seq<PatEntry>, acc: seq<PmtEntry>)
    requires ScanBound(fs) <= |packets|
    requires programs != []
    requires forall j :: 0 <= j < ScanBound(fs) ==>
               packets[j][0] == SYNC_BYTE && GetPid(packets[j]) != programs[0].programMapPid
    ensures PmtPhase(packets, fs, programs, acc) == Aborted
  {
    FindPmtNotFound(packets, programs[0].programMapPid, fs, ZeroPacket());
    ZeroPacketTables(PmtBuffer(packets, fs, programs[0].programMapPid));
  }

  /** The streams of every program's PMT, in visiting order. */
  function AllStreams(packets: seq<Packet>, fs: int, programs: seq<PatEntry>): (r: seq<PmtEntry>)
    requires ScanBound(fs) <= |packets|
    ensures forall k :: 0 <= k < |r| ==>
              r[k].streamType <= 0xFF && r[k].elementaryPid <= 0x1FFF && r[k].esInfoLength <= 0xFFF
    decreases |programs|
  {
    if programs == [] then []
    else
      var buf := PmtBuffer(packets, fs, programs[0].programMapPid);
      PmtEntryFields(buf);
      Pmt(buf).entries + AllStreams(packets, fs, programs[1..])
  }

  /**
   * When every PMT parses, the streams of all of them accumulate in the one
   * list, which is reported newest first.
   */
  lemma {:induction false} PmtPhaseReportsAll(packets: seq<Packet>, fs: int, programs: seq<PatEntry>, acc: seq<PmtEntry>)
    requires ScanBound(fs) <= |packets|
    requires forall j :: 0 <= j < |programs| ==>
               Pmt(PmtBuffer(packets, fs, programs[j].programMapPid)).status == Parsed
    ensures PmtPhase(packets, fs, programs, acc) == Reported(Reverse(acc + AllStreams(packets, fs, programs)))
    decreases |programs|
  {
    if programs == [] {
      assert acc + [] == acc;
    } else {
      var d := Pmt(PmtBuffer(packets, fs, programs[0].programMapPid));
      assert d.status == Parsed;
      forall j | 0 <= j < |programs[1..]|
        ensures Pmt(PmtBuffer(packets, fs, programs[1..][j].programMapPid)).status == Parsed
      {
        assert programs[1..][j] == programs[j + 1];
      }
      PmtPhaseReportsAll(packets, fs, programs[1..], acc + d.entries);
      ConcatAssoc(acc, d.entries, AllStreams(packets, fs, programs[1..]));
    }
  }

  /** A PMT loop that ends in a report parsed every program's PMT successfully. */
  lemma {:induction false} ReportedAllParsed(packets: seq<Packet>, fs: int, programs: seq<PatEntry>, acc: seq<PmtEntry>)
    requires ScanBound(fs) <= |packets|
    requires PmtPhase(packets, fs, programs, acc).Reported?
    ensures forall j :: 0 <= j < |programs| ==>
              Pmt(PmtBuffer(packets, fs, programs[j].programMapPid)).status == Parsed
    decreases |programs|
  {
    if programs != [] {
      var d := Pmt(PmtBuffer(packets, fs, programs[0].programMapPid));
      PmtPhaseStep(packets, fs, programs, 0, acc);
      assert programs[0..] == programs;
      assert d.status == Parsed;
      assert PmtPhase(packets, fs, programs[1..], acc + d.entries).Reported?;
      ReportedAllParsed(packets, fs, programs[1..], acc + d.entries);
      forall j | 0 < j < |programs|
        ensures Pmt(PmtBuffer(packets, fs, programs[j].programMapPid)).status == Parsed
      {
        assert programs[j] == programs[1..][j - 1];
      }
    }
  }

  /**
   * Conversely to PmtPhaseReportsAll, a PMT loop that ends in a report
   * reports the streams of all programs' PMTs, newest first.
   */
  lemma ReportedStreams(packets: seq<Packet>, fs: int, programs: seq<PatEntry>, acc: seq<PmtEntry>)
    requires ScanBound(fs) <= |packets|
    requires PmtPhase(packets, fs, programs, acc).Reported?
    ensures PmtPhase(packets, fs, programs, acc).streams == Reverse(acc + AllStreams(packets, fs, programs))
  {
    ReportedAllParsed(packets, fs, programs, acc);
    PmtPhaseReportsAll(packets, fs, programs, acc);
  }

  /**
   * What sw_print_video_audio_pid prints after a run that reports: one line
   * per reported stream, in the reported order, which is Listing of the
   * streams of all PMTs in the order they were parsed.
   */
  lemma ReportedListing(packets: seq<Packet>, fs: int, programs: seq<PatEntry>)
    requires ScanBound(fs) <= |packets|
    requires PmtPhase(packets, fs, programs, []).Reported?
    ensures var s, l := PmtPhase(packets, fs, programs, []).streams, Listing(AllStreams(packets, fs, programs));
            |l| == |s| && forall i :: 0 <= i < |s| ==> l[i] == Describe(s[i])
  {
    ReportedStreams(packets, fs, programs, []);
    assert [] + AllStreams(packets, fs, programs) == AllStreams(packets, fs, programs);
  }

  /**
   * A stream of a PAT packet listing one program and that program's PMT
   * packet: the run reports the PMT's streams, newest first.
   */
  lemma TwoPacketRun(tsid: nat, e: PatEntry, es: seq<PmtEntry>)
    requires tsid <= 0xFFFF && ValidPatEntry(e) && e.programNum != 0 && e.programMapPid != 0
    requires ValidStreams(es, e.programNum)
    requires |StreamsBytes(es, e.programNum)| <= 167
    ensures RunSpec([EncodePat(tsid, [e]), EncodePmt(e.programMapPid, e.programNum, es)], 2 * PACKET_SIZE)
            == Reported(Reverse(es))
  {
    PatRoundTrip(tsid, [e]);
    PmtRoundTrip(e.programMapPid, e.programNum, es);
    assert Programs([e]) == [e];
    RunOfPatAndPmt(EncodePat(tsid, [e]), EncodePmt(e.programMapPid, e.programNum, es), e, es);
  }

  /** The same run for any PAT packet and PMT packet that decode that way. */
  lemma RunOfPatAndPmt(p0: Packet, p1: Packet, e: PatEntry, es: seq<PmtEntry>)
    requires e.programMapPid != 0
    requires FindPat(p0) == 1 && Pat(p0) == Decoded(Parsed, [e])
    requires p1[0] == SYNC_BYTE && GetPid(p1) == e.programMapPid && Pmt(p1) == Decoded(Parsed, es)
    ensures RunSpec([p0, p1], 2 * PACKET_SIZE) == Reported(Reverse(es))
  {
    var packets, fs := [p0, p1], 2 * PACKET_SIZE;
    assert fs / PACKET_SIZE == 2;
    assert PatSearch(packets, 0, 2, ZeroPacket()) == p0;
    assert Reverse([e]) == [e];
    AsCIntBelow(fs);
    assert ScanBound(fs) == 2;
    assert RunSpec(packets, fs) == PmtPhase(packets, fs, [e], []);
    assert GetPid(p0) == 0;
    assert Locate(packets, e.programMapPid, 1, 2, ZeroPacket()) == Search(1, p1);
    assert PmtBuffer(packets, fs, e.programMapPid) == p1;
    assert [] + es == es;
    assert PmtPhase(packets, fs, [e], []) == PmtPhase(packets, fs, [], es);
  }
}
