/**
 * The two forward searches over the stream: sw_find_pmt looks for the
 * first packet with a given PID and gives up at a packet out of sync; the
 * PAT search in main looks for the first packet sw_find_pat accepts and
 * skips everything else.  Both read at most filesize / 188 packets from
 * the start of the stream into one buffer and clear the buffer after every
 * packet they pass over.
 */
module TableLocator {
  import opened TsPacket

  /**
   * The `int filesize` parameter of sw_find_pmt receiving main's
   * `unsigned long long`: the value modulo 2^32 read as two's complement.
   */
  function AsCInt(x: nat): (r: int)
    ensures -0x8000_0000 <= r < 0x8000_0000
    ensures (x - r) % 0x1_0000_0000 == 0
  {
    var w := x % 0x1_0000_0000;
    if w < 0x8000_0000 then w else w - 0x1_0000_0000
  }

  /** A file size that fits in an int passes through unchanged; a larger one never grows. */
  lemma AsCIntBelow(x: nat)
    ensures x < 0x8000_0000 ==> AsCInt(x) == x
    ensures AsCInt(x) <= x
  {
  }

  /**
   * How many times `for (i = 0; i < filesize / PACKET_SIZE; ++i)` runs.  C
   * division truncates toward zero, so a negative filesize gives a
   * quotient of at most 0 and the loop does not run at all.
   */
  function ScanBound(filesize: int): (b: nat)
    ensures filesize < PACKET_SIZE ==> b == 0
    ensures filesize >= 0 ==> b * PACKET_SIZE <= filesize < (b + 1) * PACKET_SIZE
  {
    if filesize <= 0 then 0 else filesize / PACKET_SIZE
  }

  // ------------------------------------------------------------ sw_find_pmt

  /** What sw_find_pmt leaves behind: its return value and the buffer. */
  datatype Search = Search(code: int, buffer: Packet)

  /** sw_find_pmt stops at packet p: it is out of sync, or it carries the PID. */
  predicate StopsAt(p: Packet, pid: nat)
  {
    p[0] != SYNC_BYTE || GetPid(p) == pid
  }

  /** The first index from i on, below bound, at which sw_find_pmt stops; bound if none. */
  function FirstStop(packets: seq<Packet>, pid: nat, i: nat, bound: nat): (k: nat)
    requires i <= bound <= |packets|
    ensures i <= k <= bound
    ensures forall j :: i <= j < k ==> !StopsAt(packets[j], pid)
    ensures k < bound ==> StopsAt(packets[k], pid)
    decreases bound - i
  {
    if i == bound then bound
    else if StopsAt(packets[i], pid) then i
    else FirstStop(packets, pid, i + 1, bound)
  }

  /**
   * The search loop of sw_find_pmt from packet i on, with buf the buffer
   * before packet i is read.
   */
  function Locate(packets: seq<Packet>, pid: nat, i: nat, bound: nat, buf: Packet): (s: Search)
    requires i <= bound <= |packets|
    ensures s.code == 1 || s.code == -1
    ensures s.code == 1 ==> s.buffer[0] == SYNC_BYTE && GetPid(s.buffer) == pid
    ensures buf[0] != SYNC_BYTE ==> (s.buffer[0] == SYNC_BYTE <==> s.code == 1)
    decreases bound - i
  {
    if i == bound then Search(-1, buf)
    else if packets[i][0] != SYNC_BYTE then Search(-1, packets[i])
    else if GetPid(packets[i]) == pid then Search(1, packets[i])
    else Locate(packets, pid, i + 1, bound, ZeroPacket())
  }

  /**
   * The search result in terms of the first stopping packet: 1 exactly when
   * it carries the PID (and is in sync) and the buffer holds it; with no
   * stop below the bound the result is -1 and the buffer is the cleared one,
   * or the untouched one when the loop never ran.
   */
  lemma {:induction false} LocateStopsAtFirst(packets: seq<Packet>, pid: nat, i: nat, bound: nat, buf: Packet)
    requires i <= bound <= |packets|
    ensures var s, k := Locate(packets, pid, i, bound, buf), FirstStop(packets, pid, i, bound);
            (s.code == 1 <==> k < bound && packets[k][0] == SYNC_BYTE && GetPid(packets[k]) == pid) &&
            (k < bound ==> s.buffer == packets[k]) &&
            (k == bound ==> s.buffer == if i == bound then buf else ZeroPacket())
    decreases bound - i
  {
    if i < bound && !StopsAt(packets[i], pid) {
      LocateStopsAtFirst(packets, pid, i + 1, bound, ZeroPacket());
    }
  }

  /** sw_find_pmt as a function of the stream, the PID, the filesize argument and the buffer. */
  function FindPmtSpec(packets: seq<Packet>, pid: nat, filesize: int, buf: Packet): (s: Search)
    requires ScanBound(filesize) <= |packets|
    ensures s.code == 1 || s.code == -1
    ensures s.code == 1 ==> s.buffer[0] == SYNC_BYTE && GetPid(s.buffer) == pid
    ensures ScanBound(filesize) == 0 ==> s == Search(-1, buf)
  {
    Locate(packets, pid, 0, ScanBound(filesize), buf)
  }

  /**
   * sw_find_pmt: rewind, then read packet after packet; out of sync gives
   * -1 at once, the PID gives 1 with that packet left in the buffer, and
   * any other packet is cleared away before the next read.
   */
  method FindPmt(packets: seq<Packet>, pmtPid: nat, filesize: int, buf: array<byte>) returns (r: int)
    requires pmtPid <= 0xFFFF
    requires buf.Length == PACKET_SIZE
    requires ScanBound(filesize) <= |packets|
    modifies buf
    ensures Search(r, buf[..]) == FindPmtSpec(packets, pmtPid, filesize, old(buf[..]))
  {
    var bound := ScanBound(filesize);
    var i := 0;
    while i < bound
      invariant 0 <= i <= bound
      invariant Locate(packets, pmtPid, i, bound, buf[..]) == Locate(packets, pmtPid, 0, bound, old(buf[..]))
      decreases bound - i
    {
      ReadPacket(buf, packets[i]);
      var syncByte := buf[0];
      if syncByte != SYNC_BYTE {
        return -1;
      }
      var pid := GetPid(buf[..]);
      if pid == pmtPid {
        return 1;
      }
      ClearPacket(buf);
      i := i + 1;
    }
    return -1;
  }

  /** Found: 1 and the first packet with the PID, when every packet before it is in sync. */
  lemma FindPmtFound(packets: seq<Packet>, pid: nat, filesize: int, buf: Packet, k: nat)
    requires ScanBound(filesize) <= |packets|
    requires k < ScanBound(filesize)
    requires packets[k][0] == SYNC_BYTE && GetPid(packets[k]) == pid
    requires forall j :: 0 <= j < k ==> packets[j][0] == SYNC_BYTE && GetPid(packets[j]) != pid
    ensures FindPmtSpec(packets, pid, filesize, buf) == Search(1, packets[k])
  {
    var bound := ScanBound(filesize);
    LocateStopsAtFirst(packets, pid, 0, bound, buf);
    var f := FirstStop(packets, pid, 0, bound);
    assert f == k;
  }

  /** Out of sync: -1 and the offending packet, when every packet before it is in sync without the PID. */
  lemma FindPmtLostSync(packets: seq<Packet>, pid: nat, filesize: int, buf: Packet, k: nat)
    requires ScanBound(filesize) <= |packets|
    requires k < ScanBound(filesize)
    requires packets[k][0] != SYNC_BYTE
    requires forall j :: 0 <= j < k ==> packets[j][0] == SYNC_BYTE && GetPid(packets[j]) != pid
    ensures FindPmtSpec(packets, pid, filesize, buf) == Search(-1, packets[k])
  {
    var bound := ScanBound(filesize);
    LocateStopsAtFirst(packets, pid, 0, bound, buf);
    var f := FirstStop(packets, pid, 0, bound);
    assert f == k;
  }

  /** A full scan without a match: -1 and a cleared buffer (the given one if nothing was read). */
  lemma FindPmtNotFound(packets: seq<Packet>, pid: nat, filesize: int, buf: Packet)
    requires ScanBound(filesize) <= |packets|
    requires forall j :: 0 <= j < ScanBound(filesize) ==> packets[j][0] == SYNC_BYTE && GetPid(packets[j]) != pid
    ensures FindPmtSpec(packets, pid, filesize, buf)
            == Search(-1, if ScanBound(filesize) == 0 then buf else ZeroPacket())
  {
    var bound := ScanBound(filesize);
    LocateStopsAtFirst(packets, pid, 0, bound, buf);
    var f := FirstStop(packets, pid, 0, bound);
    assert f == bound;
  }

  // ------------------------------------------------------ PAT search of main

  /** The first index from i on, below bound, of a packet sw_find_pat accepts; bound if none. */
  function FirstPat(packets: seq<Packet>, i: nat, bound: nat): (k: nat)
    requires i <= bound <= |packets|
    ensures i <= k <= bound
    ensures forall j :: i <= j < k ==> FindPat(packets[j]) != 1
    ensures k < bound ==> FindPat(packets[k]) == 1
    decreases bound - i
  {
    if i == bound then bound
    else if FindPat(packets[i]) == 1 then i
    else FirstPat(packets, i + 1, bound)
  }

  /** The buffer the PAT search loop of main leaves behind, from packet i on. */
  function PatSearch(packets: seq<Packet>, i: nat, bound: nat, buf: Packet): (r: Packet)
    requires i <= bound <= |packets|
    ensures FindPat(r) == 1 || r == ZeroPacket() || r == buf
    ensures i == bound ==> r == buf
    decreases bound - i
  {
    if i == bound then buf
    else if FindPat(packets[i]) == 1 then packets[i]
    else PatSearch(packets, i + 1, bound, ZeroPacket())
  }

  /**
   * The PAT search leaves the first accepted packet in the buffer; with none
   * below the bound it leaves the cleared buffer (the given one if nothing
   * was read).  Packets out of sync are passed over like any other.
   */
  lemma {:induction false} PatSearchFindsFirst(packets: seq<Packet>, i: nat, bound: nat, buf: Packet)
    requires i <= bound <= |packets|
    ensures var k := FirstPat(packets, i, bound);
            PatSearch(packets, i, bound, buf)
            == if k < bound then packets[k] else if i == bound then buf else ZeroPacket()
    decreases bound - i
  {
    if i < bound && FindPat(packets[i]) != 1 {
      PatSearchFindsFirst(packets, i + 1, bound, ZeroPacket());
    }
  }

  /**
   * The PAT search loop of main: `for (i = 0; i < filesize / PACKET_SIZE;
   * ++i)` reads a packet, stops at the first one sw_find_pat accepts and
   * clears the buffer after every other one.
   */
  method SearchPat(packets: seq<Packet>, filesize: nat, buf: array<byte>)
    requires buf.Length == PACKET_SIZE
    requires filesize / PACKET_SIZE <= |packets|
    modifies buf
    ensures buf[..] == PatSearch(packets, 0, filesize / PACKET_SIZE, old(buf[..]))
  {
    var bound := filesize / PACKET_SIZE;
    var i := 0;
    while i < bound
      invariant 0 <= i <= bound
      invariant PatSearch(packets, i, bound, buf[..]) == PatSearch(packets, 0, bound, old(buf[..]))
      decreases bound - i
    {
      ReadPacket(buf, packets[i]);
      var ret := FindPat(buf[..]);
      if ret == 1 {
        break;
      }
      ClearPacket(buf);
      i := i + 1;
    }
  }
}
