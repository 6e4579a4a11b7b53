/**
 * Transport packet header of ISO/IEC 13818-1 (section 2.4.3.2) as the
 * decoder reads it: the sync byte, the payload_unit_start_indicator and the
 * 13-bit PID, plus the fixed-width field extractors that the PSI section
 * parsers share.
 *
 * Bytes are integers in 0..255.  The C code extracts fields with masks,
 * shifts and OR; here they are written arithmetically (`b & 0x1F` is
 * `b % 32`, `x << 8` is `x * 256`, and an OR of bit ranges that do not
 * overlap is a sum).  The *Bits lemmas below show that the two readings
 * agree on every pair of bytes.
 */
module TsPacket {

  type byte = b: int | 0 <= b < 256

  /** PACKET_SIZE and SYNC_BYTE of swtshead.h. */
  const PACKET_SIZE: nat := 188
  const SYNC_BYTE: byte := 0x47

  /** A buffer holding exactly one transport packet. */
  type Packet = s: seq<byte> | |s| == PACKET_SIZE witness ZeroPacket()

  /** The buffer after `memset(buf, 0, PACKET_SIZE)`. */
  function ZeroPacket(): (z: seq<byte>)
    ensures |z| == PACKET_SIZE
    ensures forall i :: 0 <= i < |z| ==> z[i] == 0
  {
    seq(PACKET_SIZE, _ => 0)
  }

  /** `((hi & 0x1F) << 8) | lo`: a 13-bit field (PIDs). */
  function Pid13(hi: byte, lo: byte): (v: nat)
    ensures v <= 0x1FFF
  {
    (hi % 32) * 256 + lo
  }

  /** `((hi & 0x0F) << 8) | lo`: a 12-bit field (section and info lengths). */
  function Field12(hi: byte, lo: byte): (v: nat)
    ensures v <= 0xFFF
  {
    (hi % 16) * 256 + lo
  }

  /** `(hi << 8) | lo`: a 16-bit field (program numbers). */
  function Word16(hi: byte, lo: byte): (v: nat)
    ensures v <= 0xFFFF
  {
    hi * 256 + lo
  }

  /**
   * Writing a value as its high and low byte, with the bits above the field
   * set to anything, and reading the field back gives the value again.
   */
  lemma Pid13Of(reserved: nat, v: nat)
    requires reserved < 8 && v <= 0x1FFF
    ensures Pid13(reserved * 32 + v / 256, v % 256) == v
  {
  }

  lemma Field12Of(reserved: nat, v: nat)
    requires reserved < 16 && v <= 0xFFF
    ensures Field12(reserved * 16 + v / 256, v % 256) == v
  {
  }

  /** A field value below 256 fits in the low byte alone. */
  lemma Field12Low(reserved: nat, v: byte)
    requires reserved < 16
    ensures Field12(reserved * 16, v) == v
  {
  }

  lemma Word16Of(v: nat)
    requires v <= 0xFFFF
    ensures Word16(v / 256, v % 256) == v
  {
  }

  lemma Pid13Bits(hi: bv8, lo: bv8)
    ensures Pid13(hi as int, lo as int) == ((((hi as bv16) & 0x1F) << 8) | (lo as bv16)) as int
  {
  }

  lemma Field12Bits(hi: bv8, lo: bv8)
    ensures Field12(hi as int, lo as int) == ((((hi as bv16) & 0x0F) << 8) | (lo as bv16)) as int
  {
  }

  lemma Word16Bits(hi: bv8, lo: bv8)
    ensures Word16(hi as int, lo as int) == (((hi as bv16) << 8) | (lo as bv16)) as int
  {
  }

  /**
   * sw_getpid: the low 5 bits of byte 1 followed by byte 2.  The C result
   * is a `short`; the value never exceeds 0x1FFF, so it is never negative
   * and the `pid < 0` test in sw_find_pat cannot succeed.
   */
  function GetPid(p: Packet): (pid: nat)
    ensures pid <= 0x1FFF
  {
    Pid13(p[1], p[2])
  }

  /** sw_find_pat: 1 when the packet is in sync and carries PID 0, else -1. */
  function FindPat(p: Packet): (r: int)
    ensures r == 1 || r == -1
    ensures r == 1 <==> p[0] == SYNC_BYTE && p[1] % 32 == 0 && p[2] == 0
  {
    if p[0] != SYNC_BYTE then -1
    else if GetPid(p) == 0 then 1
    else -1
  }

  /** payload_unit_start_indicator: `(b[1] >> 6) & 1`. */
  function PayloadUnitStart(p: Packet): (bit: nat)
    ensures bit == 0 || bit == 1
  {
    (p[1] / 64) % 2
  }

  lemma PayloadUnitStartBits(b1: bv8)
    ensures (b1 as int / 64) % 2 == ((b1 >> 6) & 1) as int
  {
  }

  /**
   * Where the PSI section starts: right after the 4-byte header, or one
   * byte later when a new section starts in this packet.  The skipped byte
   * is the pointer_field; its value is never used (section 2.4.4.1 of
   * ISO/IEC 13818-1 would skip that many further bytes).
   */
  function SectionStart(p: Packet): (off: nat)
    ensures off == 4 || off == 5
    ensures off == 4 <==> (p[1] / 64) % 2 == 0
  {
    if PayloadUnitStart(p) == 0 then 4 else 5
  }

  /**
   * sw_read_ts_packet on a stream positioned at packet p: the next 188
   * bytes land in the buffer.  The file itself is not modelled; the stream
   * is a sequence of packets.
   */
  method ReadPacket(buf: array<byte>, p: Packet)
    requires buf.Length == PACKET_SIZE
    modifies buf
    ensures buf[..] == p
  {
    forall i | 0 <= i < PACKET_SIZE {
      buf[i] := p[i];
    }
  }

  /** `memset(buf, 0, PACKET_SIZE)`. */
  method ClearPacket(buf: array<byte>)
    requires buf.Length == PACKET_SIZE
    modifies buf
    ensures buf[..] == ZeroPacket()
  {
    forall i | 0 <= i < PACKET_SIZE {
      buf[i] := 0;
    }
  }
}
