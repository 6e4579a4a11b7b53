/**
 * The stream_type branches of sw_print_video_audio_pid: the three
 * stream_type values the program names (ISO/IEC 13818-1, table 2-34) and
 * "other" for the rest, applied to the PMT list in the order it is printed.
 */
module StreamType {
  import opened ResultLists

  datatype StreamKind = Mpeg2Video | Mpeg2Audio | PrivatePes | Other

  /** The stream_type value a named kind stands for. */
  function KindCode(k: StreamKind): (st: nat)
    requires k != Other
    ensures st in {0x02, 0x04, 0x06}
  {
    match k
    case Mpeg2Video => 0x02
    case Mpeg2Audio => 0x04
    case PrivatePes => 0x06
  }

  /** The if / else-if chain on stream_type. */
  function Classify(streamType: nat): (k: StreamKind)
    ensures k != Other ==> KindCode(k) == streamType
  {
    if streamType == 0x02 then Mpeg2Video
    else if streamType == 0x04 then Mpeg2Audio
    else if streamType == 0x06 then PrivatePes
    else Other
  }

  /** Classify inverts KindCode; every other stream_type is Other. */
  lemma ClassifyInvertsCode(k: StreamKind, streamType: nat)
    ensures k != Other ==> Classify(KindCode(k)) == k
    ensures (Classify(streamType) == Other) <==> (forall n :: n != Other ==> KindCode(n) != streamType)
  {
    if Classify(streamType) == Other {
      forall n | n != Other
        ensures KindCode(n) != streamType
      {
        assert Classify(KindCode(n)) == n;
      }
    } else {
      assert KindCode(Classify(streamType)) == streamType;
    }
  }

  /** What one printed line says about a stream. */
  datatype StreamInfo = StreamInfo(programNum: nat, kind: StreamKind, pid: nat)

  /**
   * One printed stream: its program_number, the label of its stream_type
   * and its elementary_PID.
   */
  function Describe(e: PmtEntry): (d: StreamInfo)
    ensures d.programNum == e.programNum && d.pid == e.elementaryPid
    ensures d.kind != Other ==> KindCode(d.kind) == e.streamType
    ensures d.kind == Other <==> e.streamType !in {0x02, 0x04, 0x06}
  {
    StreamInfo(e.programNum, Classify(e.streamType), e.elementaryPid)
  }

  /**
   * The lines sw_print_video_audio_pid prints, one per node, in list
   * traversal order (newest node first), given the entries oldest first.
   */
  function Listing(entries: seq<PmtEntry>): (l: seq<StreamInfo>)
    ensures |l| == |entries|
    ensures forall i :: 0 <= i < |l| ==> l[i] == Describe(entries[|entries| - 1 - i])
  {
    var t := Reverse(entries);
    seq(|t|, i requires 0 <= i < |t| => Describe(t[i]))
  }
}
