# MPEG-2 transport stream program decoder, in Dafny

This project models the core of a small C tool. The tool reads an MPEG-2
transport stream (ISO/IEC 13818-1) and reports the elementary streams of
each program in it. It works as follows:

1. It scans the file's 188-byte packets for the first one carrying PID 0.
2. It decodes the Program Association Table (PAT) in that packet into a list
   of (program_number, program_map_PID) records.
3. For every record it searches the file again from the start for the packet
   carrying that PID.
4. It decodes that packet's Program Map Table (PMT) into one shared list of
   (stream_type, elementary_PID, ES_info_length, program_number) records.
5. It classifies each stream type as MPEG-2 video, MPEG-2 audio,
   private-data PES or other.

The model has one module per part of the program:

- `TsPacket` (packet.dfy): the transport packet header.
  - The sync byte, the payload_unit_start_indicator and the 13-bit PID.
  - The 12-, 13- and 16-bit field extractors. They are written arithmetically; lemmas show they equal the C mask-and-shift forms.
  - `sw_getpid` and `sw_find_pat`.
  - Reading a packet into a buffer, and clearing it.
- `ResultLists` (lists.dfy): the two record types of swtshead.h, and the list class behind `add_pat_list` / `add_pmt_list`.
- `Psi` (psi.dfy): what `sw_parse_pat` and `sw_parse_pmt` compute, as functions of the packet, and the properties of those functions.
- `PsiParser` (psi_parser.dfy): the two parse loops as methods. They work over the packet array and append to a list, and are proved against the `Psi` functions.
- `TableLocator` (locator.dfy): `sw_find_pmt` and the PAT search loop of `main`, over an in-memory sequence of packets.
- `PsiEncode` (psi_encode.dfy): single-packet PAT and PMT encoders laid out as the standard lays them out. Round trips through the decoders are proved.
- `StrLcpy` (strlcpy.dfy): the BSD `strlcpy`, over a `char` array.
- `StreamType` (stream_type.dfy): the stream_type branches of `sw_print_video_audio_pid`, and the order in which the streams are listed.
- `Driver` (driver.dfy): the control flow of `main`, over an in-memory packet sequence.
  - It covers the PAT search, the PAT parse, and, per PAT entry, a fresh PMT search and parse.
  - It keeps the abort policy.
  - It keeps the `if( ret = 1 )` assignment, so every buffer is parsed whatever the search returned.

Deviations from the C code, and places where the model follows the code
rather than ISO/IEC 13818-1:

- **Out-of-packet reads.** Neither parse loop checks that its reads stay inside the 188-byte buffer.
  - In the model each iteration first checks its highest index.
  - When that index would leave the packet, the decode stops with status `OutOfPacket` and keeps the entries added before.
  - `main` would then go on with whatever lies past the buffer; the driver ends with the outcome `Undefined` instead.
- **PMT entries.** The C code reads each stream entry at section offset 12 + n. It does not skip the program_info descriptors first, unlike section 2.4.4.8 of ISO/IEC 13818-1. Its loop bound still subtracts program_info_length. The model reads entries where the code does.
- **pointer_field.** When payload_unit_start_indicator is set, the one pointer_field byte is skipped and its value is ignored. Section 2.4.4.1 of ISO/IEC 13818-1 would skip that many further bytes.
- **List order.** The lists are kernel-style lists, and `list_add` links a new node right after the head. A traversal therefore meets the newest entry first, not the oldest. The PAT programs are visited in that order, and the streams are reported in that order.
- **Signed loop bounds.** The bounds `section_length - 9` and `section_length - 13 - program_info_length` are signed `int` values and can be negative.
- **filesize.** `main` passes its `unsigned long long` filesize to the `int filesize` parameter of `sw_find_pmt`. The model takes it modulo 2^32 as two's complement (`AsCInt`). A negative value makes the search read nothing.

## Model

| member | source | states |
|---|---|---|
| TsPacket.ZeroPacket | swtsfunction.c:168 | the buffer after `memset(buf, 0, PACKET_SIZE)`: 188 bytes, every one 0 |
| TsPacket.Pid13 | swtsfunction.c:21 | a 13-bit field never exceeds 0x1FFF |
| TsPacket.Field12 | swtsfunction.c:105 | a 12-bit field never exceeds 0xFFF |
| TsPacket.Word16 | swtsfunction.c:111 | a 16-bit field never exceeds 0xFFFF |
| TsPacket.Pid13Bits | swtsfunction.c:21 | the arithmetic 13-bit field equals the C form: the low 5 bits of hi shifted left by 8, OR lo, on every pair of bytes |
| TsPacket.Field12Bits | swtsfunction.c:105 | the arithmetic 12-bit field equals the C form: the low 4 bits of hi shifted left by 8, OR lo, on every pair of bytes |
| TsPacket.Word16Bits | swtsfunction.c:111 | the arithmetic 16-bit field equals the C form: hi shifted left by 8, OR lo, on every pair of bytes |
| TsPacket.Pid13Of | swtsfunction.c:21 | writing a 13-bit value as high and low byte, with any reserved bits above it, reads back as the value |
| TsPacket.Field12Of | swtsfunction.c:105 | the same round trip for a 12-bit field |
| TsPacket.Field12Low | swtsfunction.c:105 | a 12-bit field whose high byte holds only reserved bits reads as its low byte |
| TsPacket.Word16Of | swtsfunction.c:111 | the same round trip for a 16-bit field |
| TsPacket.GetPid | swtsfunction.c:14-23 | for a non-NULL buffer, sw_getpid gives the low 5 bits of byte 1 followed by byte 2, always in 0..0x1FFF, so never negative |
| TsPacket.FindPat | swtsfunction.c:40-65 | sw_find_pat returns 1 exactly when byte 0 is 0x47 and the PID is 0, and -1 otherwise |
| TsPacket.PayloadUnitStart | swtsfunction.c:84 | the payload_unit_start_indicator is a single bit |
| TsPacket.PayloadUnitStartBits | swtsfunction.c:84 | the arithmetic form equals `(b[1] >> 6) & 1` |
| TsPacket.SectionStart | swtsfunction.c:84-95 | the section starts at byte 4 exactly when the start indicator is 0, and at byte 5 otherwise |
| TsPacket.ReadPacket | swtsfunction.c:29-34 | reading the next packet leaves exactly its 188 bytes in the buffer |
| TsPacket.ClearPacket | swtsfunction.c:168 | memset leaves the cleared packet in the buffer |
| ResultLists.Reverse | swtsfunction.c:402 | the traversal order: element i of the result is the element i places from the end of the input |
| ResultLists.ResultList.constructor | swtsmain.c:26-43 | a freshly initialised list head has no entries |
| ResultLists.ResultList.Add | swtsfunction.c:336-387 | add_pat_list / add_pmt_list return 1 and append exactly one copy of the record; the old entries stay as they were |
| ResultLists.ResultList.Traversal | swtsfunction.c:402 | list_for_each_safe visits every node, newest first |
| ResultLists.ResultList.Free | swtsfunction.c:393-441 | after free_pat_list / free_pmt_list no entry remains |
| Psi.SectionLength | swtsfunction.c:105 | section_length is a 12-bit value |
| Psi.TableId | swtsfunction.c:97 | table_id is packet byte 4 when the start indicator is 0, and byte 5 otherwise (also read at swtsfunction.c:203) |
| Psi.PatRecordAt | swtsfunction.c:111-122 | a PAT record is a 16-bit program_number and a 13-bit PID |
| Psi.PatLimit | swtsfunction.c:109 | the PAT loop bound `section_length - 9` is a signed int, from -9 up to 0xFFF - 9 |
| Psi.PatRecords | swtsfunction.c:109-129 | the PAT loop never reports a wrong table_id |
| Psi.Pat | swtsfunction.c:73-132 | a table_id other than 0x00 gives -1 and no entries; with table_id 0x00 the table_id check passes |
| Psi.RecordCount | swtsfunction.c:109 | the loop visits n = 0, 4, 8, ... below section_length - 9: none exactly when that bound is at most 0 |
| Psi.RecordTable | swtsfunction.c:109-122 | the first c records the PAT loop visits, one per record |
| Psi.PatRecordTable | swtsfunction.c:109-122 | every record the PAT loop visits, network entries included: RecordCount of them |
| Psi.Programs | swtsfunction.c:113-128 | at most one entry per record |
| Psi.ProgramsMembers | swtsfunction.c:113-128 | the kept records are exactly the records whose program_number is not 0 |
| Psi.PatDecodesPrograms | swtsfunction.c:105-129 | when every visited record lies in the packet, the PAT parse succeeds, with one entry per visited record whose program_number is not 0, in section order |
| Psi.PatRunsOutOfPacket | swtsfunction.c:109-122 | when the visited records reach past the packet, the PAT parse ends OutOfPacket |
| Psi.PatEntryBounds | swtsfunction.c:111-122 | every PAT entry has a program_number in 1..0xFFFF and a program_map_PID in 0..0x1FFF |
| Psi.PatWithoutRecords | swtsfunction.c:109 | a section_length of at most 9 parses successfully with no entries |
| Psi.PmtProgramNum | swtsfunction.c:220 | program_number is a 16-bit value |
| Psi.ProgramInfoLength | swtsfunction.c:211 | program_info_length is a 12-bit value |
| Psi.PmtLimit | swtsfunction.c:215 | the PMT loop bound `section_length - 13 - program_info_length` is a signed int, from -13 - 0xFFF up to 0xFFF - 13 |
| Psi.PmtStreamAt | swtsfunction.c:218-223 | a stream entry carries the section's program_number, an 8-bit stream_type, a 13-bit PID and a 12-bit ES_info_length |
| Psi.PmtStreams | swtsfunction.c:215-232 | the PMT loop never reports a wrong table_id |
| Psi.Pmt | swtsfunction.c:180-235 | a table_id other than 0x02 gives -1 and no entries; with table_id 0x02 the table_id check passes |
| Psi.EntryStart | swtsfunction.c:224-226 | the running offset before entry j is at least 5 * j |
| Psi.PmtStreamsLaidOut | swtsfunction.c:215-232 | the loop's entries are read back to back, each inside the bound and the packet, the next one 5 + ES_info_length further on |
| Psi.PmtEntryAt | swtsfunction.c:218-226 | entry j was read at running offset n + EntryStart(j), below the loop bound and inside the packet |
| Psi.PmtStreamsStop | swtsfunction.c:215-232 | the loop stops Parsed at the first offset at or past the bound, or OutOfPacket at the first entry reaching past the packet |
| Psi.PmtLayout | swtsfunction.c:210-232 | every PMT entry j is the entry at section offset 12 + EntryStart(j); the parse ends as PmtStreamsStop says |
| Psi.PmtEntryFields | swtsfunction.c:218-223 | every PMT entry has the section's program_number and fields of 8, 13 and 12 bits |
| Psi.PmtEntryBound | swtsfunction.c:215-226 | the offset grows by at least 5 per entry, so there are at most (bound + 4) / 5 entries, and none when the bound is at most 0 |
| PsiParser.ParsePat | swtsfunction.c:73-132 | the loop over the buffer returns the status of Pat and appends exactly Pat's entries to the list |
| PsiParser.ParsePmt | swtsfunction.c:180-235 | the loop over the buffer returns the status of Pmt and appends exactly Pmt's entries to the list |
| TableLocator.AsCInt | swtsmain.c:125 | the int filesize lies in the 32-bit signed range and agrees with the size modulo 2^32 |
| TableLocator.AsCIntBelow | swtsmain.c:125 | a size below 2^31 passes unchanged, and no size grows |
| TableLocator.ScanBound | swtsfunction.c:150 | `filesize / PACKET_SIZE` with C division: the number of whole packets, and 0 for a size below 188 or negative |
| TableLocator.StopsAt | swtsfunction.c:156-163 | sw_find_pmt stops at a packet out of sync, or at one carrying the PID |
| TableLocator.FirstStop | swtsfunction.c:150-167 | the first index at which sw_find_pmt stops: out of sync or the PID |
| TableLocator.Locate | swtsfunction.c:149-170 | the search result is 1 or -1; with 1 the buffer is in sync and carries the PID; from a buffer out of sync, the result is 1 exactly when the buffer left is in sync |
| TableLocator.LocateStopsAtFirst | swtsfunction.c:149-170 | 1 exactly when the first stopping packet is in sync with the PID; that packet stays in the buffer; with no stop, the cleared buffer (or the untouched one if the loop never ran) |
| TableLocator.FindPmtSpec | swtsfunction.c:140-171 | sw_find_pmt returns 1 or -1; with 1 the buffer holds an in-sync packet with the PID; with nothing to scan it returns -1 and leaves the buffer untouched |
| TableLocator.FindPmt | swtsfunction.c:140-171 | the loop that reads, tests and clears the buffer returns and leaves what FindPmtSpec says |
| TableLocator.FindPmtFound | swtsfunction.c:162-166 | 1 and the first packet with the PID, when every earlier packet is in sync |
| TableLocator.FindPmtLostSync | swtsfunction.c:156-161 | -1 and the offending packet at the first packet out of sync |
| TableLocator.FindPmtNotFound | swtsfunction.c:150-170 | after a full scan without a match, -1 and an all-zero buffer |
| TableLocator.FirstPat | swtsmain.c:70-90 | the first packet sw_find_pat accepts, below the bound |
| TableLocator.PatSearch | swtsmain.c:70-90 | the buffer after the PAT loop is a packet sw_find_pat accepts, the cleared buffer, or the untouched buffer when nothing was read |
| TableLocator.PatSearchFindsFirst | swtsmain.c:70-90 | the PAT search leaves the first accepted packet; with none, the cleared buffer; packets out of sync are passed over |
| TableLocator.SearchPat | swtsmain.c:66-90 | the loop that reads, tests and clears the buffer leaves what PatSearch says |
| PsiEncode.PatSection | swtsfunction.c:97-129 | the encoded PAT section has table_id 0, section_length 9 + 4 * records, and the records from byte 8 |
| PsiEncode.EncodePat | swtsfunction.c:73-132 | an encoded PAT packet has PID 0, the start indicator, pointer_field 0 and the section from byte 5 |
| PsiEncode.PatRecordDecodes | swtsfunction.c:111-122 | one encoded PAT record reads back as itself |
| PsiEncode.PatRecordsDecode | swtsfunction.c:109-129 | the PAT loop reads back the encoded records and drops program 0 |
| PsiEncode.PatHeaderDecodes | swtsfunction.c:84-109 | a packet carrying an encoded PAT section decodes to its records whose program_number is not 0 |
| PsiEncode.PatRoundTrip | swtsfunction.c:73-132 | sw_find_pat accepts an encoded PAT, and parsing it gives back its records with program_number not 0, in order |
| PsiEncode.PmtSection | swtsfunction.c:203-215 | the encoded PMT section has table_id 2, section_length, program_number, program_info_length 0, and the streams from byte 12 |
| PsiEncode.EncodePmt | swtsfunction.c:180-235 | an encoded PMT packet has the PID, the start indicator, pointer_field 0 and the section from byte 5 |
| PsiEncode.StreamDecodes | swtsfunction.c:220-223 | one encoded stream entry reads back as itself |
| PsiEncode.PmtStreamsDecode | swtsfunction.c:215-232 | the PMT loop reads back exactly the encoded stream entries |
| PsiEncode.PmtSectionDecodes | swtsfunction.c:191-215 | a packet carrying an encoded PMT section decodes to its streams |
| PsiEncode.PmtRoundTrip | swtsfunction.c:180-235 | an encoded PMT is in sync with its PID, and parsing it gives back its streams, in order |
| StrLcpy.StrLen | swtsfunction.c:470-473 | strlen is the index of the first NUL |
| StrLcpy.CString | swtsfunction.c:473 | the characters before the first NUL: no NUL, strlen of them |
| StrLcpy.StrlcpySpec | swtsfunction.c:449-474 | the buffer after the copy has the buffer's length |
| StrLcpy.Strlcpy | swtsfunction.c:449-474 | a null dst gives 0; otherwise it returns strlen(src) and leaves min(strlen(src), siz - 1) characters of src, a NUL, and the rest of the buffer untouched (all untouched when siz is 0) |
| StrLcpy.SpecFromWrites | swtsfunction.c:457-469 | a buffer holding the copied prefix, a NUL after it and the rest unchanged is the one StrlcpySpec describes |
| StrLcpy.StrlcpyTruncation | swtsfunction.c:444-447 | with siz > 0 the buffer is NUL-terminated and holds a prefix of src of length min(strlen(src), siz - 1); it holds all of src exactly when the result is below siz |
| StrLcpy.StrLenAt | swtsfunction.c:470-473 | a NUL preceded only by non-NUL characters is where strlen stops |
| StrLcpy.StrlcpyZero | swtsfunction.c:457 | siz 0 writes nothing |
| StreamType.KindCode | swtsfunction.c:289-294 | the stream_type each named branch tests for: 0x02, 0x04 or 0x06 |
| StreamType.Classify | swtsfunction.c:289-296 | a named kind is given only to the stream_type it stands for |
| StreamType.ClassifyInvertsCode | swtsfunction.c:289-296 | Classify inverts the three codes 0x02, 0x04 and 0x06, and gives Other exactly for the other values |
| StreamType.Describe | swtsfunction.c:288-298 | a printed stream keeps its program_number and elementary_PID; its label is the named kind of its stream_type, and Other exactly when the stream_type is not 0x02, 0x04 or 0x06 |
| StreamType.Listing | swtsfunction.c:277-299 | one described line per stream, newest entry first |
| Driver.ScanBoundBelow | swtsmain.c:125 | sw_find_pmt never scans more packets than main's PAT loop |
| Driver.PmtBuffer | swtsmain.c:123-125 | the buffer sw_find_pmt leaves, starting from a cleared one: when it is in sync it carries the PID searched for, and with nothing to scan it stays cleared |
| Driver.PmtPhase | swtsmain.c:104-144 | the per-program loop: every buffer is parsed whatever the search returned (`ret = 1`); a failed parse ends the run; a report holds at least the streams collected so far |
| Driver.PmtPhaseStep | swtsmain.c:108-142 | one iteration: a wrong table_id aborts, OutOfPacket is undefined, success appends the entries and moves on |
| Driver.RunSpec | swtsmain.c:63-151 | main's outcome: a report needs a successful parse of the packet the PAT search left; a file shorter than one packet reports no streams |
| Driver.Run | swtsmain.c:63-151 | main from the PAT search to the report ends as RunSpec says |
| Driver.ScanPmts | swtsmain.c:104-144 | the per-program loop ends as PmtPhase says, and a report is the shared list in traversal order |
| Driver.ZeroPacketTables | swtsfunction.c:97-109 | a cleared buffer parses as an empty PAT, and fails as a PMT on table_id |
| Driver.NoPatReportsNothing | swtsmain.c:67-93 | with no PAT packet the cleared buffer is parsed, succeeds, and the run reports no streams |
| Driver.PatFailureAborts | swtsmain.c:93-100 | a wrong table_id in the first accepted PAT packet aborts the run before any PMT search |
| Driver.AbsentPmtAborts | swtsmain.c:123-135 | a PMT PID absent from the stream leaves a cleared buffer that is parsed anyway and aborts the whole run |
| Driver.AllStreams | swtsmain.c:129 | the streams of every program's PMT in visiting order; each has an 8-bit stream_type, a 13-bit PID and a 12-bit ES_info_length |
| Driver.PmtPhaseReportsAll | swtsmain.c:108-144 | when every PMT parses, the streams of all of them accumulate in one list, reported once, newest first |
| Driver.ReportedAllParsed | swtsmain.c:129-135 | a run that reports parsed every program's PMT successfully |
| Driver.ReportedStreams | swtsmain.c:129-144 | conversely to PmtPhaseReportsAll, a report is exactly the streams of all PMTs, newest first |
| Driver.ReportedListing | swtsmain.c:144 | after a report, the lines printed are Listing of the accumulated streams: one line per reported stream, in the reported order |
| Driver.RunOfPatAndPmt | swtsmain.c:63-151 | a PAT packet with one program followed by its PMT packet reports that PMT's streams, newest first |
| Driver.TwoPacketRun | swtsmain.c:63-151 | the encoded two-packet stream of one program reports exactly the encoded streams, newest first |

## Left out

- File I/O is not modelled: `fopen`, `stat`, `fread`, `rewind` and `fclose`. The file is a sequence of 188-byte packets plus its size in bytes. Every search starts again from the first packet, which is what `rewind` does.
- TableLocator.FindPmt: `sw_read_ts_packet(...) < 0` compares a `size_t` and never holds, so the read-failure branches are not modelled. A short read at the end of the file is not modelled either: the packets are whole.
- Driver.Run: the caller must supply at least filesize / 188 packets. A file whose size overstates its packets is not modelled.
- Output is not modelled: all `printf` and `perror` text and `sw_print_pmtid`. Of `sw_print_video_audio_pid`, only the stream_type classification and the order of the lines are modelled.
- ResultLists.ResultList.Add: allocation never fails in the model, so it always returns 1. The parsers' `< 0` checks after it are therefore not modelled.
- ResultLists.ResultList.constructor: models `init_pat_list` / `init_pmt_list` followed by the `INIT_LIST_HEAD` calls in `main`. A failed allocation is not modelled. Neither is the inverted NULL test in `init_pmt_list`, which `main`'s own `INIT_LIST_HEAD` masks.
- ResultLists.ResultList.Free: states only that no entry remains. The dangling head links the C code leaves behind are not modelled, and calling it twice is not claimed to be harmless.
- swkernellist.h is not part of this model. `list_add` is taken to insert right after the head, as the Linux kernel one does.
- The command line is not modelled: the argc check, and the `strlcpy` of argv[1] into `filepath`.
- The NULL-argument guards are not modelled. They are the -1 returns of `sw_getpid` (swtsfunction.c:16-19), `sw_find_pat` (42-45), `sw_parse_pat` (75-79), `sw_find_pmt` (142-145), `sw_parse_pmt` (182-185), `add_pat_list` (338-341) and `add_pmt_list` (365-368). Buffers are `Packet` values, and arrays and list heads are non-null references, so a NULL argument cannot be expressed. Every call in `main` passes non-NULL arguments.
- StrLcpy.Strlcpy: a null `src` cannot be expressed, because the source is a sequence that contains a NUL. Only a null `dst` is modelled.
- CRC_32, version_number and current_next_indicator are never read by the C code, so they are not modelled. Neither are sections spanning several packets, or the pointer_field value.
- PsiEncode.PmtRoundTrip: the round trip is proved only for PMT sections with program_info_length 0. With program_info descriptors present, the C code reads them as stream entries (see the PMT-entries deviation above).
- Driver.Run: in the `Undefined` outcome the model stops. It does not follow the C code past the buffer, so the frees after it are not modelled.
