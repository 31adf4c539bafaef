# Verified model of the car MP3 bridge

A phone's audio arrives over Bluetooth at one board, crosses a serial link to a second board, is
encoded to MP3 and is served to a car radio as the "files" of a USB drive. This project models
the logic of that path in Dafny and proves what it is for. It covers the v2 build (three files,
live serving), the older offset-served rings, the radio simulator that serves as independent
reader, and the first USB firmware. `dafny verify dfyconfig.toml` checks everything, within its
default limit of 30 seconds a proof.

Code that changes state in place is a class or a method with loops, proved against a function of
the old state; the theorems are then lemmas about those functions and about whole runs. The files
whose names end in `Law`, and `Mount`, state what comes out once more from outside: in octets, samples,
byte counts and milliseconds, not in the terms of the functions they are about.

| part | files | main results |
|---|---|---|
| Serial link | `Lfsr`, `Crc32`, `LinkCorrection`, `LinkFrames`, `LinkParser`, `LinkRecovery`, `LinkDistance`, `LinkSession` | The push-back parser refines a pure parser; every single flipped bit after the type byte is corrected exactly; every delivered audio frame is a codeword within one bit of what was received, and the only one; two flipped bits never pass as intact; resynchronisation and whole sessions of frames built octet by octet |
| Concealment | `ConcealSpec`, `ConcealProps`, `PcmConceal`, `ConcealLaw`, `LinkRxSpec`, `PcmLinkRx`, `LinkRxRun`, `LinkRxLaw` | What a fill plays, sample by sample, how fast it fades and how the next frame takes over; the history is always the last 1024 samples emitted; no 32-bit overflow; fills join, loop exactly as stated, stay bounded and fade out; exactly one slot per sent frame if and only if every loss on the way is recoverable |
| Live serving | `LiveRing`, `LiveServe`, `LiveSession`, `LiveFile`, `LiveDisk`, `LiveLaw` | What a read does for every state and lag; reads are one stretch of the appended stream, except exactly the re-reads of a file's start that has left the ring; when playback continues, exactly; the open file gives the same bytes at the same offset; bounded lag; an underrun ends exactly when the lag is restored |
| Next/Back | `FileSwitch`, `RadioSession`, `RadioRun`, `SwitchLaw` | For any reads whatever, exactly which stretch of them counts as a move to another file; for whole sessions of the modelled radio, from the mount on, pauses and resumes included, the relayed presses are the presses that changed file |
| Next/Back on the live ring | `RadioLive` | A file's natural end goes on in the next file at the very next byte of the stream; while the detector has the radio in sight, Next is relayed exactly when it is not served as such an end |
| Disk formats | `Fat12`, `Fat16`, `DiskImage`, `VfatTitle`, `VfatDirectory`, `VfatRoot`, `TitleLaw`, `Mount` | From nothing but reads of the disk, in any pieces, the host finds every sector of every file by name, for every geometry; titles read back from the directory, exactly when their surrogates are paired |
| Offset-served rings | `OffsetRing` | A read that passes the straddle test never splices, after any run; which reads and appends are turned down, exactly; a protected append never touches the byte read next |
| First USB firmware | `BotSpec`, `BotRuns`, `BotDevice`, `BotLaw` | Every command completes with exactly its data and status, whatever packets, polls and serial bytes come between, except a read of no sectors |
| Diagnostics | `Crc16` | The checksum is the one of that name; the single-bit test is true exactly for single-bit syndromes |

`Bytes`, `Clock` and `Memory` hold what the parts share.

## Modelling decisions

- Every critical section is one atomic step. A read that does not get the lock, or that finds the
  link stale, serves zeros and changes nothing in the ring or the cursor. The Next/Back detector
  notes the first of these but not the second; `RadioRun` is about a link that is not stale, where
  every read is noted.
- A blocking read of the serial line is a result of its own (`Waiting`): the call is still inside,
  and the bytes it has taken are in its hands. `LinkParser.Parser.Next` says that these and the
  bytes still unread are together what there was, so when more arrive the call is one over both;
  `LinkSession.RunInPieces` shows for such calls that how the bytes arrive makes no difference.
- The live ring is kept beside the whole stream ever appended. Assumptions about the writer and
  the reader, all met by the build's constants and the radio: chunks leave room for a lap of
  86,016 bytes (or replace the whole ring); the ring and a read together stay below 2^32 bytes;
  reads ask for at most 81,920 bytes; 12,288 bytes have been appended before the first read, as
  the start-up primer does (`LiveDisk.Disk.Prime`). What happens without the last one is stated
  too (`LiveSession.JumpIsWritten`, `RadioLive.UnprimedJump`). Lags are computed in 32 bits, as the
  code does. Where a copy runs past the ring's memory, the state that follows is modelled, and of
  the bytes those that come from inside it.
- Times are 32-bit milliseconds with wrap-around where the code subtracts them. Statistics counters
  are natural numbers.
- `find_period` compares and divides doubles; the model uses exact reals. Everything else in the
  concealer is exact integer arithmetic, with C's division towards zero written out (`CDiv`).
- PCM lengths are even, as the link's frames are.
- The radio reads 2 KB blocks, each noted as one read, and file sizes are whole blocks of at least
  16 KB.
- Random numbers (the volume serial) and clocks are parameters.

## Where the code differs from what is said about it

- The comment at `common/pcm_link_rx.h:20` gives a frame as 5805 us; the expression gives 5804.
  The model follows the expression.
- Pressing Next within 8192 bytes of the end of a file is not relayed, because it looks like the
  file ending; a press after three seconds of silence is not relayed either, nor one within the
  first eight blocks played after such a silence (`RadioRun.PressAfterResume`), nor one whose eighth
  block is read within five seconds of the mount (`RadioRun.PressAfterMount`). All but the third are
  documented trade-offs, that one follows from the code; together they are exactly the exceptions
  in `RadioRun.TurnHeard`.
- A fill is meant to loop without a step. At the shortest period, 32 samples, the loop starts over
  with a last rest of the join offset still on: the step there differs from the history's by a
  32nd of the offset, rounded towards zero (`ConcealProps.LoopJoins`; 972 instead of 1000 in
  `ConcealProps.ShortLoopMisses`). It is right if and only if the period is longer or the offset
  smaller than 32.
- The bytes beyond the end of the previous lap are said never to be served. The remembered start
  of the open file is used as it is, though, and when the lap's end has moved to before it, a
  re-read of the start within ten seconds serves them (`LiveSession.StaleReread`). Only such a
  re-read does (`LiveSession.RunReadIsSafe`), and `LiveServe.RereadOutcome` says exactly when: for
  n bytes from a start b beyond the logical ring, with e the lap's end plus the write position,
  if and only if b + n <= e or b > e + 8192. In between silence is served or the reader jumps.
- Such a re-read also runs past the end of the ring's memory when the start lies less than its
  length before that end: with a ring of 1,000,000 bytes it reads 320 bytes beyond it in
  `LiveSession.RereadPastMemory`. It never happens while the start is less than a lap back
  (`LiveSession.RecentStaysOnRing`), nor with any other read (`LiveServe.StaysInMemory`).
- A catch-up jump before 12,288 bytes have been appended lands on bytes that were never written
  (`RadioLive.UnprimedJump`); it lands on written bytes if and only if they have been appended.
- For some cluster counts `pack_fat12_entries` writes one byte past the table: with three files of
  113 clusters the table has 512 bytes and the packer writes 513 (`Fat12.PackingOverrun`). It stays
  inside exactly when it is not the case that the number of entries is odd and the table's bytes
  fill the last sector (`Fat12.PackingFitsExactly`). The byte is zero (`Fat12.LastByteZero`), and
  the table served is the same either way, so the mount round trip holds for all geometries.
- The fallback firmware's build accepts 4083 and 4084 clusters, because its check adds the two
  reserved entries; the reader takes such a volume for FAT12. It is taken for FAT16 if and only if
  it has at least 4085 (`Fat16.TypeRecognised`); the build's own 4096 is.
- A title with half a surrogate pair, which only malformed UTF-8 can encode, does not come back:
  the reader replaces it (`VfatDirectory.UnpairedComesBackChanged`). Names come back if and only
  if every surrogate has its partner in the same 13-unit part.
- READ(10) of no sectors from inside the disk leaves the first firmware stuck until a reset
  (`BotRuns.ZeroReadHangs`, `BotRuns.StuckForever`). It is the only signed command that does.
- The comment at `common/link_rx_parser.h:13` gives the checksum a Hamming distance of 4. Proved
  here is that it is at least 3 (`LinkDistance.TwoBitsApart`).
- A bit flipped in the type byte itself is never corrected, by design
  (`LinkCorrection.TypeBitHopeless`).
- With two files Back would be relayed as Next; with three or more it is told apart
  (`RadioRun.DirectionOfBack`).

## Model

| member | source | states |
|---|---|---|
| `Lfsr.StepXor` | common/link_rx_parser.h:115 | one step of the CRC register is linear over XOR |
| `Lfsr.StepInjective` | common/link_rx_parser.h:115 | no two registers step to the same one |
| `Lfsr.PowerDouble` | common/link_rx_parser.h:115 | squaring doubles a power of the register step: the algebra that decides how soon a register can recur |
| `Lfsr.NoShortPeriod` | common/link_rx_parser.h:100-117 | the register does not return to its start within 65,536 steps |
| `Lfsr.PowersDistinct` | common/link_rx_parser.h:100-117 | any two register states within 65,536 steps are equal only if reached after the same number of steps |
| `Crc32.RawConcat` | common/link_protocol.h:49-54 | feeding a message in pieces gives the register of the whole message |
| `Crc32.FeedBitsXor` | common/link_protocol.h:37-47 | the register is XOR-linear in state and message together |
| `Crc32.ByteFeeds` | common/link_protocol.h:42-45 | two table steps are exactly eight bit-serial steps of the reflected CRC, for every byte and register |
| `Crc32.Crc32Raw` | common/link_protocol.h:37-47 | the nibble-table loop computes the bit-serial CRC of the bytes from any start state |
| `Crc32.CheckValue` | common/link_protocol.h:37-54 | the checksum of the nine digits is 0xCBF43926, the check value of the CRC-32 of IEEE 802.3 |
| `Crc32.FlipSyndrome` | common/link_rx_parser.h:96-99 | a flipped message bit changes the register by the polynomial stepped as often as bits follow it |
| `LinkCorrection.ResponsesDistinct` | common/link_rx_parser.h:104-116 | responses of different bits of a frame differ, so the search can stop at only one bit |
| `LinkCorrection.ResponseNotSingleBit` | common/link_rx_parser.h:101-105 | no data bit's response looks like a flipped checksum bit |
| `LinkCorrection.DistanceIs` | common/link_rx_parser.h:103-116 | the search for a response finds the very bit that caused it |
| `LinkCorrection.CorrectIsCodeword` | common/link_rx_parser.h:100-118 | whatever is corrected is a valid codeword, at most one bit away and never in the type byte; needs no uniqueness |
| `LinkCorrection.CorrectsDataBit` | common/link_rx_parser.h:100-118 | every flipped bit after the type byte is found and flipped back |
| `LinkCorrection.TypeBitHopeless` | common/link_rx_parser.h:108 | a flip in the type byte is recognised and refused |
| `LinkFrames.ParseProgress` | common/link_rx_parser.h:51-93 | every parse step consumes input: what is left is a strictly shorter end of what was there |
| `LinkParser.Parser.Get` | common/link_rx_parser.h:120-129 | takes a prefix of the logical stream, pushed-back bytes first, or nothing at all while too little has arrived |
| `LinkParser.Parser.PushBack` | common/link_rx_parser.h:131-141 | puts the bytes in front of the logical stream, cut only where the buffer is full |
| `LinkParser.Parser.MakeRoom` | common/link_rx_parser.h:133-136 | moving the pushed-back bytes inside the buffer changes none of them |
| `LinkParser.Parser.Search` | common/link_rx_parser.h:102-117 | the loop finds the first distance at which the stepped polynomial is the syndrome |
| `LinkParser.Parser.TryCorrect` | common/link_rx_parser.h:100-118 | header and payload together become exactly what the correction says, and are untouched when there is none; a corrected bit is counted where it was, and a data bit by its direction |
| `LinkParser.Parser.Next` | common/link_rx_parser.h:51-93 | does exactly what the pure parser does on the logical stream, for which `PlainParsed`, `OneBitCorrected` and `Resynchronises` say what comes out: result, payload, stream left and every counter; at most 522 bytes stay pushed back, so the cut at line 132 never happens; a call that is still waiting has lost nothing of the stream |
| `LinkParser.FaultFound` | common/link_rx_parser.h:100-118 | a corrected bit is told apart by its place and by what it came as: the opposite of what was sent |
| `LinkParser.CountedOnce` | common/link_rx_parser.h:51-93 | every event that is not a clean frame moves exactly one counter, with the direction of a corrected bit or the 522 or 5 bytes pushed back |
| `LinkRecovery.FrameLooks` | common/link_protocol.h:17-32 | a sent audio frame octet by octet: 0xAA, 0x52, the length 513 highest octet first, 513 bytes, and their CRC-32 highest octet first |
| `LinkRecovery.IntactDelivered` | common/link_rx_parser.h:59-79 | an intact audio frame at the head of the stream is delivered with its payload |
| `LinkRecovery.DeliveredIsCodeword` | common/link_rx_parser.h:59-79 | behind every delivered audio frame there is a codeword with that payload, at most one bit from the bytes received |
| `LinkRecovery.DataBitCorrected` | common/link_rx_parser.h:59-79 | a codeword with one flipped length, sequence or audio bit is delivered as sent |
| `LinkRecovery.ChecksumBitCorrected` | common/link_rx_parser.h:59-79 | a codeword with one flipped checksum bit is delivered as sent |
| `LinkRecovery.OneBitCorrected` | common/link_rx_parser.h:59-79 | for every sent audio frame and every single flipped bit after the type byte the parser delivers exactly the payload sent, marked corrected |
| `LinkDistance.TwoBitsApart` | common/link_rx_parser.h:13-14 | two flipped bits, anywhere in a frame, never make a codeword of a codeword |
| `LinkDistance.TwoBitsNeverIntact` | common/link_rx_parser.h:59-79 | a sent audio frame with two flipped bits after its type byte is never delivered as intact: it is given up or marked corrected |
| `LinkDistance.OneCodewordNear` | common/link_rx_parser.h:11-14 | within one bit of any bytes there is at most one codeword, so what is delivered is the only frame that can have been sent with so little damage |
| `LinkSession.Resynchronises` | common/link_rx_parser.h:51-93 | in any byte stream every intact audio frame is delivered unless its first byte lies inside a frame accepted earlier |
| `LinkSession.RunIsSound` | common/link_rx_parser.h:51-93 | every audio frame delivered in a run comes from 523 bytes of the stream that are within one bit of a codeword with its payload |
| `LinkSession.ParseExtend` | common/link_rx_parser.h:51-93 | bytes that arrive later do not change what was parsed |
| `LinkSession.RunInPieces` | common/link_rx_parser.h:120-129 | a stream parsed as it arrives gives the events of the whole stream |
| `LinkSession.SessionDelivered` | common/link_rx_parser.h:51-93 | any sequence of control texts of up to 256 bytes, raw frames as far as they are accepted, audio frames, one-bit-damaged audio frames and junk without magic bytes, each frame built from its octets, parses to exactly those frames in order |
| `LinkSession.PlainParsed` | common/link_rx_parser.h:55-93 | for every type but checked audio and every length, written highest octet first: taken, waited for, or a bad header that is scanned again from its type byte on; control texts of up to 256 bytes are taken, raw audio only where it is accepted and up to the receiver's limit |
| `LinkSession.PlainDelivered` | common/link_rx_parser.h:80-93 | a frame built from its octets is delivered whole if and only if its type and length are accepted |
| `ConcealSpec.MixBetween` | common/pcm_conceal.h:50-56 | a cross-faded sample lies between its two inputs |
| `ConcealProps.JoinedBounds` | common/pcm_conceal.h:114-118 | in every reachable state the intermediate values of a fill sample fit 32 bits |
| `ConcealProps.MixFits` | common/pcm_conceal.h:55 | the cross-fade's weighted sum fits 32 bits |
| `ConcealProps.DotFits` | common/pcm_conceal.h:87-95 | the correlation sums stay within 2^38, inside 64 bits |
| `ConcealProps.GainAfter` | common/pcm_conceal.h:118 | after n samples the gain has fallen by n decays, not below zero |
| `ConcealProps.FadesToSilence` | common/pcm_conceal.h:114-118 | a fill is exactly zero from 1024 / decay samples on |
| `ConcealProps.FirstSampleJoins` | common/pcm_conceal.h:108-117 | the first fill sample steps from the last good one no further than, and in the same direction as, the step one period back |
| `ConcealProps.LoopJoins` | common/pcm_conceal.h:116-119 | at every restart of the period the fill, before gain, makes the step the history made there, less a 32nd of the offset at a period of 32; it is the history's step if and only if the period is longer or the offset smaller than 32 |
| `ConcealProps.ShortLoopMisses` | common/pcm_conceal.h:84-119 | a concrete history whose best match is 32 samples back, and whose loop misses the history's step |
| `ConcealProps.OutageFadesInFromSilence` | common/pcm_conceal.h:41-44 | after an outage the next frame is cross-faded with zeros |
| `ConcealProps.BestIsFirstMaximum` | common/pcm_conceal.h:84-103 | the lag chosen is the first one with the largest score among those that match at all |
| `ConcealProps.FillSplit` | common/pcm_conceal.h:32-37 | filling in two calls gives the samples of one call |
| `ConcealProps.HistoryFollows` | common/pcm_conceal.h:68-75 | remembering what was emitted keeps the last 1024 samples of all that was emitted |
| `ConcealProps.GoodOutAt` | common/pcm_conceal.h:48-61 | past the first 64 samples, or without a loss before, a good frame is unchanged; before that each sample lies between frame and fill |
| `ConcealLaw.FillLaw` | common/pcm_conceal.h:114-123 | sample i of a fill after a good frame is the history one period back, plus what is left of the join offset over the first 32 samples of each period, faded by 1024 - i * decay over 1024, rounded towards zero and clamped |
| `ConcealLaw.GoodRestores` | common/pcm_conceal.h:58-60 | a good frame restores the full gain, so that law holds of the next fill |
| `ConcealLaw.LossGoesOn` | common/pcm_conceal.h:32-37 | a loss told in two calls sounds as in one |
| `ConcealLaw.CrossFadeLaw` | common/pcm_conceal.h:48-61 | a good frame after a loss is mixed over its first 64 samples with the fill as it would have gone on, by exact weights, and is itself after that |
| `ConcealLaw.OutageLaw` | common/pcm_conceal.h:41-56 | after an outage it is faded in from zero by the same weights |
| `ConcealLaw.DecayLaw` | common/pcm_conceal.h:97-107 | the fill fades over 1024 samples if and only if the newest 256 samples and those one period back correlate to 0.6 or more, over 128 otherwise; without any match the period is 768 |
| `ConcealLaw.RepeatingIsFound` | common/pcm_conceal.h:84-112 | a waveform that repeats is found: the period is no longer than the one it repeats with, the newest samples are a positive multiple of those one period back, and the fill fades slowly |
| `PcmConceal.Conceal.NextCont` | common/pcm_conceal.h:114-123 | gives the next sample of the fill and steps its state, in place; `FillLaw` says which sample that is |
| `PcmConceal.Conceal.Remember` | common/pcm_conceal.h:68-75 | shifts exactly the given samples into the history |
| `PcmConceal.Conceal.FindPeriod` | common/pcm_conceal.h:84-112 | sets up the fill at the best-matching period, frozen from the history |
| `PcmConceal.Conceal.Lost` | common/pcm_conceal.h:32-37 | writes exactly the fill for the lost samples, nothing beyond, and remembers it; `FillLaw` and `LossGoesOn` say what it sounds like |
| `PcmConceal.Conceal.Good` | common/pcm_conceal.h:48-61 | edits only the cross-faded start of the frame, in place, and remembers the result |
| `PcmConceal.SampleOctets` | common/pcm_conceal.h:124-127 | samples are stored low byte first, in two's complement |
| `PcmLinkRx.LinkRx.Receive` | common/pcm_link_rx.h:35-66 | emits the fills and the frame, keeps the history equal to the last 1024 samples emitted in all, and counts every filled frame, silence frame, outage and run length |
| `PcmLinkRx.GapTallied` | common/pcm_link_rx.h:44-57 | a gap of up to 16 frames is counted frame by frame and as one run of its length class, a longer one as neither; the tallies always fit the frames lost |
| `LinkRxRun.GapIsLoss` | common/pcm_link_rx.h:37 | the 8-bit gap is the number of frames lost, modulo 256 |
| `LinkRxRun.FillsLoss` | common/pcm_link_rx.h:37-58 | a loss is never overfilled, and is filled with its own length if and only if it is at most 255 frames and the time that passed is at most 60 ms above what those frames take, at 5804 us each, and no more than 60 ms below half of it |
| `LinkRxRun.OnTime` | common/pcm_link_rx.h:37-43 | a frame that comes within 60 ms of its time after at most 255 lost ones is such a case, across a turn of the millisecond clock as well |
| `LinkRxRun.OneSlotPerFrame` | common/pcm_link_rx.h:35-66 | over any run the encoder gets at most one slot per sent frame, and exactly one if and only if every loss so far is recoverable |
| `LinkRxRun.FrameInItsSlot` | common/pcm_link_rx.h:35-66 | in such a run every surviving frame lies in its own slot, unchanged but for the first 64 samples after a loss |
| `LinkRxLaw.LossSounds` | common/pcm_link_rx.h:35-66 | in place of the frames of a recoverable loss the encoder hears the period found in the last 1024 samples it was given, joined and fading, without a seam between frames |
| `LinkRxLaw.FrameAfterLoss` | common/pcm_link_rx.h:35-66 | the frame after it is mixed over its first 64 samples with that same fill going on |
| `LinkRxLaw.FrameAfterOutage` | common/pcm_link_rx.h:45-48 | when the time that passed does not fit, nothing is put in and the frame fades in from silence |
| `LiveRing.AppendTracks` | esp32-s3-msc/fat_disk_shared.h:770-845 | every append keeps the ring the last lap and a half of the stream, across the moving wrap point and a chunk larger than the ring |
| `LiveRing.ReadIsStream` | esp32-s3-msc/fat_disk_shared.h:1215-1228 | copying from a written cursor, not past the writer, yields the stream from as many bytes back as the cursor is behind |
| `LiveRing.ReadAcrossWrap` | esp32-s3-msc/fat_disk_shared.h:1219-1227 | a read across the logical wrap is one stretch of the stream, whatever stale bytes lie beyond the wrap point |
| `LiveRing.AppendPoints` | esp32-s3-msc/fat_disk_shared.h:806-839 | an append moves no cursor off the stream position it stands for |
| `LiveRing.BehindExact` | esp32-s3-msc/fat_disk_shared.h:518-520 | the lag computed is the true distance to the live edge if and only if the cursor has not been lapped |
| `LiveSession.OpenIsWritten` | esp32-s3-msc/fat_disk_shared.h:1135-1143 | an opened file starts on written bytes and at most 81,920 bytes back, primed or not |
| `LiveSession.JumpIsWritten` | esp32-s3-msc/fat_disk_shared.h:1180-1184 | a catch-up jump lands on written bytes if and only if the target lag has been appended |
| `LiveSession.ReadIsSafe` | esp32-s3-msc/fat_disk_shared.h:1113-1246 | what a read copies from the logical ring is exactly the stream from its start position on |
| `LiveSession.StepInv` | esp32-s3-msc/fat_disk_shared.h:770-1246 | every append and every read keeps cursor and file start on their stream positions, or knows the cursor to have strayed off the ring |
| `LiveSession.StartInv` | esp32-s3-msc/fat_disk_shared.h:454-462 | with any ring that holds its stream, a reader that has read nothing is a valid start |
| `LiveSession.RunReadIsSafe` | esp32-s3-msc/fat_disk_shared.h:770-1246 | after any interleaving a read of the logical ring copies one stretch of the stream, never past the writer or from two laps, and no read copies from beyond the ring, or past its memory, but a re-read of a file's start that lies there |
| `LiveSession.StaleReread` | esp32-s3-msc/fat_disk_shared.h:1130-1134 | a concrete run of appends after which a re-read of a file's start serves what lies beyond the logical ring |
| `LiveSession.RereadPastMemory` | esp32-s3-msc/fat_disk_shared.h:1218-1222 | a concrete run of appends after which a re-read of a file's start runs 320 bytes past the ring's memory |
| `LiveServe.StaysInMemory` | esp32-s3-msc/fat_disk_shared.h:1113-1228 | every read but the re-read of a start that has left the logical ring copies from the logical ring only |
| `LiveSession.RecentStaysOnRing` | esp32-s3-msc/fat_disk_shared.h:1130-1134 | so does that one while the start is less than a lap back in the stream |
| `LiveSession.OffRingLapped` | esp32-s3-msc/fat_disk_shared.h:1130-1134 | a start beyond the end of the logical ring has been lapped, and its re-read starts at another place of the stream or at none |
| `LiveServe.RereadOutcome` | esp32-s3-msc/fat_disk_shared.h:1130-1228 | what a re-read of a file's start does, for every place of that start, the writer and the lap's end: when the stream is copied, when bytes beyond the ring are, and when that copy runs past the memory |
| `LiveSession.ContinuesExactly` | esp32-s3-msc/fat_disk_shared.h:1121-1228 | continuing playback goes on where it stopped if and only if it has not been lapped meanwhile |
| `LiveSession.NotLapped` | esp32-s3-msc/fat_disk_shared.h:1121-1123 | less than one lap behind the writer, a cursor has not been lapped |
| `LiveSession.RereadExactly` | esp32-s3-msc/fat_disk_shared.h:1130-1133 | reading a file's start again gives the same stream position if and only if it has not been lapped |
| `LiveSession.NaturalEndExactly` | esp32-s3-msc/fat_disk_shared.h:1135-1148 | after a file's natural end the next file goes on where playback stopped if and only if the lag is within the open limits |
| `LiveSession.StreamContinuity` | esp32-s3-msc/fat_disk_shared.h:1113-1246 | over any run without jumps and pressed opens the bytes copied are one unbroken stretch of the stream, across wraps, underruns and natural ends |
| `LiveSession.LagBounded` | esp32-s3-msc/fat_disk_shared.h:1164-1195 | a playback read starts at most target plus threshold behind, or within the tolerance set at the open while its grace lasts |
| `LiveSession.GraceRunsOut` | esp32-s3-msc/fat_disk_shared.h:1240 | the grace shrinks by exactly the bytes played since the open, and the tolerance is never raised |
| `LiveSession.LagAfterOpen` | esp32-s3-msc/fat_disk_shared.h:1153-1178 | after an open the larger lag is allowed only until 122,880 bytes have been played, and never beyond the lag at the open plus the threshold |
| `LiveSession.UnderrunEnds` | esp32-s3-msc/fat_disk_shared.h:1190-1214 | an underrun ends only with the full target lag restored, by a jump or by an open |
| `LiveLaw.ReadExactly` | esp32-s3-msc/fat_disk_shared.h:1121-1246 | a continuing read for every state and lag: beyond the limit it jumps to 12,288 bytes (or its own length) behind the writer; otherwise the ring is copied if and only if the lag is at least the read's length and, after an underrun, at least 12,288 bytes; otherwise it is silent and holds its place |
| `LiveLaw.FirstReadExactly` | esp32-s3-msc/fat_disk_shared.h:1164-1189 | the first read of all jumps too, uncounted |
| `LiveLaw.OtherwiseExactly` | esp32-s3-msc/fat_disk_shared.h:1104-1163 | a read that comes too early gets nothing, a read that is no playback gets silence, and neither moves the reader |
| `LiveLaw.OpenExactly` | esp32-s3-msc/fat_disk_shared.h:1130-1155 | where an open starts, for every state: at playback's place after a natural end, 61,440 bytes earlier otherwise, 73,728 bytes back when that is more than 81,920 or nothing was played, and within what was written; and the larger lag it allows, for 122,880 bytes |
| `LiveLaw.ReopenExactly` | esp32-s3-msc/fat_disk_shared.h:1130-1155 | reading the start of the same file again within ten seconds and 131,072 bytes starts at the same place and counts as no open |
| `LiveLaw.ContinuingRead` | esp32-s3-msc/fat_disk_shared.h:1190-1228 | in terms of the stream: the next bytes are copied if and only if they have been appended and, after an underrun, 12,288 bytes are there again |
| `LiveLaw.AppendsEndUnderrun` | esp32-s3-msc/fat_disk_shared.h:1190-1195 | after any run of appends that restores that lag the next read gives the stream on from where it was held, and the underrun is over |
| `LiveLaw.AppendExactly` | esp32-s3-msc/fat_disk_shared.h:770-845 | what is appended extends the stream; a chunk is refused if and only if it is as long as the ring and what is unread is to be kept |
| `LiveSession.RadioGets` | esp32-s3-msc/fat_disk_shared.h:1113-1234 | the radio gets nothing but silence frames or the stream, and the silence bridge covers only the start of a read; a re-read of a start beyond the ring gets exactly the bytes that lie there, as far as the ring's memory goes |
| `LiveFile.OpensOnFile` | esp32-s3-msc/fat_disk_shared.h:1135-1155 | opening a file from the ring gives the bytes of the stream from its start on |
| `LiveFile.FileStep` | esp32-s3-msc/fat_disk_shared.h:1113-1246 | while the start has not been lapped and nothing underruns, every read of the open file, going on or starting over, gives the file at its offset: the stream that far from the start |
| `LiveFile.LooksLikeAFile` | esp32-s3-msc/fat_disk_shared.h:1113-1246 | two reads of the same stretch of the open file give the same bytes, whatever is read, re-read, probed and appended before and between |
| `LiveServe.SilenceSplit` | esp32-s3-msc/fat_disk_shared.h:428-438 | silence served in two reads is the silence of one |
| `LiveDisk.Disk.Prime` | esp32-s3-msc/esp32-s3-msc.ino:802-810 | the start-up loop fills the ring with copies of the primer, the last one cut, and leaves a full ring that holds exactly these bytes: a valid start for every run |
| `LiveDisk.Disk.Append` | esp32-s3-msc/fat_disk_shared.h:770-845 | the ring in place becomes exactly the appended ring, or is refused and unchanged; chunks of the assumed lengths keep the disk valid |
| `LiveDisk.Disk.ServeSilence` | esp32-s3-msc/fat_disk_shared.h:428-438 | fills exactly the range asked for with the looping silence and remembers where it stopped |
| `LiveDisk.Disk.PlaceCursor` | esp32-s3-msc/fat_disk_shared.h:1121-1155 | places the cursor at the start of an opened or re-read file |
| `LiveDisk.Disk.CatchUp` | esp32-s3-msc/fat_disk_shared.h:1164-1189 | jumps near the live edge when too far behind, and says how far behind it is then |
| `LiveDisk.Disk.CopyFromRing` | esp32-s3-msc/fat_disk_shared.h:1215-1228 | copies from the ring in at most two pieces, across the end of the logical ring, and moves the cursor on |
| `LiveDisk.Disk.ReadLive` | esp32-s3-msc/fat_disk_shared.h:1104-1260 | any read in place fills the buffer, but for bytes from past the ring's memory, and leaves the cursor state exactly as the serving rules say, which `LiveLaw` states in numbers, and the disk valid for the next call |
| `FileSwitch.FileDetector.NoteRead` | esp32-s3-msc/fat_disk_shared.h:930-1000 | the detector in place does one step of the detector's rules and relays what they relay; `SwitchLaw` says what these come to over any reads |
| `FileSwitch.FileDetector.Switch` | esp32-s3-msc/fat_disk_shared.h:974-1000 | a sustained read of another file is relayed with its direction unless the file ended by itself, the move is no neighbour, or the host is settling |
| `SwitchLaw.MovesExactly` | esp32-s3-msc/fat_disk_shared.h:930-1000 | for any reads without a gap: until one unbroken stretch of reads of one other file has come to 16,384 bytes the detector stays on its file and relays nothing, and with the read that brings it there, and no other, it moves |
| `SwitchLaw.BackInBetween` | esp32-s3-msc/fat_disk_shared.h:960-965 | four blocks of another file, one of its own and four more of the other relay nothing |
| `SwitchLaw.SettlesExactly` | esp32-s3-msc/fat_disk_shared.h:937-957 | after more than three seconds of silence, or before any read, it settles without a word on the first file read for 16,384 bytes in one stretch, and not before |
| `SwitchLaw.VerdictExactly` | esp32-s3-msc/fat_disk_shared.h:974-1000 | what a move relays: Next or Previous around the circle of files, but not in the first five seconds after a mount, nor Next within 8,192 bytes of the file's end |
| `RadioSession.ChainLeft` | esp32-s3-msc/fat_disk_shared.h:958-1000 | a stretch of reads on another file switches once, at its eighth block, and relays the verdict of that moment only |
| `RadioSession.ChainArriving` | esp32-s3-msc/fat_disk_shared.h:937-957 | after a silence a stretch of reads is adopted without relaying anything |
| `RadioSession.OpenHeard` | sim/car_sim.py:706-731 | an open, with its probes and tail reads, relays at most one press and leaves the detector at the end of the head |
| `RadioRun.DirectionOfBack` | esp32-s3-msc/fat_disk_shared.h:974-976 | the next file reads as Next; the previous one reads as Previous if and only if there are three files or more |
| `RadioRun.TurnHeard` | sim/car_sim.py:737-795 | each turn of the radio, from the mount on, before, after or without a pause, relays exactly what it should and leaves the detector knowing file and position, or how much has been read since it lost them |
| `RadioRun.SessionRelays` | sim/car_sim.py:764-806 | over any session the relayed presses are exactly the expected ones, in order |
| `RadioRun.PhoneHearsTheDriver` | sim/car_sim.py:764-806 | without presses after a pause or within eight blocks of it, just after the mount, and at a file's end, the relayed sequence is the sequence of presses that changed file; restarts and natural ends are never relayed |
| `RadioRun.PressAfterResume` | esp32-s3-msc/fat_disk_shared.h:937-957 | after a pause in the middle of a file the detector relays a press if and only if 16,384 bytes have been played since, and the mount is not just past |
| `RadioRun.PressAfterMount` | esp32-s3-msc/fat_disk_shared.h:908-921 | after a mount the detector relays a press from the middle of a file if and only if its eighth block is read five seconds later or more |
| `RadioRun.ComingUp` | sim/car_sim.py:751-763 | a radio coming up, with its peek at the last file and its first open, however soon after the mount, relays nothing and ends with the detector in step |
| `RadioRun.QuietAfterMount` | esp32-s3-msc/fat_disk_shared.h:919-925 | in the five seconds after a mount nothing is relayed, whatever is read |
| `RadioLive.TurnOpens` | esp32-s3-msc/fat_disk_shared.h:1077-1082 | every turn that opens a file starts with an open, which follows a natural end if and only if the radio is known to have read its last file to within 8192 bytes of the end |
| `RadioLive.PlayGoesOn` | esp32-s3-msc/fat_disk_shared.h:888-890 | every block of playback is classified as playback, and as an open exactly at the file's start |
| `RadioLive.RelayedOrSeamless` | esp32-s3-msc/fat_disk_shared.h:977-1000 | the detector relays Next if and only if the file it opens is not served as following a natural end, the detector has not lost sight of the radio, and the mount is not just past |
| `RadioLive.FileEndGoesOn` | esp32-s3-msc/fat_disk_shared.h:1077-1148 | a file played to its end goes on in the next one at the byte of the stream playback had reached, if and only if that is within the open limits |
| `RadioLive.UnprimedJump` | esp32-s3-msc/fat_disk_shared.h:1164-1184 | the first two reads from boot, after 5000 appended bytes: the first comes too early, the second jumps beyond the writer |
| `Fat12.PackEntries` | esp32-s3-msc/fat_disk_shared.h:561-571 | writes the packed entries and nothing after them |
| `Fat12.EntryRoundTrip` | sim/car_sim.py:356-360 | the reader gets every packed entry back, for any table and whatever follows it |
| `Fat12.PackingFitsExactly` | esp32-s3-msc/fat_disk_shared.h:275-277 | the packer stays inside the table if and only if the entries are even in number or leave room in the last sector |
| `Fat12.PackingOverrun` | esp32-s3-msc/fat_disk_shared.h:561-571 | three files of 113 clusters pack into 513 bytes of a 512-byte table |
| `Fat12.LastByteZero` | esp32-s3-msc/fat_disk_shared.h:561-571 | with an odd number of entries the last packed byte, the one that may be too many, is zero |
| `Fat12.BuildLinks` | esp32-s3-msc/fat_disk_shared.h:616-626 | the nested loops give every cluster the entry its place in its file calls for |
| `Fat12.BuildFat` | esp32-s3-msc/fat_disk_shared.h:616-629 | the table in place is the packed chains padded with zeros |
| `Fat12.FirstEntries` | esp32-s3-msc/fat_disk_shared.h:616-619 | entries 0 and 1 read back as the media mark and all ones |
| `Fat12.WalkChain` | sim/car_sim.py:342-353 | the reader's loop follows entries to an end mark, gives up after 65,525 clusters, and fails outside the table |
| `Fat12.FileChain` | sim/car_sim.py:342-353 | file f's chain is exactly its own clusters, in order, for every geometry of a FAT12 volume |
| `Fat12.BuildBootSector` | esp32-s3-msc/fat_disk_shared.h:573-610 | every field is in its place, low byte first, with the sector count in the field it fits |
| `Fat12.BootRoundTrip` | sim/car_sim.py:254-293 | the reader recovers the geometry, finds the data area and takes the volume for FAT12 |
| `Fat12.CountsLook` | esp32-s3-msc/fat_disk_shared.h:573-610 | the number of sectors is in the sixteen-bit field if and only if it fits, and in the thirty-two-bit field otherwise |
| `Fat16.BuildFat` | esp32-s3-msc-fat16-fallback/fat16_disk_shared.h:131-139 | the loop leaves a table in which the reader finds one ascending chain and zeros after it |
| `Fat16.WalkChain` | sim/car_sim.py:342-353 | the reader's loop over 16-bit entries, with its own end mark and limit |
| `Fat16.FileChain` | sim/car_sim.py:342-366 | the chain of the one file is all of its clusters in order, at any size the build accepts |
| `Fat16.FirstEntries` | esp32-s3-msc-fat16-fallback/fat16_disk_shared.h:131-139 | the table starts with the octets F8 FF FF FF |
| `Fat16.TypeRecognised` | sim/car_sim.py:280-281 | the reader takes the fallback volume for FAT16 if and only if it has 4085 clusters or more |
| `DiskImage.Disk.ReadAt` | esp32-s3-msc/fat_disk_shared.h:1019-1061 | any byte range is answered byte by byte from boot sector, two copies of the table and directory, one after the other, or from the files, and no piece crosses from one file into another |
| `DiskImage.WantedSplit` | esp32-s3-msc/fat_disk_shared.h:1036-1061 | cutting a read in two asks for the same file bytes |
| `DiskImage.CopiesAgree` | esp32-s3-msc/fat_disk_shared.h:1040-1043 | the boot sector comes first, both copies of the table follow, and the directory ends where the data area begins |
| `DiskImage.MountRoundTrip` | sim/car_sim.py:698-704 | from a boot sector and table the reader addresses every sector of every file, and the disk takes that address for the same sector of the same file; `Mount` gets both from reads |
| `Mount.ReadSectors` | sim/car_sim.py:83-84 | sectors read in pieces of any sizes are the boot sector at sector 0, the table in both copies behind it, then the directory |
| `Mount.ReadVolume` | sim/car_sim.py:691-694 | what a mount reads where sector 0 says it is, from either copy of the table, is exactly the disk's boot sector, table and directory |
| `Mount.ReadFile` | sim/car_sim.py:691-716 | with nothing but reads of the disk the host finds a file by its directory entry, follows its chain and reads a sector of it, and the disk puts exactly bytes o to o + 511 of that file in the buffer, each in its place |
| `VfatTitle.DecodeTitle` | esp32-s3-msc/fat_disk_shared.h:692-708 | the loop decodes, cleans and cuts the title as the character rules say |
| `VfatTitle.TrimTitle` | esp32-s3-msc/fat_disk_shared.h:709-711 | drops leading spaces and trailing spaces and dots, and falls back to the default name |
| `VfatTitle.LongNameLegal` | esp32-s3-msc/fat_disk_shared.h:692-716 | every title gives a legal name of 5 to 255 characters with a clean stem and the extension |
| `VfatTitle.DecodesText` | esp32-s3-msc/fat_disk_shared.h:696-708 | the decoder reads any UTF-8 text back character for character, cleaned, as far as there is room |
| `VfatTitle.NameOfText` | esp32-s3-msc/fat_disk_shared.h:692-716 | the long name of such a text is its first 251 characters, cleaned and trimmed, with the extension |
| `VfatTitle.AliasesDistinct` | esp32-s3-msc/fat_disk_shared.h:722-737 | the aliases of different files differ and none looks like a free slot |
| `VfatTitle.TitleWithoutSurrogates` | esp32-s3-msc/fat_disk_shared.h:697-703 | a title that encodes no surrogates gives a name without any |
| `VfatDirectory.DecodeAt` | sim/car_sim.py:310-315 | decoding a part replaces exactly the unpaired surrogates |
| `VfatDirectory.FindEntries` | sim/car_sim.py:296-334 | the reader's loop over 32-byte slots collects parts and entries as its rules say |
| `VfatDirectory.LongSlotsRead` | sim/car_sim.py:310-316 | a file's parts, stored last first, are all collected with their checksum |
| `VfatDirectory.AssembledIsSeen` | sim/car_sim.py:325-327 | joined and cut at the terminator, the parts give the name as seen part by part, at any length up to 255 |
| `VfatDirectory.SeenIsName` | sim/car_sim.py:310-327 | the name is seen unchanged if and only if every surrogate has its partner in the same part |
| `VfatDirectory.WithoutSurrogates` | sim/car_sim.py:310-327 | a name without surrogates is paired, whatever its length |
| `VfatDirectory.UnpairedComesBackChanged` | sim/car_sim.py:315 | a concrete title whose name comes back with the replacement character U+FFFD |
| `VfatDirectory.DirectoryRoundTrip` | sim/car_sim.py:296-334 | the reader finds every file with its first cluster and size, and with the very long name exactly when its surrogates are paired |
| `VfatRoot.FilesFit` | esp32-s3-msc/fat_disk_shared.h:637-638 | the files' slots fit 21 each |
| `VfatRoot.PutFile` | esp32-s3-msc/fat_disk_shared.h:660-688 | writes one file's slots, last part first, and touches nothing else |
| `VfatRoot.RootDirectory.BuildRoot` | esp32-s3-msc/fat_disk_shared.h:652-690 | the directory in place describes every file and is free after the last |
| `VfatRoot.RootDirectory.SetTitle` | esp32-s3-msc/fat_disk_shared.h:692-740 | a new title renames every file and rebuilds the directory; the same title changes nothing |
| `VfatRoot.TitleComesBack` | sim/car_sim.py:296-334 | a well-formed title is read back as exactly the name made of it |
| `VfatRoot.TextComesBack` | sim/car_sim.py:296-334 | a text without surrogates, sent as UTF-8, is read from the directory as its cleaned and trimmed characters with the extension |
| `TitleLaw.ReadsAs` | sim/car_sim.py:296-334 | every UTF-8 text is read from the directory as what is left of its first 251 characters between spaces before and spaces and dots after, with an underscore for each control character, each of " * / : < > ? \ , the vertical bar and DEL, and each character beyond the basic plane, and ".mp3"; as "Stream.mp3" when nothing is left |
| `TitleLaw.PartLooks` | esp32-s3-msc/fat_disk_shared.h:661-671 | the slots of a long name octet by octet: number and last-part mark, attribute, checksum, thirteen characters low byte first, then a zero and ones |
| `TitleLaw.AliasLooks` | esp32-s3-msc/fat_disk_shared.h:722-737 | the alias octet by octet: up to six letters and digits of the name in capitals, or STREAM, a tilde and the file's number, spaces to eight, MP3 |
| `TitleLaw.AliasShown` | sim/car_sim.py:321-330 | without its long-name parts, or with parts of another checksum, a file is shown by its alias |
| `TitleLaw.NoFileHere` | sim/car_sim.py:308-320 | a freed slot or a volume label is no file and ends the parts before it |
| `TitleLaw.ChecksumOfStream` | esp32-s3-msc/fat_disk_shared.h:640-644 | the checksum of STREAM~1MP3 is 254 |
| `OffsetRing.AppendTracks` | esp32-s3-msc-fat16-fallback/fat16_disk_shared.h:156-195 | every append, split or not, keeps the ring the end of the stream |
| `OffsetRing.ProtectedAppend` | esp32-s3-msc-fat16-fallback/fat16_disk_shared.h:166-182 | on a full ring an append is refused if and only if it would write the byte the reader reads next, which therefore survives |
| `OffsetRing.RefusedExactly` | esp32-s3-msc-fat16-fallback/fat16_disk_shared.h:156-181 | an append is refused if and only if the reader is protected and the append is as long as the ring, or the ring is full and some byte of it, around the ring's end, would lie where the reader reads next |
| `OffsetRing.AppendExactly` | esp32-s3-msc-fat16-fallback/fat16_disk_shared.h:182-195 | what is not refused extends the stream, and lies in the ring from the writer's place on, around its end |
| `OffsetRing.NeverSplices` | esp32-s3-msc-fat16-fallback/fat16_disk_shared.h:229-248 | a read that passes the straddle test is one piece of the stream, or lies where nothing was ever written |
| `OffsetRing.StraddlesExactly` | esp32-s3-msc-fat16-fallback/fat16_disk_shared.h:236-242 | a read is turned down if and only if the writer's place is one of its bytes or of the margin after them, around the ring's end |
| `OffsetRing.SplicesAcrossWriter` | sim/fat12_disk.py:224-273 | without the test a read around the writer runs to the live edge and then jumps back a whole lap |
| `OffsetRing.RunNeverSplices` | sim/fat12_disk.py:107-164 | the same, with the same condition for zeros, after any run of appends and reads from an empty ring |
| `OffsetRing.UnreadSurvives` | sim/fat12_disk.py:107-164 | while the reader waits, no run of protected appends changes the byte it reads next |
| `OffsetRing.NextByteSurvives` | esp32-s3-msc-fat16-fallback/fat16_disk_shared.h:243-248 | that byte is the one behind the last read served, around the ring's end |
| `OffsetRing.RingDisk.Append` | esp32-s3-msc-fat16-fallback/fat16_disk_shared.h:156-195 | the ring in place becomes exactly the appended ring, or is refused and unchanged |
| `OffsetRing.RingDisk.ReadData` | esp32-s3-msc-fat16-fallback/fat16_disk_shared.h:225-257 | serves the ring's bytes, or zeros without the lock or too close to the writer, and only then leaves the reader's place alone |
| `OffsetRing.RingDisk.ReadSectors` | sim/fat12_disk.py:262-307 | the sector loop serves the same bytes, and declines exactly the reads that straddle |
| `BotRuns.PacketIsNext` | firmware/main.c:299-336 | each packet sent is the next piece of what remains, and the serial bytes shown do not change meanwhile |
| `BotRuns.DrainSendsRemaining` | firmware/main.c:299-336 | as many polls as there are packets send exactly what remains and end ready for a command, whatever packets and serial bytes come between them |
| `BotRuns.ShowsTheLast` | firmware/main.c:53-58 | the bytes shown are the last of all bytes heard, at most 48 |
| `BotRuns.CommandArrives` | firmware/main.c:254-264 | a command block cut into any packets, with serial bytes and polls between, is handled once and whole |
| `BotRuns.CommandStarts` | firmware/main.c:172-252 | after its block a command sends all it should, waits for its data, or is stuck, and is stuck exactly when it reads no sectors |
| `BotRuns.CommandCompletes` | firmware/main.c:143-337 | over its whole exchange, with any packets, polls and serial bytes between, every other command sends exactly its data phase and one status block with its tag, and the device is ready again |
| `BotRuns.HangsExactly` | firmware/main.c:222-235 | a command hangs if and only if it reads no sectors from inside the disk |
| `BotRuns.StuckForever` | firmware/main.c:299-300 | nothing short of a reset gets the device out of it |
| `BotRuns.ZeroReadHangs` | firmware/main.c:222-235 | a concrete command block that hangs |
| `BotRuns.SessionCompletes` | firmware/main.c:143-337 | over any session the host gets exactly the data and status blocks of its commands, each read with the serial bytes as they were when it was asked for |
| `BotLaw.ReadGets` | firmware/main.c:222-235 | a READ(10) block built octet by octet gets the bytes of its sectors, as many as the disk has, with the serial bytes over them from byte 1536 on, and a status block with its tag; a failure without data when its first sector is not on the disk; it is the read that hangs if and only if it asks for no sectors from inside the disk |
| `BotLaw.ReadCompletes` | firmware/main.c:143-337 | over its whole exchange, whatever comes between, the host that asked for sectors has exactly those bytes, with the last 48 serial bytes heard when it asked |
| `BotLaw.WriteTakes` | firmware/main.c:239-246 | a WRITE(10) block takes as many bytes as it announces, lowest octet first, and succeeds |
| `BotLaw.BareGets` | firmware/main.c:181-252 | the other commands: the capacity is the last sector's number and 512, highest octet first; INQUIRY names a removable disk and the product, the sense data report no error, the mode page write protection, each with its own length; anything else fails without data |
| `BotLaw.UnsignedDropped` | firmware/main.c:172-178 | a block without the signature sends nothing and leaves the device ready |
| `BotLaw.ResetReadies` | firmware/main.c:132-136 | a reset makes the device ready from any state |
| `BotDevice.Bot.HandleBlock` | firmware/main.c:172-252 | acts on a signed block by its operation code and drops any other |
| `BotDevice.Bot.WriteOut` | firmware/main.c:254-273 | collects a command block or counts down the data of a write, in place |
| `BotDevice.Bot.Poll` | firmware/main.c:299-336 | sends the next packet and moves the device's state on, in place |
| `BotDevice.Bot.NextChunk` | firmware/main.c:301-321 | the byte loop yields the next eight bytes of the sectors, across a sector's end |
| `BotDevice.Bot.Receive` | firmware/main.c:38-59 | keeps the byte between commands, dropping the oldest of 48 |
| `Crc16.NibbleFeeds` | common/link_protocol.h:58-66 | one table step takes in four message bits |
| `Crc16.LinkCrc16` | common/link_protocol.h:58-66 | the nibble-table loop computes the bit-serial CRC of the bytes from any start state |
| `Crc16.CheckValue` | common/link_protocol.h:58-66 | started from all ones, the checksum of the nine digits is 0x29B1, the check value of CRC-16/CCITT-FALSE |
| `Crc16.FlipSyndrome` | common/link_diag.h:49-58 | a flipped message bit changes the checksum by the response of its distance from the end |
| `Crc16.SingleBit` | common/link_diag.h:49-58 | true if and only if the syndrome is the response of a message bit of that many, or a single checksum bit |
| `Crc16.ExplainedMeansOneFlip` | common/link_diag.h:49-58 | for every message and start value these are exactly the syndromes one flipped message bit or checksum bit causes |

## Left out

- UART, USB, TinyUSB, FreeRTOS, mutexes and memory allocation: foreign calls; a critical section is one atomic step.
- The v1 branch of `disk_read_at`: the offset-served rings cover serving by offset.
- `g_diag_*` counters, `esp32-s3-msc/msc_trace.h` and `esp32-s3-msc/event_log.h`: diagnostics that nothing else reads.
- The silence and primer bytes: an arbitrary array longer than 417 bytes.
- The MP3 encoder, and audio quality of the concealment.
- Floating-point rounding in `find_period`: a score that differs only by rounding could choose another period, which every property here allows.
- Building the fallback firmware's boot sector and directory: the same layout as the v2 build's.
- `PcmSpikeMeter` in `common/link_diag.h`: counts jumps between samples.
- The link's senders: sessions are stated over frames built from their octets.
- Directory dates, and the slot numbers kept for size updates: nothing reads them.
- The radio simulator's output side, sound level, tag reading, windows and reconnecting: the reads it makes are modelled, what it plays is not.
- DiskImage.Disk.ReadAt: for the data area says which bytes of which file are wanted where; what they are is the live ring's part (`LiveDisk.Disk.ReadLive`), and a stale link or a missed lock leaves them zero.
- LiveDisk.Disk.ReadLive: says nothing of the bytes a copy brings from past the end of the ring's memory, which C leaves undefined; `LiveServe.RereadOutcome` says exactly when there are any.
- LinkDistance.TwoBitsApart: three flipped bits are not covered; that they never make another codeword rests on a search over all trinomials of this length.
- OffsetRing.RingDisk.ReadSectors: covers reads of the data area; boot sector, table and directory are served as in `DiskImage`.
- LiveSession.StreamContinuity: says nothing about reads more than a lap late, which jump; `ContinuesExactly` says exactly when that is.
- Fat12.BuildFat: asks that the packer stays inside its table; `PackingFitsExactly` says exactly when it does.
- Wrap-around of statistics counters, and of byte counts beyond 2^32.
