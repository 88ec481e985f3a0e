# suscan capture pipeline, modelled in Dafny

This project models the capture encoding pipeline of suscan's analyzer. The
pipeline records a live I/Q sample stream into two files: the raw samples,
and a metadata stream of Ogg pages whose packets are small CBOR maps. The
model also covers the real-time throttle that paces sample delivery. Four C
files are modelled, each as imperative Dafny in the form the C has:

- `cbor.dfy` (module `Cbor`) models `analyzer/sink/cbor.c`. It holds the
  `cbor_pack_*` packers as methods that write into an `array<byte>` at a
  cursor and return the advanced cursor. It also holds a token-level
  specification (`Token`, `EncodeToken`, `Encode`) and a reader for it
  (`DecodeHead`, `DecodeToken`, `DecodeTokens`). Against these it proves:
  - heads are minimal;
  - every token reads back as itself;
  - a stream of tokens reads back as that stream.
- `ogg.dfy` (module `Ogg`) models `analyzer/sink/ogg.c`. It covers:
  - `crc32`, with its table loop and its fold over the data, proved against
    a recursive CRC function that composes over concatenation;
  - `ogg_write_page`, split along its own two phases: computing the checksum
    and issuing the writes;
  - `ogg_write_packet`'s chunking loop.

  Pages are specified as octets (`Page`) and as the sequence of write calls
  issued (`PageWrites`). Packets are specified as page records (`Pages`).
- `sink.dfy` (module `CaptureSink`) models `analyzer/sink.c`. It covers:
  - the four packet builders over a 512-octet buffer;
  - `struct suscan_sink` as the class `Sink`, with its packet writers,
    `Write` and `Close`;
  - `suscan_sink_open` as `Open`, with its rollback paths.
- `throttle.dfy` (module `Throttle`) models `analyzer/throttle.c` as the
  class `Throttle.Throttle`. Its pacing arithmetic is specified by functions
  (`Target`, `Elapsed`, `Delay`, `SleepFor`).

Two support modules serve all four files:

- `bytes.dfy` (module `Bytes`) holds octets, the 32- and 64-bit integer
  types and the byte orders.
- `fileio.dfy` (module `FileIo`) models files as append-only octet logs. The
  outcome of each write call comes from a script fixed when the file is
  created, so a failure can be injected at any write. `xwrite` either writes
  everything and returns 0, or writes nothing and returns nonzero. `write(2)`
  can also write part of its data. Writes are allowed only on an open descriptor, and
  `Sink.Valid` requires both of the sink's files to be open, so nothing can
  be written to a sink after `Close`.

`Issue(f, writes)` is the xwrite calls issued in order, stopping at the first
that fails. Every writer in the model is specified by the `Issue` of a list
of writes. Lemmas then state what that puts in the file: exactly the page
octets when no write fails (`Ogg.PacketWritten`,
`CaptureSink.OpenMetaContents`), and a prefix of them otherwise
(`FileIo.IssueContents`).

## Model

| member | source | states |
|---|---|---|
| Cbor.TypeByte | analyzer/sink/cbor.c:52-56 | the initial octet carries the major type in its top three bits and the additional information in its low five |
| Cbor.PackTypeByte | analyzer/sink/cbor.c:52-56 | writes the one initial octet at the cursor, advances the cursor by one and leaves every other octet of the buffer unchanged |
| Cbor.PackType | analyzer/sink/cbor.c:58-90 | writes exactly the head for the argument at the cursor; the cursor advances by the head size (1, 2, 3, 5 or 9 octets by the argument's range) and nothing outside `buf[pos..next]` changes |
| Cbor.HeadRoundTrip | analyzer/sink/cbor.c:62-87 | the head is HeadSize octets long, and reading it as section 2.1 of RFC 7049 defines, whatever follows, recovers the major type and the argument (argument octets are big-endian) |
| Cbor.HeadMinimal | analyzer/sink/cbor.c:62-87 | no head a reader accepts is shorter than the one the packer emits for the same argument |
| Cbor.PackNull | analyzer/sink/cbor.c:92-95 | writes the single octet 0xF6 |
| Cbor.PackUint | analyzer/sink/cbor.c:97-100 | writes a major-type-0 head for the value |
| Cbor.StrLen | analyzer/sink/cbor.c:106 | strlen: the first NUL is at the result, and no octet before it is NUL |
| Cbor.StrLenTerminated | analyzer/sink/cbor.c:106-111 | for a C string literal, strlen is its length and the copied octets are the literal |
| Cbor.PackString | analyzer/sink/cbor.c:102-114 | writes the head with argument strlen(str), then the string's octets up to the NUL and not the NUL; the loop copies them one by one and the cursor ends after them |
| Cbor.PackBString | analyzer/sink/cbor.c:116-119 | writes a byte string (major type 2) token for the C string |
| Cbor.PackUString | analyzer/sink/cbor.c:121-124 | writes a text string (major type 3) token for the C string |
| Cbor.PackArrayStart | analyzer/sink/cbor.c:126-129 | writes 0x9F |
| Cbor.PackArrayEnd | analyzer/sink/cbor.c:131-134 | writes the break octet 0xFF |
| Cbor.PackMapStart | analyzer/sink/cbor.c:136-139 | writes 0xBF |
| Cbor.PackMapEnd | analyzer/sink/cbor.c:141-144 | writes the break octet 0xFF |
| Cbor.EncodeAppend | analyzer/sink/cbor.c:52-56 | packing one more token after a stream appends exactly that token's octets |
| Cbor.TokenRoundTrip | analyzer/sink/cbor.c:58-144 | every token the packer writes reads back as itself and consumes exactly its own octets, whatever follows |
| Cbor.RoundTrip | analyzer/sink/cbor.c:58-144 | a stream of packed tokens reads back as exactly that stream |
| Cbor.ClosesFlat | analyzer/sink/cbor.c:126-144 | scalar tokens do not change the nesting depth |
| Cbor.ClosesNested | analyzer/sink/cbor.c:136-144 | a map start, flat entries and a break leave the nesting depth as it was |
| Ogg.BuildTable | analyzer/sink/ogg.c:104-110 | table entry i is i placed in the top octet of the register and divided by 0x04C11DB7 for eight bit steps |
| Ogg.Crc32 | analyzer/sink/ogg.c:99-115 | rebuilds the table, then folds the data into the register octet by octet, giving the table CRC of the data continued from the incoming register |
| Ogg.CrcAppend | analyzer/sink/ogg.c:113-114 | continuing the CRC of a over b is the CRC of a followed by b |
| Ogg.CrcPrefix | analyzer/sink/ogg.c:113-114 | each loop step extends the CRC of a prefix by one table step |
| Ogg.FlagsRoundTrip | analyzer/sink/ogg.c:60-62 | each combination of CONT, BOS and EOS gives its own header-type byte below 8, which reads back as those flags |
| Ogg.SegmentTemplate | analyzer/sink/ogg.c:64-97 | the constant table: 255 lacing values, each 255 (a fact about a constant, used by the lacing lemmas) |
| Ogg.PageHeader | analyzer/sink/ogg.c:46-58 | the page header is 27 octets |
| Ogg.HeaderFields | analyzer/sink/ogg.c:133-140 | the header is "OggS", version 0 and the type byte, then granule (8 octets), serial, sequence number and checksum (4 each) in little-endian order, then the segment-count octet, each read back from its place |
| Ogg.PatternIsOggS | analyzer/sink/ogg.c:133 | the byte-swapped capture pattern is written as the characters "OggS" |
| Ogg.CksumField | analyzer/sink/ogg.c:149 | octets 22..26 of a header hold the checksum it was built with |
| Ogg.LacingShape | analyzer/sink/ogg.c:146-173 | the lacing table is len/255 values of 255, then the value len%255 exactly when len%255 is nonzero or there are between 1 and 254 full segments; a 65025-octet page gets 255 values of 255 and no terminating value |
| Ogg.LacingSum | analyzer/sink/ogg.c:155-173 | the lacing values add up to the payload length |
| Ogg.SegmentCountQuirk | analyzer/sink/ogg.c:140-168 | the segment count fits an octet, and it undercounts the lacing values written by one exactly when the payload is a nonzero multiple of 255 below 65025 |
| Ogg.LacingWritesConcat | analyzer/sink/ogg.c:155-173 | the one or two lacing writes together carry exactly the lacing table |
| Ogg.HeaderZeroed | analyzer/sink/ogg.c:139-144 | zeroing the checksum field of a header gives the header built with checksum 0 |
| Ogg.ZeroedPage | analyzer/sink/ogg.c:139-148 | a written page with its checksum field zeroed is exactly the octets the checksum was computed over |
| Ogg.StoredChecksum | analyzer/sink/ogg.c:149 | the checksum field of a written page holds PageChecksum |
| Ogg.PageChecksumHolds | analyzer/sink/ogg.c:139-149 | the stored checksum is the CRC (initial 0, no final xor) of the whole page with the checksum field zeroed, which is how a reader verifies a page |
| Ogg.LacingCrc | analyzer/sink/ogg.c:145-147 | feeding the full-segment values, then the partial value when it is written, is feeding the lacing table |
| Ogg.PageCrcPieces | analyzer/sink/ogg.c:143-148 | the page CRC is the register after the header, then the lacing table, then the payload |
| Ogg.ComputeChecksum | analyzer/sink/ogg.c:130-149 | the checksum section of ogg_write_page produces PageChecksum: the CRC over the zero-checksum header, the lacing values actually written and the payload |
| Ogg.WriteFramed | analyzer/sink/ogg.c:151-175 | issues the header, then the full segments when there are any, then the partial value when it is written, then the payload, stopping at and returning the first nonzero result |
| Ogg.WritePage | analyzer/sink/ogg.c:117-176 | ogg_write_page's effect on the file and its result are those of issuing PageWrites (stored header, lacing writes, payload) in order |
| Ogg.FramedConcat | analyzer/sink/ogg.c:151-175 | the writes of a framed page put the header, the lacing table and the payload in the file, in that order |
| Ogg.PageWritesConcat | analyzer/sink/ogg.c:151-175 | together the writes of ogg_write_page are exactly the page's octets |
| Ogg.ChunkLen | analyzer/sink/ogg.c:191 | MIN(255 * 255, len): the chunk is no longer than the rest of the packet nor than 255 * 255 octets, and is one of the two |
| Ogg.WritePacket | analyzer/sink/ogg.c:178-206 | ogg_write_packet's effect and result are those of issuing the writes of the packet's pages in order: the first failing page's error is returned with nothing written after it, else 0 |
| Ogg.PagesSplit | analyzer/sink/ogg.c:190-203 | the first page carries the first chunk with the given flags; the rest are the pages of the remainder with CONT |
| Ogg.PagesPayloads | analyzer/sink/ogg.c:190-203 | the chunks, joined in order, are the packet |
| Ogg.PagesCount | analyzer/sink/ogg.c:190-203 | an empty packet gets one page, a nonempty one ceil(len / 65025) pages |
| Ogg.PagesSizes | analyzer/sink/ogg.c:191 | every page but the last carries 65025 octets, and the last is empty exactly when the packet is |
| Ogg.PagesHeaders | analyzer/sink/ogg.c:184-202 | every page of a packet has the same granule, serial and sequence number; the first has the packet's flags and every later one adds CONT |
| Ogg.PacketTypeBytes | analyzer/sink/ogg.c:184-202 | page i's type byte has BOS exactly when the packet is START and EOS exactly when it is END, on every page, and CONT exactly when i > 0 |
| Ogg.WritesOfConcat | analyzer/sink/ogg.c:194-197 | the writes of a run of pages put exactly the pages' octets in the file |
| Ogg.PacketWritten | analyzer/sink/ogg.c:178-206 | on a file whose next writes do not fail, ogg_write_packet returns 0 and appends exactly the packet's pages |
| FileIo.Fd.XWrite | analyzer/sink/ogg.c:151-153 | on an open descriptor, xwrite writes all the data and returns 0, or returns a nonzero error and writes nothing |
| FileIo.Fd.Write | analyzer/sink.c:221 | on an open descriptor, write(2) appends a prefix of the data and returns its length, or returns -1 and appends nothing |
| FileIo.Fd.Close | analyzer/sink.c:207 | close leaves the file's octets and name as they were |
| FileIo.Fd.Unlink | analyzer/sink.c:192 | unlink removes the name and leaves the octets as they were |
| FileIo.Creat | analyzer/sink.c:170-171 | creat gives a new open, named, empty file, or -1 |
| FileIo.IssueAppend | analyzer/sink/ogg.c:194-197 | issuing a + b is issuing a, then b only if every write of a succeeded |
| FileIo.IssueContents | analyzer/sink/ogg.c:151-175 | issued writes append a prefix of their concatenation, and all of it exactly when the result is 0 |
| FileIo.IssueNoErrors | analyzer/sink/ogg.c:151-175 | when no pending outcome is an error, every write goes through and the result is 0 |
| Bytes.BigEndianRoundTrip | analyzer/sink/cbor.c:64-86 | reading back the big-endian argument octets gives the argument when it fits |
| Bytes.LittleEndianRoundTrip | analyzer/sink/ogg.c:136-139 | reading back the little-endian header field gives the value when it fits |
| Bytes.Signed64 | analyzer/sink.c:55 | a `uint64_t` passed as `int64_t` keeps its value modulo 2^64 |
| Bytes.UnsignedSigned64 | analyzer/sink/ogg.c:136 | the granule read back as `uint64_t` in the header is the `uint64_t` the sink read from the clock |
| CaptureSink.KeysSpell | analyzer/sink.c:62-93 | a fact about constants: the key and value octets are the ASCII literals "ts", "version", "generator", "iq", "uniq", "fmt", "cf32", "samples" and "suscan v" |
| CaptureSink.Generator | analyzer/sink.c:66 | the generator string is "suscan v" followed by the version; it has no NUL when the version has none, and its head fits in 3 octets |
| CaptureSink.PrepareCborBuf | analyzer/sink.c:37-44 | the buffer starts with the map start, "ts" and the timestamp, at most 13 octets |
| CaptureSink.FinalizeCborBuf | analyzer/sink.c:46-50 | appends the break that closes the packet's map |
| CaptureSink.BuildGlobal | analyzer/sink.c:56-68 | the global packet's octets in the 512-octet buffer are exactly the encoding of {"ts", "version": 0, "generator": "suscan v" + version}, which fits for a version of at most 468 octets |
| CaptureSink.BuildHeader | analyzer/sink.c:80-100 | the header packet's octets are exactly the encoding of {"ts", "iq": {"uniq": null, "fmt": "cf32"}} and fit the buffer |
| CaptureSink.BuildUpdate | analyzer/sink.c:113-132 | the update packet's octets are exactly the encoding of {"ts", "iq": {"samples": n}} and fit the buffer |
| CaptureSink.BuildFooter | analyzer/sink.c:145-150 | the footer packet's octets are exactly the encoding of {"ts"} and fit the buffer |
| CaptureSink.GlobalIsTsMap | analyzer/sink.c:60-68 | the global packet is one indefinite map whose first key is "ts", closed by break, and it reads back as its tokens |
| CaptureSink.HeaderIsTsMap | analyzer/sink.c:84-100 | the header packet is one indefinite map whose first key is "ts", with "iq" nesting {"uniq": null, "fmt": "cf32"}, closed by break, and it reads back as its tokens |
| CaptureSink.UpdateIsTsMap | analyzer/sink.c:120-132 | the update packet is one indefinite map whose first key is "ts", with "iq" nesting {"samples": n}, closed by break, and it reads back as its tokens |
| CaptureSink.FooterIsTsMap | analyzer/sink.c:149-150 | the footer packet is one indefinite map holding only "ts", and it reads back as its tokens |
| CaptureSink.CountedFirst | analyzer/sink.c:102-104 | a fact about constants: the session header, numbered 0, leaves meta_seq at 1 (kept as a lemma so the numbering arithmetic stays out of CreateMeta) |
| CaptureSink.CountedNext | analyzer/sink.c:135 | numbering a packet with meta_seq and incrementing it (modulo 2^32) keeps the session numbers 0, 1, 2, ... |
| CaptureSink.Sink.constructor | analyzer/sink.c:167-168 | meta_serial is drawn and meta_seq is 0 before any file exists |
| CaptureSink.Sink.WriteGlobalMeta | analyzer/sink.c:52-74 | writes the global packet as a START and END packet with sequence number 0 on its own freshly drawn serial |
| CaptureSink.Sink.WriteLocalMetaHeader | analyzer/sink.c:76-107 | writes the header as a START packet numbered with the current meta_seq on meta_serial, then meta_seq moves on |
| CaptureSink.Sink.WriteLocalMetaUpdate | analyzer/sink.c:109-139 | without a metadata file, returns 0 and changes nothing; otherwise writes a DATA packet (neither START nor END) with the sample count, numbered with the current meta_seq, which then moves on |
| CaptureSink.Sink.WriteLocalMetaFooter | analyzer/sink.c:141-156 | writes the footer as an END packet numbered with the current meta_seq, which then moves on |
| CaptureSink.Sink.Write | analyzer/sink.c:216-228 | appends the samples' octets to the data file; a failed write returns 0 and leaves the metadata untouched; otherwise returns the whole samples written and emits one update with that count and the current meta_seq, whatever becomes of it |
| CaptureSink.Sink.Close | analyzer/sink.c:204-214 | closes the data file; with metadata, writes the END footer with the current meta_seq and closes the metadata file, keeping the session numbers 0, 1, ..., N+1; the sink is then no longer valid, so no write or second close can follow |
| CaptureSink.OpenMetaWrites | analyzer/sink.c:179-183 | the new metadata file receives the global packet's writes, then the header's, stopping at the first that fails |
| CaptureSink.OpenMetaContents | analyzer/sink.c:179-183 | when no write fails, the metadata file holds the global packet's pages followed by the header packet's pages |
| CaptureSink.Discard | analyzer/sink.c:190-196 | a rolled-back file is closed and unlinked, with its octets as they were |
| CaptureSink.WriteInitialMeta | analyzer/sink.c:179-183 | writes the global packet and, only if it succeeded, the header packet; on success the session has numbered one packet, 0 |
| CaptureSink.CreateMeta | analyzer/sink.c:174-196 | a failed metadata creat closes and unlinks the data file; a failed initial packet closes and unlinks both files; on success the sink is valid with meta_seq 1 |
| CaptureSink.Open | analyzer/sink.c:158-202 | a sink is returned exactly when allocation, data creat and (with a metadata path) metadata creat and both initial packets succeed; every file created on a failed open is closed and unlinked; without a metadata path no packet is written and meta_seq is 0 |
| Throttle.SleepSplit | analyzer/throttle.c:69-74 | a sleep is requested exactly when the delay exceeds 500 ns, for delay div 1e9 seconds and delay mod 1e9 nanoseconds, which add up to the delay |
| Throttle.DelayIsLead | analyzer/throttle.c:67 | while nothing wraps, the delay is (samp_count + h) * 1e9 / samp_rate minus the time elapsed since t0 |
| Throttle.Paces | analyzer/throttle.c:66-74 | while nothing wraps, a call that sleeps returns exactly when samp_count + h samples are due after t0, and one that does not sleep is at most 500 ns early |
| Throttle.OneSecondOfSamples | analyzer/throttle.c:66-74 | at 1000 samples per second, a first request for 1000 samples after the 100 ms settling pause sleeps 0.9 s |
| Throttle.Throttle.Init | analyzer/throttle.c:34-48 | clears the state, records samp_rate and takes t0 from the clock |
| Throttle.Throttle.GetPortion | analyzer/throttle.c:50-83 | a zero request returns 0 and changes nothing; otherwise returns h unchanged, sleeps SleepFor(Delay(...)), and resets samp_count to 0 and t0 to the clock reading of this call exactly when samp_count exceeded the threshold; samp_rate never changes |
| Throttle.Throttle.Advance | analyzer/throttle.c:85-89 | adds `got` to samp_count modulo 2^64 and changes nothing else |

## Behaviour kept as the code has it

- When the throttle's counter passes the reset threshold, the counter
  restarts from zero at `now`. This discards whatever lead or lag had built
  up, so the reset, which is only meant to bound the counter, does change
  later pacing. `Throttle.Paces` is relative to the current t0.
- The close packet is not empty: it is the map {"ts": time}, built by
  `prepare_cbor_buf` and `finalize_cbor_buf`.
- BOS and EOS are set on every page of a multi-page packet, not only on the
  first and last.
- The header's segment count leaves out the trailing 0 lacing value written
  after a nonzero multiple of 255 octets below 65025 (`Ogg.SegmentCountQuirk`).
- An empty packet gets one page with no lacing value at all.
- The session serial `meta_serial` is drawn on every open, even without a
  metadata path.

## Left out

- I/O: creat, write, xwrite, close and unlink act on modelled octet logs.
  Their outcomes come from scripts passed in, and xwrite is taken to write
  everything or return nonzero. `free`, and `malloc` apart from its failure
  (`OpenEnv.mallocOk`), are not modelled.
- Clocks and randomness: `suscan_gettime`, `suscan_gettime_unix`,
  `suscan_gettime_raw` and `rand32` are parameters (`Clock`, `OpenEnv`,
  `now`).
- CaptureSink.OpenEnv: `rand32` is any `uint32_t`, not only the values up to
  RAND_MAX that `rand()` yields.
- Sleeping: `usleep(100000)` and `nanosleep` are not taken. `GetPortion`
  returns the requested `timespec` instead.
- The `#if 0` block of analyzer/sink.c is dead code and is not modelled.
- Host byte order: `cpu32_to_le` and `cpu64_to_le` are identities and the
  packed struct is modelled as its 27 wire octets.
- SUSCAN_VERSION_STRING is the parameter `version`.
  SUSCAN_THROTTLE_RESET_THRESHOLD is the parameter `threshold`. OGG_DATA is
  taken to set neither START nor END.
- Sample contents are opaque octets; a sample is 8 octets (two floats).
- Ogg.Crc32: the table CRC is not proved equal to a bit-serial CRC-32
  definition. The table entries are proved to be the polynomial division of
  their index (`Ogg.BuildTable`), and the page checksum is specified by the
  table fold itself.
- Ogg.BuildTable: the C loop's `size_t` register is kept as a 32-bit
  register. Bits only move upward and the entry is stored as `uint32_t`, so
  the 32 low bits are the same.
- Ogg.WritePage: requires a payload of at most 255 * 255 octets. The C check
  (`VERIFY3U`) is defined away, and the only caller never passes more.
- Ogg.ComputeChecksum and Ogg.WriteFramed are the two halves of
  ogg_write_page; Ogg.WritePage composes them.
- CaptureSink.BuildGlobal: requires a version string of at most 468 octets
  without NUL, the bound under which the packet fits the 512-octet buffer.
  The C has no such check.
- CaptureSink.Sink.Write: requires the data to be a whole number of samples
  and shorter than 2^64 octets. This holds by construction in the C, where
  the length is `len * sizeof(SUCOMPLEX)`.
- The `Put*` wrappers and `WriteInitialMeta`, `CreateMeta` and `Discard`
  group the C's packer calls and goto rollback paths; they add no behaviour.
- Throttle.Throttle.GetPortion: requires samp_rate > 0 and no `uint64_t`
  overflow in `(samp_count + h) * 1e9`. The C divides by the rate and lets
  that product wrap unchecked.
- Concurrency: the sink and the throttle are single-owner and have no
  locking; util/compat.h is not part of this model.
