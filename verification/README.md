# Verification of bg3le's formats, allocator and protocols

bg3le is a script extender for the native Linux build of Baldur's Gate 3. This
project models the parts of it whose behaviour its own source decides, and
proves what they are relied on for. Every model does what the code does, branch
by branch; where the code updates state in place, so does the model, and each
such method is proved against a specification function, about which the results
are lemmas.

- **DEFLATE** (`Canonical`, `Deflate`, `Inflate`, `InflateTheorems`, `InflateLaws`). The format
  is that of RFC 1951 without two of its limits, as the source takes it: a
  dynamic header may give up to 288 literal codes and not 286, and its codes may
  be over-subscribed or incomplete. It is a pair: what bits a stream of blocks
  is written as, and what stream bits hold. The two are proved inverse, and the
  decoder (bit reader, counting Huffman decoder, dynamic headers, overlapping
  copies into a bounded buffer) is proved to succeed on an input exactly if it
  holds a stream of that format and of the size asked for, and to give that
  stream's bytes. It covers every input, and every index is in range.
- **The network protocol** (`Proto`, `Guid`, `NetCodec`, `NetDecode`,
  `NetTheorems`, `NetSync`, `NetLaws`, `Handshake`, `HandshakeLaws`). Messages and
  variables of every kind
  come back as they were, exactly if they are normal; batches arrive whole and
  in order exactly if no packet is over the limit; and over all interleavings of
  connections that reuse peer ids, what either side sends is written to the
  connection it looked at, which had the other's hello, exactly while that is
  open; the three races in which it is not are given as runs, and in every order
  of steps a handshake whose messages are all received is complete.
- **The allocator** (`FastAlloc`, `AllocRuns`, `AllocLaws`). Memory by words, threads' pools
  and free lists threaded through the free blocks. Over every run of threads
  that allocate and free, blocks in use are aligned, large enough, apart and
  left alone, and every carved block is in use or on one list.
- **The archive case fixer** (`Spelling`, `References`, `Scanning`,
  `Unification`, `Overlap`, `SecondRun`, `Grouping`, `Choosing`, `Fixer`,
  `Components`, `TextLaws`, `Resolution`, `Targets`) with the archives and
  documents it works on (`Pak`, `PakFix`, `PakFile`, `PakLaws`, `Lsf`, `LsfFile`,
  `LsfLaws`, `Corrected`, `CorrectedLaws`). What the fixer finds is a log of
  events, proved to be exactly what names and strings say when told by their
  bytes; a reference has each part of the name it refers to, and follows it. The
  groups, a
  union-find with path halving, are proved to be the classes of that log.
  Wherever the strings of files lie, it changes nothing but the case of letters;
  and what it makes of an archive is the one unified spelling exactly if there
  is one. Fixing that again changes nothing, where the same strings may name
  icons in it. The corrected copy, read back through its own list and decoded,
  holds exactly what the fixer made, and every other entry as it was.
- **Smaller parts**: Steam's KeyValues text edited in place (`Vdf`, `VdfText`,
  `VdfTree`, `VdfEdit`, `VdfOptions`, `VdfLaws`, with the edits that go wrong in
  `VdfShared` and `VdfSample`), the debug server's job queue
  (`JobQueue`), the walk over the story's function trees (`OsiTree`) and the
  variables kept in savegames (`Savegame`).

The modules whose names end in `Laws`, with `Components`, `Resolution` and
`Targets`, say what the formats, tables and constants are apart from the
functions that use them: with literal bytes, places, names and sizes, mostly as
an if-and-only-if between what a function gives and what its input holds.

`Wrappers`, `Sequences`, `BitStrings` and `Numbers` hold what several of these
share. Integers are unbounded; where the source's width matters (64-bit varints,
sizes that wrap, 48-bit offsets, 32-bit sizes) the model says so. Codecs that
the source links in (LZ4, zstd), CRC-32, mmap's answers, the real allocator's
and lower-casing in Python are parameters.

Where the code does not do what it is meant to, the model keeps the code and a
lemma says exactly when it does:

- `src/inflate.cpp:248-252` takes a raw stream for a zlib one if it opens with
  bytes that could be a zlib header. A raw stream inflates if and only if its
  first two bytes do not pass that test, or what follows them happens to be a
  stream of the same meaning (`RawStreamInflates`). They pass it only in a
  stream that opens with a stored block, not the last, whose five bits of
  padding begin with a one (`LookalikeIsPaddedStored`, with an input in
  `LookalikeIsRefused`).
- `src/net.cpp:861-863` promises that content never goes to a client that took
  over a peer id without having the extender, and `src/net.cpp:766-773` that a
  client sends only after the host's hello on its connection. A send is written
  to the connection that was looked at exactly while that is open
  (`HostSendsToHello`, `ClientSendReaches`), and then the promise holds. From
  every state past the handshake, which is reached (`IntroducedIsReached`), it
  is broken by a host's send after the lock is released, by a host's lookup
  before the next client's ClientConnect, and by a client whose connection
  closes and opens again between its look and its send (`LateSendStrays`,
  `EarlySendStrays`, `ReopenedSendStrays`).
- `src/fast_alloc.cpp:58-67` gives a block too small exactly when the size and
  its header do not fit 64 bits (`ClassHoldsIff`).
- `src/net.cpp:1147-1165` splits below the packet limit only if no single
  variable is too large (`SyncArrives`, `SlackSuffices`).
- `src/lsf.cpp:189-212` takes strings at whatever offsets the attributes give,
  so references may share bytes. There is a unified spelling if and only if such
  references are to be spelled alike where they do (`UnifiedIffAgree`), which is
  so where the strings of a file are one range or apart (`ApartAgree`);
  `SharedBytesDisagree` is an archive that has none.
- `src/pak_fix.cpp:551-562` looks for the attribute of a string in the text
  before it, which fixing may respell. Another run changes nothing where the
  strings that may name icons are the same in what the first one made
  (`UnifyingTwice`, `UnifiedStays`), which is so where no reference lies over
  the words `data "` and `id="` (`ClearStays`); `SecondRunDiffers` is an archive,
  with names and a text of one line, whose every unified spelling another run
  changes.
- `src/pak_fix.cpp:665-689` copies an archive of version 15 or 16 whole and then
  writes where its list is into bytes 8 to 20. An entry that is not replaced
  reads as it did if those of its bytes are the same in the copy, and one that is
  not compressed only if they are (`OthersRead`, `TextKeptIff`). One that has
  all of bytes 8 to 16 never does (`OverListOffset`, with an archive in
  `SampleSpoilt`).
- `install.py:124-141` puts a block beside the game's entry when that entry is a
  plain value, and then does not find it again: options read back if and only if
  the entry is no plain value or they are empty (`OptionsReadBack`; the family
  of texts in `PlainEntryHides` never does).
- `install.py:99-102` takes all that is before a closing brace on its line for
  its indentation. If that line does not begin within a quoted string, the edited
  text is the same tree but for the options if and only if the brace is alone on
  the line (`OnlyOptionsIff`).
- `src/savegame.cpp` cuts names at a zero byte and texts at four gigabytes
  (`RawReadsIff`, `LastsIff`).

`src/pak_fix.cpp` gives names with a backslash parts of one group that are not
as long as each other, which it then compares and writes by one length; names
are taken to have none, and `BackslashMixesLengths` is two that do. What becomes
of such an archive is not stated.

## Model

| member | source | states |
|---|---|---|
| Canonical.PrefixFree | src/inflate.cpp:51-80 | no two symbols' canonical codewords begin the same bits, for any lengths, over-subscribed ones too |
| Canonical.BeginsIsPrefix | src/inflate.cpp:64-80 | the arithmetic test for a symbol's code is that its codeword is a prefix of the bits |
| Canonical.RankIsTaken | src/inflate.cpp:72-75 | every rank below a length's count is one symbol's |
| Canonical.ReadCodeword | src/inflate.cpp:64-80 | bits that begin with a symbol's codeword of section 3.2.2 of RFC 1951 read as that symbol, consuming exactly the codeword |
| Canonical.ReadSymbolWrites | src/inflate.cpp:64-80 | a symbol that is read was written: the bits are its codeword and the rest |
| Canonical.ReadSymbolFinds | src/inflate.cpp:64-80 | a symbol whose code comes next is the one read |
| Canonical.EverySymbolCodedIffKraft | src/inflate.cpp:51-62 | every symbol with a length has a codeword if and only if the lengths satisfy Kraft's inequality |
| Deflate.CodeLengthCodeAt | src/inflate.cpp:180-199 | the lengths of a dynamic header land where the permuted order puts them; which order that is says `InflateLaws.CodeLengthLaw` |
| Deflate.ParseTokensBits | src/inflate.cpp:112-156 | literals and matches written in any code are read back up to the end of block |
| Deflate.ParseTokensWrites | src/inflate.cpp:112-156 | whatever is read as literals and matches is exactly what those are written as |
| Deflate.ParseItemsBits | src/inflate.cpp:204-233 | code lengths with repeats are read back, repeats across the literal/distance boundary too |
| Deflate.ParseItemsWrites | src/inflate.cpp:204-233 | whatever is read as code lengths is what those are written as, and runs to the same lengths |
| Deflate.ParseHeaderBits | src/inflate.cpp:179-240 | a dynamic header reads back as written |
| Deflate.ParseHeaderWrites | src/inflate.cpp:179-240 | a dynamic header that is read is an allowed one and is written as the bits it was read from |
| Deflate.ParseStoredBits | src/inflate.cpp:94-110 | a stored block reads back after dropping to the next byte and checking the length against its complement |
| Deflate.ParseStoredWrites | src/inflate.cpp:94-110 | a stored block that is read is written as the bits it was read from, padding included |
| Deflate.ParseBodyBits | src/inflate.cpp:266-272 | a block of any type reads back |
| Deflate.ParseBodyWrites | src/inflate.cpp:266-272 | a block of any type that is read is written as the same bits |
| Deflate.ParseStreamBits | src/inflate.cpp:261-276 | a stream of blocks reads back, up to the final one and not beyond |
| Deflate.ParseStreamWrites | src/inflate.cpp:261-276 | a stream that is read is written as the same bits |
| Deflate.CopyRunRepeats | src/inflate.cpp:150-154 | a match copies the bytes one distance back, and a run longer than its distance repeats them |
| Deflate.RunTokensAppend | src/inflate.cpp:120-155 | running tokens one after the other is running them together, failures included |
| Deflate.RunAppend | src/inflate.cpp:261-275 | the same for blocks |
| Inflate.BitReader.Take | src/inflate.cpp:33-43 | takes exactly the next bits, low bits first, or fails at the end of the input with what is left counted |
| Inflate.BitReader.Align | src/inflate.cpp:95-97 | drops the bits up to the next byte and no more |
| Inflate.Huffman.constructor | src/inflate.cpp:51-62 | the counts and the symbols in canonical order of any lengths |
| Inflate.Decode | src/inflate.cpp:64-80 | reads the symbol whose canonical codeword comes next, and gives -1 exactly if there is none |
| Inflate.Output.Put | src/inflate.cpp:87-91 | appends a byte, or fails and changes nothing when the buffer is full |
| Inflate.Output.CopyFrom | src/inflate.cpp:150-154 | the byte-by-byte copy is the self-overlapping run |
| Inflate.Stored | src/inflate.cpp:94-110 | succeeds exactly on a stored block that fits, and writes its bytes |
| Inflate.Codes | src/inflate.cpp:112-156 | succeeds exactly if tokens come next that have a meaning and fit, and writes their meaning |
| Inflate.FixedLengths | src/inflate.cpp:160-175 | the lengths of section 3.2.6 of RFC 1951 |
| Inflate.FixedBlock | src/inflate.cpp:158-177 | the same as `Codes` with the fixed codes |
| Inflate.ReadCodeLengths | src/inflate.cpp:183-199 | the code length code as the header gives it |
| Inflate.ReadLengths | src/inflate.cpp:204-233 | the lengths that the header's items run to, or failure where there are none or too many |
| Inflate.ReadHeader | src/inflate.cpp:179-233 | succeeds exactly on a dynamic header, and gives its literal and distance lengths |
| Inflate.DynamicBlock | src/inflate.cpp:179-241 | succeeds exactly on a dynamic block that has a meaning and fits |
| Inflate.AnyBlock | src/inflate.cpp:266-272 | the same for a block of each type; the fourth type fails |
| Inflate.Blocks | src/inflate.cpp:261-276 | succeeds exactly if the blocks up to the final one have a meaning that fits, and writes it |
| Inflate.Inflate | src/inflate.cpp:245-277 | on every input terminates, keeps every index in range, and returns true exactly if there is a stream of the output's size, whose bytes are then in the output |
| InflateTheorems.InflatesExactly | src/inflate.cpp:245-277 | sound and complete: an input inflates to bytes if and only if it holds, behind an optional zlib header, a stream that decompresses to them, of section 3.2 of RFC 1951 but for the limit of 286 literal codes and with over-subscribed and incomplete codes allowed |
| InflateTheorems.StreamIsUnique | src/inflate.cpp:261-276 | bits hold one stream only |
| InflateTheorems.RawStreamInflates | src/inflate.cpp:245-277 | a raw stream inflates to its meaning if and only if its first two bytes fail the test for a zlib header, or a stream of the same meaning follows them |
| InflateTheorems.LookalikeIsPaddedStored | src/inflate.cpp:248-252 | a valid raw stream that is taken for a zlib one opens with a stored block, not the last, padded with ones |
| InflateTheorems.LookalikeIsRefused | src/inflate.cpp:248-252 | an input of that kind that is a valid raw stream and is refused |
| InflateTheorems.UnpaddedInflates | src/inflate.cpp:248-252 | so it does unless it opens with a stored block, not the last, that is padded with a one |
| InflateTheorems.ZlibStreamInflates | src/inflate.cpp:248-252 | a stream behind any header of section 2.2 of RFC 1950 inflates |
| InflateTheorems.EncodedInflates | src/inflate.cpp:245-277 | whatever an encoder writes by the format, padding with zeros, inflates to what it encoded |
| InflateTheorems.LiteralsRoundTrip | src/inflate.cpp:245-277 | every byte string, written by a reference encoder, comes back |
| InflateTheorems.FixedCodes | src/inflate.cpp:158-175 | every symbol of the fixed codes has a codeword |
| InflateTheorems.EveryMatchHasToken | src/inflate.cpp:113-148 | the base and extra tables cover lengths 3 to 258 and distances 1 to 32768, and nothing else |
| InflateTheorems.StreamNeedsTwoBytes | src/inflate.cpp:246-252 | no stream is so short that asking for two bytes of input refuses it |
| InflateLaws.CodeLengthLaw | src/inflate.cpp:180-199 | the first four lengths given are of symbols 16, 17, 18 and 0, and the others go up and down from 8 |
| InflateLaws.ItemLaw | src/inflate.cpp:204-233 | a symbol up to 15 is a length; 16 repeats the one before 3 to 6 times; 17 and 18 are 3 to 10 and 11 to 138 zeros; nothing beyond the lengths there are |
| InflateLaws.HeaderLaw | src/inflate.cpp:179-201 | the five, five and four bits of a dynamic header and the three for each length given, from 257, 1 and 4 |
| InflateLaws.BlockLaw | src/inflate.cpp:261-272 | the bit of the last block and the two of the type, which is stored, fixed or dynamic |
| InflateLaws.SymbolLaw | src/inflate.cpp:127-137 | symbols below 256 are bytes, 256 ends the block, those above 285 mean nothing |
| InflateLaws.CopyLaw | src/inflate.cpp:112-156 | the others are a length and a distance, by the formulas of their bases and extra bits, and copy the bytes that far back |
| InflateLaws.FixedWordLaw | src/inflate.cpp:158-175 | the codewords of the fixed literal code, by their first numbers and lengths |
| InflateLaws.FixedDistanceLaw | src/inflate.cpp:158-175 | and of the fixed distance code |
| InflateLaws.PlainInflates | src/inflate.cpp:261-276 | bits one, one, zero and then a text in those codewords and seven zeros inflate to the text |
| InflateLaws.StoredInflates | src/inflate.cpp:94-110 | so do a one, the size in two bytes, its complement and the bytes |
| InflateLaws.ZlibHeaders | src/inflate.cpp:251-256 | behind 0x78 and 0x01, 0x5e, 0x9c or 0xda, what follows is inflated |
| InflateLaws.NoHeader | src/inflate.cpp:251-256 | behind two bytes that no zlib header has, the stream begins with them |
| Proto.PutVarint | src/pb.h:10-16 | appends the varint of section "Base 128 Varints" of the Protocol Buffers encoding |
| Proto.ReadWritten | src/pb.h:10-16 | every 64-bit number is read back from its varint, with what follows it |
| Proto.VarintLength | src/pb.h:10-16 | a varint takes a byte for every seven bits |
| Proto.PutUint | src/pb.h:23-27 | a number field, left out when it is zero |
| Proto.PutBytes | src/pb.h:29-33 | a length-delimited field |
| Proto.FieldsOfBytes | src/pb.h:36-106 | fields written one after the other are read back in order |
| Proto.Reader.Next | src/pb.h:40-47 | the next key, or false at the end and at a key that is cut short |
| Proto.Reader.TakeVarint | src/pb.h:49-63 | a number, exactly where one can be read |
| Proto.Reader.TakeBytes | src/pb.h:65-72 | a length-delimited payload that lies within the data |
| Proto.Reader.TakeFixed | src/pb.h:74-80 | so many bytes, exactly if they are there |
| Proto.Reader.Skip | src/pb.h:82-95 | passes exactly over a field of its wire type |
| Guid.ParseGuid | src/net.cpp:101-127 | accepts exactly 36 characters of the shape, and gives the permuted bytes |
| Guid.FormatGuid | src/net.cpp:129-143 | the text of sixteen permuted bytes |
| Guid.ParseFormatted | src/net.cpp:101-143 | every sixteen bytes are written and parsed back to themselves |
| Guid.FormatParsed | src/net.cpp:101-143 | every text that parses is written back in lower case |
| Guid.WordBytesOfWord | src/net.cpp:124-125 | bytes survive being carried as a number |
| Guid.WordOfBytes | src/net.cpp:130-132 | and numbers as bytes |
| Guid.BytesLaw | src/net.cpp:117-123 | which digits of the text each byte is: the first group backwards, every two bytes after it swapped |
| Guid.ParsesIff | src/net.cpp:101-123 | what parses is 36 characters, dashes at four places and hexadecimal digits at all others |
| Guid.WordLaw | src/net.cpp:124-125 | a word has its lowest byte first |
| NetCodec.EncodeVar | src/net.cpp:145-168 | a variable's bytes, by its kind, with defaults left out |
| NetCodec.PutValue | src/net.cpp:155-166 | the value field of each kind |
| NetCodec.EncodePost | src/net.cpp:173-181 | the fields of a posted message |
| NetCodec.Encode | src/net.cpp:170-196 | the bytes of a message of each kind; which bytes those are says `NetLaws.MessageLaw` |
| NetDecode.DecodeVar | src/net.cpp:198-233 | a variable from its bytes, unknown fields passed over, or failure |
| NetDecode.DecodeOuter | src/net.cpp:235-255 | the kind and body of a message, the last field counting |
| NetDecode.DecodeField | src/net.cpp:256-288 | one field of the body, by the message's kind |
| NetDecode.Decode | src/net.cpp:235-290 | a message from its bytes, or failure |
| NetTheorems.VarRoundTrip | src/net.cpp:145-168 | a variable of any kind comes back in normal form |
| NetTheorems.MessageRoundTrip | src/net.cpp:170-290 | every message comes back in normal form, and of an unknown kind not at all |
| NetTheorems.RoundTripIffNormal | src/net.cpp:170-290 | a message comes back as it was if and only if its GUIDs are canonical and it carries only what its kind carries |
| NetTheorems.CanonicalIff | src/net.cpp:101-143 | a GUID is kept if and only if it is lower-case text of the right shape |
| NetTheorems.WordsFit | src/net.cpp:145-149 | a GUID's two numbers fit 64 bits and give the GUID back |
| NetLaws.VarintLaw | src/pb.h:10-16 | a number is written in base 128, low digits first, the top bit on all bytes but the last, and no needless last byte |
| NetLaws.ReadLaw | src/pb.h:49-63 | any bytes up to one without the top bit are read as that number modulo 2^64, and fail if they are over ten |
| NetLaws.FieldLaw | src/pb.h:18-34 | a field begins with eight times its number and its wire type: 0, 1, 2 or 5 |
| NetLaws.VarLaw | src/net.cpp:145-168 | a variable is fields of tags 0x08, 0x10, 0x1a, its value, and 0x40 |
| NetLaws.ValueLaw | src/net.cpp:152-166 | a value has tag 0x20, 0x29, 0x32, 0x3a, 0x48 or 0x52 by its kind |
| NetLaws.PostLaw | src/net.cpp:173-181 | a posted message is fields of tags 0x0a, 0x12, 0x1a, 0x20, 0x28 and 0x30 |
| NetLaws.MessageLaw | src/net.cpp:79-80 | a message is one field of tag 0x0a, 0x12, 0x2a, 0x3a or 0x42 around its body |
| NetLaws.HelloLaw | src/net.cpp:79-80 | the hello of a version below 128 is 0x2a, 2, 8 and that version, and reads as it |
| NetLaws.NumberReads | src/net.cpp:207-227 | what a field of a number or a double at a variable's end makes of it, by its tag |
| NetLaws.TextReads | src/net.cpp:206-219 | what a field of bytes there makes of it |
| NetLaws.GuidReads | src/net.cpp:204-205 | fields 0x08 and 0x10 are the first and the last eight bytes of its GUID |
| NetLaws.VarSkips | src/net.cpp:227-229 | any other field leaves it |
| NetLaws.PostTextReads | src/net.cpp:255-258 | what a field of bytes at a posted message's end makes of it, by its tag |
| NetLaws.PostNumberReads | src/net.cpp:259-263 | what a field of a number there makes of it |
| NetLaws.OthersRead | src/net.cpp:264-285 | the same for a reset, a hello, a kick and the variables; a variable that is none is dropped |
| NetLaws.BodySkips | src/net.cpp:254-288 | any other field leaves the message |
| NetLaws.OuterLaw | src/net.cpp:235-250 | the last field of one of the five kinds is the message, and all others are passed over |
| NetLaws.BadField | src/pb.h:82-95 | a field that is cut short or of another wire type fails its message |
| NetLaws.CutKey | src/pb.h:40-47 | a key that is cut short ends its message |
| NetSync.Split | src/net.cpp:1147-1165 | the packets of a sync: every variable once and in order, no part empty, each closed only when over its budget |
| NetSync.VarSize | src/net.cpp:1156 | what the budget counts for a variable bounds its encoded size |
| NetSync.PacketSize | src/net.cpp:1159 | a packet is at most eleven bytes longer than its budget |
| NetSync.PartFits | src/net.cpp:1155-1159 | a part whose variables are within the slack fits a packet |
| NetSync.SlackSuffices | src/net.cpp:1147-1165 | so does every packet of a split |
| NetSync.SyncArrives | src/net.cpp:335-359 | the receiver gets every variable, once and in order, if and only if no packet is over the limit |
| NetSync.DeliveredLength | src/net.cpp:335-359 | a packet over the limit loses its variables and no others |
| NetSync.PartLaw | src/net.cpp:1155-1157 | a variable goes into a part that is not empty only if those before it count less than 256 KB, each as its key, its value and 64 |
| NetSync.LimitLaw | src/net.cpp:335-359 | a packet of 1 to 1,048,575 bytes arrives, and no other |
| NetSync.SlackLaw | src/net.cpp:1155-1159 | the slack is a key and a value of 786,357 bytes together |
| Handshake.StepInv | src/net.cpp:593-615 | connecting, hellos, sends and ticks keep the invariant of tables, channels and connections |
| Handshake.RunInv | src/net.cpp:910-939 | so does every run |
| Handshake.ReachableInv | src/net.cpp:910-939 | so it holds in every reachable state |
| Handshake.TableMeansHello | src/net.cpp:797-891 | in every reachable state a connected peer in the table has said hello on its present connection |
| Handshake.HostSendsToHello | src/net.cpp:737-764 | a send is written to the connection it was looked up for exactly while that is open, and its client has said hello there; else to the peer's present connection or nowhere |
| Handshake.StrayMeansClosed | src/net.cpp:737-764 | a client without the extender is sent content only when the connection that was looked up has closed |
| Handshake.LateSendStrays | src/net.cpp:737-745 | from every state with a peer in the table, a run in which a send after the lock is released strays |
| Handshake.EarlySendStrays | src/net.cpp:861-871 | and one in which a lookup before the new ClientConnect does |
| Handshake.HelloOnlyToExtended | src/net.cpp:873-890 | ExtenderHello itself goes only to clients with the extender |
| Handshake.ClientSendsAfterHello | src/net.cpp:766-773 | a client's look at its flag succeeds only after the host's hello on its present connection |
| Handshake.ClientSendReaches | src/net.cpp:766-773 | the send after it is written to the connection looked at exactly while that is open and the client's present one, which had that hello; else to the present one or nowhere |
| Handshake.HandshakeCanComplete | src/net.cpp:824-891 | three deliveries introduce both sides of a new connection, with nothing left on the way |
| Handshake.StepUnderway | src/net.cpp:797-891 | every step that leaves a signed connection open leaves its handshake on its way or done |
| Handshake.HandshakeCompletes | src/net.cpp:797-891 | over every run and order of steps: once all that was sent on a signed connection is received, the host has its client in the table by that connection and the client knows its host |
| Handshake.ReopenedSendStrays | src/net.cpp:766-773 | from every state in which a client takes its host for extended, a run in which it sends on a connection opened since, before any hello |
| Handshake.IntroducedIsReached | src/net.cpp:824-891 | the states that the three races set out from are reached |
| HandshakeLaws.TableIsLastHello | src/net.cpp:797-891 | after every run a peer is in the table with the version and the connection of a hello if and only if that is the last thing the run says of it |
| HandshakeLaws.KnownIsGreeted | src/net.cpp:824-891 | a client takes its host for extended if and only if it was greeted and has not reconnected or restarted since |
| HandshakeLaws.ChannelLaw | src/net.cpp:797-891 | every step takes from a connection what is received, and appends the hello of version 2 it is answered with or what is sent, and nothing else |
| HandshakeLaws.OpenLaw | src/net.cpp:593-615 | a connection opens with its ClientConnect, signed if the client has the extender and there is room |
| HandshakeLaws.OpenAfter | src/net.cpp:910-939 | which connections are open after a step |
| HandshakeLaws.LookupsAre | src/net.cpp:737-773 | a host looks up the peers in its table, and a client looks while it is connected and knows its host |
| HandshakeLaws.LookedUpIs | src/net.cpp:737-773 | what was looked up is sent once |
| FastAlloc.FindClass | src/fast_alloc.cpp:58-67 | the smallest class that holds the request and its header |
| FastAlloc.LargestClass | src/fast_alloc.cpp:32-34 | the largest class is 128 KB |
| FastAlloc.ClassHoldsIff | src/fast_alloc.cpp:58-69 | a block holds its request if and only if the size and the header do not wrap |
| FastAlloc.PopInv | src/fast_alloc.cpp:99-103 | reusing a free block keeps the heap, and the block was free |
| FastAlloc.PushInv | src/fast_alloc.cpp:136-140 | freeing on any thread keeps the heap |
| FastAlloc.RefillInv | src/fast_alloc.cpp:73-81 | a new chunk keeps the heap |
| FastAlloc.CarveInv | src/fast_alloc.cpp:82-85 | carving keeps the heap, and the block is new |
| FastAlloc.WriteInv | src/fast_alloc.cpp:112-125 | a write of an aligned word that is in no header keeps the heap |
| FastAlloc.PayloadsDisjoint | src/fast_alloc.cpp:88-117 | payloads in use are 16-byte aligned, as large as asked for and pairwise disjoint |
| FastAlloc.FreeBlockPlaced | src/fast_alloc.cpp:136-140 | a free block is on one thread's list of its own class, once |
| FastAlloc.FreeHasNoMagic | src/fast_alloc.cpp:125-136 | a free block's header is never taken for one in use, so a double free is passed on |
| FastAlloc.LinkedWord | src/fast_alloc.cpp:138-139 | the first word of a free block is the next block's address or zero |
| FastAlloc.Allocator.CarveFor | src/fast_alloc.cpp:71-86 | the front of the arena or of a new chunk, or null |
| FastAlloc.Allocator.Recycle | src/fast_alloc.cpp:99-103 | takes the first block of the list and unlinks it |
| FastAlloc.Allocator.Fresh | src/fast_alloc.cpp:104-110 | carves a new block, or fails and changes nothing |
| FastAlloc.Allocator.Serve | src/fast_alloc.cpp:112-115 | writes the header and counts |
| FastAlloc.Allocator.AllocHook | src/fast_alloc.cpp:88-117 | the whole new heap, the pointer and the counts of an allocation, and that the block was not in use |
| FastAlloc.Allocator.FreeHook | src/fast_alloc.cpp:119-141 | frees exactly what is in use, passes on everything else |
| FastAlloc.Allocator.StorePayload | src/fast_alloc.cpp:116 | writing an aligned word within a payload keeps the heap |
| FastAlloc.Allocator.StoreElsewhere | src/fast_alloc.cpp:119-127 | so does writing outside the headers |
| AllocRuns.StepGood | src/fast_alloc.cpp:88-141 | every allocation, free and write keeps the heap, and served minus recycled stays the number of carves |
| AllocRuns.PayloadKept | src/fast_alloc.cpp:88-141 | no allocation or free by anyone changes the payload of a block in use |
| AllocRuns.RunSafe | src/fast_alloc.cpp:58-141 | after every run of all threads: aligned, large enough, disjoint; in use or on a list; counts conserved |
| AllocRuns.FreeIffListed | src/fast_alloc.cpp:99-140 | a carved block is free if and only if it is on a list, and then on one of its class alone |
| FastAlloc.PassedOn | src/fast_alloc.cpp:88-96 | what is passed on: requests over 128 KB with their header |
| AllocLaws.ClassLaw | src/fast_alloc.cpp:58-69 | a block is the first of 16 bytes times a power of two that holds the request and 16 bytes |
| AllocLaws.HeaderLaw | src/fast_alloc.cpp:112-114 | the header of a block that is given, and no other word is written |
| AllocLaws.FreedIsNext | src/fast_alloc.cpp:136-140 | a thread that frees a block is given it at its next request of that class, and no other list changes |
| AllocLaws.ReusedFirst | src/fast_alloc.cpp:97-103 | a free block is given before a new one, the last freed first, and the arena stays |
| AllocLaws.CarvedLaw | src/fast_alloc.cpp:71-86 | a new block is the front of the arena, which a chunk of 4 MB replaces only if it is shorter than the block |
| AllocRuns.PayloadLasts | src/fast_alloc.cpp:88-141 | over every run, a word of a payload stays until its owner writes or frees it |
| References.PiecesOk | src/pak_fix.cpp:319-347 | the pieces of a name each spell their id and share no byte |
| References.InFullOf | src/pak_fix.cpp:448-454 | the lookup of whole names finds exactly the entries so named |
| References.InTailOf | src/pak_fix.cpp:324-333 | the lookup of path tails finds exactly the entries whose path ends so at a slash |
| References.InIconsOf | src/pak_fix.cpp:353-361 | the lookup of icons finds exactly the icon textures of that name |
| Scanning.TextTokensInOrder | src/pak_fix.cpp:521-549 | the strings of a text are in order, apart and within it |
| Scanning.TokenEventsOk | src/pak_fix.cpp:456-504 | whatever a string refers to is spelled by the string's own bytes |
| Scanning.AttributeDecidesOnlyIcons | src/pak_fix.cpp:496-503 | an attribute decides only whether a string is an icon's name |
| Scanning.EntryEventsOk | src/pak_fix.cpp:319-395 | what an entry's name gives is spelled by the name, and pins agree with their group's folded spelling |
| Scanning.CanonicalPinsOk | src/pak_fix.cpp:366-395 | so do the pins of icon directories |
| Scanning.LogOk | src/pak_fix.cpp:275-347 | everything found in an archive is spelled as its id once folded, and as long; whatever the ranges of strings |
| Scanning.LogApart | src/pak_fix.cpp:191-202 | where strings of an LSF file are one range or have no byte in common, so are any two occurrences |
| Scanning.NamesApart | src/pak_fix.cpp:319-347 | an occurrence in a name shares no byte with any other |
| Scanning.LogBacked | src/pak_fix.cpp:349-446 | every pin and join is of ids that occur in a name |
| Unification.SameSpell | src/pak_fix.cpp:448-454 | ids of one group have one folded spelling |
| Unification.ViewFolds | src/pak_fix.cpp:403-437 | so have all of a group's spellings and pins |
| Unification.TargetUnique | src/pak_fix.cpp:403-437 | a group has one target at most |
| Unification.OnlyCaseChanges | src/pak_fix.cpp:222-236 | a unified spelling differs in nothing but the case of ASCII letters |
| Unification.UnifiedIsOne | src/pak_fix.cpp:206-237 | an archive has one unified spelling at most |
| Unification.UnifiedIffAgree | src/pak_fix.cpp:206-237 | and it has one if and only if occurrences that share bytes are to be spelled alike there |
| Unification.AgreeIfUnified | src/pak_fix.cpp:222-236 | occurrences of a unified archive agree |
| Unification.ApartAgree | src/pak_fix.cpp:191-202 | they agree where strings of an LSF file are one range or have no byte in common |
| Unification.ReferencesFollow | src/pak_fix.cpp:206-237 | a reference and the name it resolves to are spelled alike, or both are as they were |
| Unification.SameIsTransitive | src/pak_fix.cpp:299-313 | being of one group is an equivalence, and keeps directories apart from files |
| Unification.LogIgnoresCase | src/pak_fix.cpp:319-504 | what is found does not depend on case, where strings that may name icons are the same |
| Unification.PlacesIgnoreCase | src/pak_fix.cpp:521-549 | nor do the places of a text's strings, and their attributes where the words before those are kept |
| Unification.SameAttribute | src/pak_fix.cpp:551-562 | nor does whether a string may name an icon, where the words before an attribute's name are kept |
| Unification.KindsStay | src/pak_fix.cpp:551-562 | unifying keeps them where no reference lies over one |
| Unification.UnifyingTwice | src/pak_fix.cpp:191-260 | running the fixer on its own output changes nothing, where the strings that may name icons are the same in both |
| Unification.UnifiedStays | src/pak_fix.cpp:191-260 | and it succeeds then: that output is its own unified spelling |
| Unification.ClearStays | src/pak_fix.cpp:551-562 | so it is where no reference of the first archive lies over the words before an attribute's name |
| Unification.LowerDecides | src/pak_fix.cpp:427-435 | a file's group of two spellings, one in lower case, is to be spelled as that |
| Components.PiecesIff | src/pak_fix.cpp:319-347 | the parts of a name, told by its slashes and last dot, and no others |
| Components.LookedForIff | src/pak_fix.cpp:102-108 | the seven names that are looked for by name |
| Components.TextureIff | src/pak_fix.cpp:354-356 | which names are textures of the GUI |
| Components.IconDirectoryIff | src/pak_fix.cpp:115-131 | which of them are named after icons |
| Components.CanonicalIff | src/pak_fix.cpp:366-378 | the nine spellings of directories are found by what they fold to |
| Components.DirectoryPinsIff | src/pak_fix.cpp:379-394 | which directories are pinned, and to what: those from the last "gui" on |
| Components.EntryIff | src/pak_fix.cpp:319-395 | what is logged of an entry is exactly what its name says |
| TextLaws.FoldLaw | src/pak_fix.cpp:53-59 | folding is of the 26 capitals, and of a backslash to a slash |
| TextLaws.QuotedString | src/pak_fix.cpp:534-548 | the next string of a text is between two quotes of a kind on one line, 256 bytes apart at most |
| TextLaws.OpenQuote | src/pak_fix.cpp:540-543 | a quote that is not closed so begins none |
| TextLaws.NoStrings | src/pak_fix.cpp:524-532 | nor is there one without quotes |
| TextLaws.TokensLaw | src/pak_fix.cpp:191-202 | the strings of a text are those, and an LSF file's are its document's |
| TextLaws.ContextLaw | src/pak_fix.cpp:551-562 | what a string is the value of: what is quoted behind the first `data "` of its line, or else the first `id="` |
| Resolution.LinkIff | src/pak_fix.cpp:440-446 | what a reference logs is exactly the parts of the name that lie within it, each at its place |
| Resolution.RequiresIff | src/pak_fix.cpp:506-518 | in a Lua file a tail is a reference only below the file's own Lua root |
| Resolution.StringIff | src/pak_fix.cpp:456-504 | what is logged of a string is exactly what it says, by the first of the four rules that fits |
| Resolution.LogIff | src/pak_fix.cpp:191-202 | the log holds exactly what the names of an archive and the strings of its files say |
| Resolution.ReferenceLogged | src/pak_fix.cpp:465-484 | a string that is the path of one entry, or the tail of it, has each part of that name within it in the log |
| Resolution.ReferenceFollows | src/pak_fix.cpp:206-243 | in a unified archive such a string and the name spell each of these parts alike: as its group is to be, or as they were if it has no target |
| Targets.TogetherIff | src/pak_fix.cpp:299-315 | one group is one part, or the stems of the textures of an icon that a file names |
| Targets.PinDecides | src/pak_fix.cpp:403-409 | a group whose pins agree is spelled as they say |
| Targets.PinsDisagree | src/pak_fix.cpp:293-297 | one whose pins do not agree is left alone |
| Targets.NamesAgree | src/pak_fix.cpp:414-425 | a directory without pins is spelled as all names spell it |
| Targets.NamesDisagree | src/pak_fix.cpp:414-425 | it is left alone if two names differ |
| Targets.SharedBytesStay | src/pak_fix.cpp:426-437 | anything else without pins keeps the bytes that all its spellings share |
| Targets.OtherBytesAreLower | src/pak_fix.cpp:426-437 | and has the others in lower case |
| Overlap.SharedBytesDisagree | src/lsf.cpp:189-212 | an archive two of whose strings share bytes that are to be spelled in two ways, so that nothing is its unified spelling |
| SecondRun.LogIs | src/pak_fix.cpp:521-562 | what is found in the sample, however its letters are spelled: its last string names an icon exactly if two letters before it are lower case |
| SecondRun.FirstRun | src/pak_fix.cpp:427-435 | the first run puts those letters in lower case and leaves the string |
| SecondRun.SecondRunDiffers | src/pak_fix.cpp:191-260 | so no unified spelling of the sample is its own: another run has a different outcome, in which the string is respelled |
| SecondRun.SampleUnifies | src/pak_fix.cpp:191-260 | and the sample has a unified spelling |
| Grouping.HalvingOk | src/pak_fix.cpp:285-291 | path halving keeps every root and the forest acyclic |
| Grouping.JoiningOk | src/pak_fix.cpp:299-305 | linking two roots keeps the forest and moves one tree |
| Grouping.AddOk | src/pak_fix.cpp:315-317 | an occurrence added keeps the groups those of the log |
| Grouping.PinOk | src/pak_fix.cpp:293-297 | so does a pin, in conflict or not |
| Grouping.UnionOk | src/pak_fix.cpp:299-313 | so does uniting two groups |
| Grouping.JoinStep | src/pak_fix.cpp:496-502 | uniting one more of an icon's stems |
| Grouping.JoinedAll | src/pak_fix.cpp:496-502 | with all of them united the groups are the log's classes again |
| Choosing.AllSame | src/pak_fix.cpp:409-412 | whether all spellings are one |
| Choosing.ArchiveSpelling | src/pak_fix.cpp:414-424 | the archive's one spelling of a directory, if it has one |
| Choosing.Blend | src/pak_fix.cpp:427-435 | the common bytes, lower case where spellings differ |
| Choosing.Choose | src/pak_fix.cpp:403-437 | exactly the group's target, or none exactly if it has none |
| Choosing.RewriteOne | src/pak_fix.cpp:222-236 | spelling one occurrence brings its bytes to what they are to be and leaves all others |
| Choosing.MarkedStill | src/pak_fix.cpp:226-235 | spelling an occurrence otherwise marks its file, so that a file is marked if its bytes changed, and only then where occurrences agree |
| Choosing.GroupTells | src/pak_fix.cpp:403-437 | a group's occurrences and pin decide its target as the whole log does |
| Choosing.GoalOfGroup | src/pak_fix.cpp:210-222 | so every occurrence's goal is its group's target |
| Choosing.TargetStays | src/pak_fix.cpp:210-222 | a group that others were written over has the target it had, or is spelled as that already |
| Choosing.ChosenOk | src/pak_fix.cpp:210-222 | so what is chosen in the course of it is the goal in the archive as it was |
| Fixer.Fixer.constructor | src/pak_fix.cpp:183-189 | the groups and tables of all entries |
| Fixer.Fixer.GroupFor | src/pak_fix.cpp:275-283 | an id's group, made once |
| Fixer.Fixer.Find | src/pak_fix.cpp:285-291 | the root of a group; halving on the way changes none |
| Fixer.Fixer.PinTo | src/pak_fix.cpp:293-297 | pins the root, or marks it in conflict |
| Fixer.Fixer.Unite | src/pak_fix.cpp:299-313 | unites two groups and what they hold |
| Fixer.Fixer.Add | src/pak_fix.cpp:315-317 | adds an occurrence at the root |
| Fixer.Fixer.AddEntry | src/pak_fix.cpp:319-362 | logs exactly what an entry's name gives |
| Fixer.Fixer.AddDirectories | src/pak_fix.cpp:324-333 | the directories and the path tails of a name |
| Fixer.Fixer.PinName | src/pak_fix.cpp:349-353 | pins the names that are found by name |
| Fixer.Fixer.PinTexture | src/pak_fix.cpp:354-361 | pins the extension of GUI textures and lists icons |
| Fixer.Fixer.PinIconDirectories | src/pak_fix.cpp:366-395 | pins icon directories from the last "gui" on |
| Fixer.Fixer.JoinIcons | src/pak_fix.cpp:496-502 | unites the stems of one icon's textures |
| Fixer.Fixer.Link | src/pak_fix.cpp:440-446 | adds the pieces of a name that a string has |
| Fixer.Fixer.ReadString | src/pak_fix.cpp:456-504 | logs exactly the events of one string; which those are says `Resolution.StringIff` |
| Fixer.Fixer.ScanText | src/pak_fix.cpp:521-549 | the strings of a text |
| Fixer.Fixer.Scan | src/pak_fix.cpp:191-202 | the strings of every file: the log is the archive's |
| Fixer.Fixer.SpellingsOf | src/pak_fix.cpp:397-401 | what occurrences are spelled as |
| Fixer.Fixer.Rewrite | src/pak_fix.cpp:222-236 | spells a group as its target, in place |
| Fixer.Fixer.UnifyGroup | src/pak_fix.cpp:210-237 | brings one group to its goal and leaves the rest |
| Fixer.Fixer.Unify | src/pak_fix.cpp:206-260 | changes only case; gives the unified spelling exactly if there is one; succeeds exactly if names come out distinct, else gives no names and marks no file |
| Fixer.Fix | src/pak_fix.cpp:183-260 | the fixer from names and files: only case changes, and the unified spelling exactly if the archive has one |
| Fixer.EmptyPinAlone | src/pak_fix.cpp:293-297 | the empty pin, which means none, is never one of two |
| Fixer.GuiFolds | src/pak_fix.cpp:110-113 | the test for GUI metadata is the same on folded names |
| Fixer.BackslashMixesLengths | src/pak_fix.cpp:319-333 | two names of one directory with different lengths, by way of a backslash |
| Lsf.ReadIsDocument | src/lsf.cpp:146-216 | what is read is a document: sections within bounds, strings those of its attributes |
| Lsf.WrittenReads | src/lsf.cpp:218-246 | what is written reads back: sections, keys and every string |
| Lsf.WritingIsFixpoint | src/lsf.cpp:218-246 | writing what was read back gives the same bytes |
| Lsf.EditsSurvive | src/lsf.cpp:218-246 | a document read, edited in place and written reads back as that edit and nothing else |
| Lsf.StringsWithin | src/lsf.cpp:189-212 | strings are not empty and lie within the values |
| Lsf.SectionSize | src/lsf.cpp:81-113 | a section that is read has the size the header gives |
| LsfFile.Reader.Take | src/lsf.cpp:81-113 | the next section, stored or decoded, and the position moved past it |
| LsfFile.Decode | src/lsf.cpp:95-112 | a section's bytes by each method, zlib by the DEFLATE reader |
| LsfFile.TakeChain | src/lsf.cpp:131-139 | one chain of names |
| LsfFile.TakeNames | src/lsf.cpp:122-142 | all chains of names, or failure where one runs out |
| LsfFile.TakeStrings | src/lsf.cpp:189-212 | the strings of the attributes; which those are says `LsfLaws.StringsLaw` |
| LsfFile.LsfRead | src/lsf.cpp:146-216 | a document, or none where the bytes are not one |
| LsfFile.PutAll | src/lsf.cpp:218-235 | the sizes patched into the header |
| LsfFile.LsfWrite | src/lsf.cpp:218-246 | the document as uncompressed bytes |
| LsfLaws.StringsLaw | src/lsf.cpp:189-212 | the strings of the attributes are those of the records of types 20, 21, 22, 23, 29 and 30 that are longer than one byte and within the values, each once and in order, each with its place and name |
| LsfLaws.StringsIff | src/lsf.cpp:189-212 | a token is one of them if and only if such a record gives it |
| LsfLaws.NamesLaw | src/lsf.cpp:122-142 | a section is read as names if and only if it begins with them: chains counted in four bytes, names and lengths in two |
| LsfLaws.SectionLaw | src/lsf.cpp:81-113 | a section is the bytes at its place as they are, inflated by method 1, or decoded by methods 2 and 3; of 256 MB at most |
| LsfLaws.ReadLaw | src/lsf.cpp:146-216 | a file is read as a document if and only if its header, sections and attribute records are laid out as that document's |
| LsfLaws.WrittenLaw | src/lsf.cpp:218-246 | a written document is its header with the sizes and flags rewritten in place, and its sections |
| Pak.EntryReads | src/pak.cpp:326-348 | an entry whose fields fit reads back from its 272 or 296 bytes |
| Pak.ListReads | src/pak.cpp:323-349 | so does a list of them |
| Pak.HeaderReads | src/pak.cpp:362-373 | the header points at the new list and is otherwise as it was |
| Pak.ListingReads | src/pak.cpp:323-375 | a list written at an archive's end is the one that is read |
| PakFile.PakListing | src/pak.cpp:213-305 | the entries of an archive, or none where it is not one |
| PakFile.PakWriteListing | src/pak.cpp:323-375 | the archive with its list at the end and its header pointed there |
| PakFile.PakFixBuild | src/pak_fix.cpp:665-717 | the copy: header or whole archive, replacements, list |
| PakLaws.ListingIff | src/pak.cpp:213-305 | an archive is read as a listing if and only if its header, counts and unpacked list are laid out as that listing's |
| PakLaws.EntryLaw | src/pak.cpp:112-150 | an entry's contents: the bytes at its place, as they are by method 0 and decoded by methods 1 to 3, of 256 MB at most |
| PakLaws.EntryWritten | src/pak.cpp:326-348 | an entry is written as the record that reads so, zeros behind its name |
| PakLaws.ListWritten | src/pak.cpp:351-374 | a list goes behind the archive, and bytes 8 to 20 of the header are told where and how large it is; no other byte changes |
| PakFix.LayoutLies | src/pak_fix.cpp:690-706 | a replacement lies on a 64-byte boundary after the base, and its bytes are there |
| PakFix.LayoutInOrder | src/pak_fix.cpp:690-706 | replacements lie one after the other |
| PakFix.LayoutKeeps | src/pak_fix.cpp:692-701 | entries that are not replaced are kept, and names are |
| PakFix.CopyListing | src/pak_fix.cpp:702-712 | the copy's list as it is read back, for both forms |
| PakFix.ReplacedReads | src/pak_fix.cpp:690-706 | what is replaced reads as its replacement, aligned and clear of header and list |
| PakFix.OthersRead | src/pak_fix.cpp:665-689 | what is not replaced reads as it did if its bytes among those that tell where the list is are as they were, and if it is not compressed only then |
| PakFix.ClearIsKept | src/pak.cpp:362-373 | that is so of an entry that has none of bytes 8 to 20 |
| PakFix.ListMoves | src/pak.cpp:362-373 | a copy of the whole archive has its list elsewhere, so bytes 8 to 16 are others |
| PakFix.OverListOffset | src/pak_fix.cpp:665-689 | an uncompressed entry that has all of them never reads as it did |
| PakFix.SampleSpoilt | src/pak_fix.cpp:665-689 | an archive with such an entry, renamed |
| PakFix.ReplacedInOrder | src/pak_fix.cpp:690-706 | replacements do not meet in the copy |
| PakLaws.PlacedLaw | src/pak_fix.cpp:690-701 | a replacement goes on the next boundary of 64 bytes, zeros before it, and its entry tells of that; all others stay |
| PakLaws.CopyLaw | src/pak_fix.cpp:665-689 | of version 18 a copy is the header, told to be of two parts, beside the archive; of 15 and 16 it is the whole archive |
| Corrected.LoadOne | src/pak_fix.cpp:616-637 | an entry's content, loaded exactly if it is of a kind that is scanned, not empty, small enough and can be decoded |
| Corrected.Load | src/pak_fix.cpp:615-638 | the contents of all entries, in order |
| Corrected.Replacing | src/pak_fix.cpp:650-661 | what goes in place of what: changed contents written out, a newline for every empty entry |
| Corrected.ReplacedDistinct | src/pak_fix.cpp:650-661 | no entry is replaced twice |
| Corrected.ContentCorrected | src/pak_fix.cpp:603-717 | every content is in the copy as the fixer left it, read through the copy's own list and decoded |
| Corrected.OtherKept | src/pak_fix.cpp:247-249 | a content that is not marked is in the copy as it was in the original |
| Corrected.TextKeptIff | src/pak_fix.cpp:665-689 | an uncompressed text that is not marked is in a copy of the whole archive as it was exactly if the copy has its bytes among those that tell where the list is |
| Corrected.EntryKept | src/pak_fix.cpp:650-689 | every other entry, of whatever kind, is in the copy under its new name and reads as it did, if the copy has it as it was; if it is uncompressed in a whole copy, only then |
| Corrected.EmptyCorrected | src/pak_fix.cpp:657-661 | every entry that was empty holds a newline |
| Corrected.Correct | src/pak_fix.cpp:603-717 | the corrected copy of an archive: none if it cannot be read, is in parts or needs no change, else the copy of the archive as fixed |
| Corrected.CorrectedIsUnified | src/pak_fix.cpp:603-717 | where names come out distinct the copy lists and holds exactly the archive as fixed: only case changes, and it is the unified archive exactly if there is one |
| Corrected.LoadedIsSound | src/pak_fix.cpp:615-638 | what is loaded is sound: every file is an entry's, and its strings lie within it |
| Corrected.NamesStillFit | src/pak_fix.cpp:603-717 | names that were read still fit their fields when fixed, without a zero byte |
| Corrected.FixedFits | src/pak_fix.cpp:650-661 | so does all that building needs of sizes, where names and new contents were not too long |
| CorrectedLaws.LookedIntoIff | src/pak_fix.cpp:616-625 | which entries are looked into: of four binary and twelve text types, not empty, and of 32 MB at most |
| CorrectedLaws.LoadedIff | src/pak_fix.cpp:627-637 | what they are loaded as: a text, or the values and strings of the document that they are |
| CorrectedLaws.LoadedAllIff | src/pak_fix.cpp:615-638 | every entry that can be loaded is, and no other |
| CorrectedLaws.CorrectableIff | src/pak_fix.cpp:606-611 | which archives may be corrected: of one part, without the flag of weight 4 |
| Vdf.UnescapeEscape | install.py:48-53 | what is escaped is unescaped to itself |
| Vdf.Tokenize | install.py:56-69 | the tokens of a text with their places, or failure at anything else |
| Vdf.ParseTokens | install.py:71-96 | the stack of open blocks gives the tree of the tokens, and fails on exactly those that are none |
| Vdf.ParseVdf | install.py:56-96 | the tree of a text |
| VdfText.TokenPlaces | install.py:61-69 | a token is at its place: what is before and after it is read on its own |
| VdfText.Replaced | install.py:125-127 | a string put in place of another reads as itself, and all other tokens as they did |
| VdfText.Inserted | install.py:99-102 | lines put in before a brace that is alone on its line read as their tokens, before the brace's |
| VdfTree.ReplacedChildren | install.py:82-87 | a value replaced among the tokens is that value changed in the tree |
| VdfTree.AppendedChildren | install.py:74-90 | entries put in before a block's brace are its last |
| VdfTree.InsertedChildren | install.py:74-90 | so anywhere in the tree |
| VdfEdit.FindChild | install.py:38-42 | the first node of a key, whatever its case |
| VdfEdit.PathChanged | install.py:108-117 | changing the node a path leads to changes the tree there and nowhere else |
| VdfEdit.EditedTree | install.py:105-141 | the edited text is accepted, and is the same tree but for the options, where the brace is alone on its line |
| VdfOptions.Spotted | install.py:107-124 | where the options go, found one key at a time |
| VdfOptions.SetLaunchOptions | install.py:105-141 | the new text and the options before and after; none exactly where an error is raised |
| VdfOptions.SpotOptions | install.py:119-121 | the old options are those the tree sets |
| VdfOptions.SetOptions | install.py:119-141 | setting them in the tree sets them, unless the game's entry is a plain value |
| VdfOptions.OptionsReadBack | install.py:105-141 | options that are set and read again are those set, if and only if the game's entry is not a plain value or they are empty |
| VdfSample.PlainEntryHides | install.py:117-141 | texts in which the game's entry is a plain value, any value: what is set is never read back, unless it is nothing |
| VdfShared.LinesTokens | install.py:99-102 | lines put in with what is before the brace as indentation read as their tokens with the old line's before each |
| VdfShared.ChildrenSize | install.py:71-96 | a tree has as many tokens as it was read from |
| VdfShared.SharedLine | install.py:99-141 | so before a brace that shares its line they make another tree |
| VdfShared.OnlyOptionsIff | install.py:105-141 | where the brace's line does not begin within a quoted string, the edited text is the same tree but for the options if and only if the brace is alone on it |
| VdfLaws.UnescapeLaw | install.py:48-49 | what a backslash makes of each character behind it |
| VdfLaws.SpaceLaw | install.py:45 | the characters that are white space |
| VdfLaws.StringLaw | install.py:45 | a string ends at the first quote that is not behind a backslash, and is none if there is no such quote |
| VdfLaws.PassedOver | install.py:45 | white space and comments are passed over |
| VdfLaws.BraceLaw | install.py:59-69 | braces are tokens of one character, and anything else is an error |
| VdfLaws.RootIff | install.py:71-96 | tokens are a tree if and only if they are the tree's own, keys, values and braces |
| VdfLaws.OptionsLaw | install.py:108-121 | the options are those of app 1086940 among Steam's apps, found key by key |
| VdfLaws.LineLaw | install.py:128-129 | the line that is put in, tab by tab |
| VdfLaws.BlockLaw | install.py:136-139 | the block that is put in, line by line |
| VdfLaws.PlaceLaw | install.py:124-141 | what is put in goes before the brace's line, and a value that is replaced goes with its quotes |
| JobQueue.FindJob | src/debug_server.cpp:318-323 | the first job that this pump may take: before the client pumps, the first of all for the server's pump, and else the first of the pump's own context |
| JobQueue.StepInv | src/debug_server.cpp:219-246 | every step of clients and pumps keeps the invariant |
| JobQueue.RunInv | src/debug_server.cpp:313-341 | so it holds throughout every run |
| JobQueue.PendingIsLength | src/debug_server.cpp:226-244 | the count is the queue's length whenever no thread is between its two updates |
| JobQueue.EachJobOnce | src/debug_server.cpp:325-339 | a job is removed, counted down and evaluated at most once, and not evaluated once withdrawn |
| JobQueue.ClientPumpsClientJobs | src/debug_server.cpp:319-320 | the client's pump runs no job of the server's |
| JobQueue.AnswersAreResults | src/debug_server.cpp:229-232 | a client is answered with what its own job's one evaluation gave |
| JobQueue.WithdrawnForGood | src/debug_server.cpp:241-245 | a withdrawn job stays withdrawn and unevaluated for the rest of the run |
| JobQueue.FirstLaw | src/debug_server.cpp:318-323 | which job each pump takes, before and after the client pumps |
| JobQueue.HeadIsTaken | src/debug_server.cpp:318-323 | in every state of a run the first job is taken by the server's pump, or, if it is the client's and the client pumps, by the client's |
| JobQueue.OrderKept | src/debug_server.cpp:222-225 | jobs wait in the order they came |
| JobQueue.CanPush | src/debug_server.cpp:219-226 | a client that is idle can queue a job |
| JobQueue.WaitEnds | src/debug_server.cpp:228-235 | a client wakes to its job's result if and only if that is done, and may give up if and only if it is not |
| JobQueue.GivesUp | src/debug_server.cpp:235-245 | a client that gives up takes its job out of the queue, or has no answer if a pump has it |
| JobQueue.TakenGoesOn | src/debug_server.cpp:328-340 | a job that was taken is counted down, evaluated, and done with what that gave |
| JobQueue.NoClientStuck | src/debug_server.cpp:219-246 | in every state of a run every client that is not idle can go on |
| JobQueue.NoPumpStuck | src/debug_server.cpp:313-341 | and so can every pump |
| OsiTree.CheckKey | src/osi.cpp:443-463 | a key is a name, a slash and digits |
| OsiTree.VisitTree | src/osi.cpp:465-518 | the walk ends, visits exactly what is reached through readable keys, and records every function it visits |
| OsiTree.Done | src/osi.cpp:465-518 | with nothing pending, what was seen is what is reached |
| OsiTree.ClosedHolds | src/osi.cpp:465-518 | a closed set holds every path from it |
| OsiTree.RootReaches | src/osi.cpp:430-442 | a tree's root reaches all of it and is reached from all of it |
| OsiTree.WholeTreeReached | src/osi.cpp:430-442 | from any node the walk reaches the whole tree, not only what is below |
| OsiTree.FindFunctions | src/osi.cpp:430-518 | so a walk from any node records every function of the tree whose signature reads |
| OsiTree.KeyLaw | src/osi.cpp:443-463 | a name and digits with a slash between them are a key if and only if they are letters, digits and underscores, and digits, and neither is empty |
| OsiTree.PageLaw | src/osi.cpp:475 | nothing in the first page is reached |
| OsiTree.LeadsLaw | src/osi.cpp:480-516 | a node leads to its left, its parent and its right if its key can be read |
| Savegame.RawReadsIff | src/savegame.cpp:82-109 | a string reads as it was made, inline or not, if and only if its size fits four bytes |
| Savegame.GroupsWith | src/savegame.cpp:379-388 | one more variable joins its owner's group, or starts one |
| Savegame.GroupByOwner | src/savegame.cpp:378-388 | variables by owner, owners in the order they first appear |
| Savegame.WriteOwned | src/savegame.cpp:378-397 | the owner nodes, without owners that are no guid |
| Savegame.ReadOwned | src/savegame.cpp:334-349 | the variables of the owner nodes |
| Savegame.LastsIff | src/savegame.cpp:299-331 | a variable comes back with its owner, name, kind and value if and only if its kind is written and nothing of it is cut |
| Savegame.OtherKinds | src/savegame.cpp:324-330 | what comes back of the kinds without a value |
| Savegame.GroupsReadBack | src/savegame.cpp:334-399 | whatever is written, exactly what is read back of it, owner by owner |
| Savegame.SavegameReads | src/savegame.cpp:334-399 | variables that last, of canonical owners, come back with every value, grouped by owner, in order |
| Savegame.RawLaw | src/savegame.cpp:82-97 | the bytes of a string, inline up to fifteen, and else where it is, its size and its capacity |
| Savegame.InlineLaw | src/savegame.cpp:100-104 | an inline string is as long as the low four bits of its last byte tell |
| Savegame.NodeLaw | src/savegame.cpp:299-331 | what a node gives by its type, and what a missing value is |

## Left out

- Unify: on failure the bytes of files in memory stay respelled, as in the source; the model says so and only that no file is marked. Where references that share bytes are to be spelled in two ways, it says of the outcome only that case alone changed and that the archive is not unified.
- ReplacedReads: that building succeeds is assumed (`Builds`), and that the copy is not too long for its fields; that names fit is proved (`FixedFits`).
- LogOk: names have no backslash, as engine and tools write them; `BackslashMixesLengths` shows what the source does not look for.
- HelloOnlyToExtended: receiving a message, with the hello that answers it, is one step; the source lets go of its lock before it sends, and what closes or opens in between is not modelled.
- SavegameReads: the general statement is `GroupsReadBack`; this one is for variables that last and owners written as the engine writes them.
- OnlyOptionsIff: says nothing of a brace whose line begins within a quoted string.
- AllocHook: sizes within 16 of 2^64 are excluded, for which `ClassHoldsIff` says the block is too small.
- FreeHook: pointers are multiples of eight, and memory that is not ours does not carry the magic 16 bytes before one that is freed.
- WriteInv: memory is words of eight bytes at multiples of eight, and a program writes whole ones.
- The NetForceRemote switch, active-peer checks and excluded peers of a broadcast, which only drop sends; posting and delivery to Lua.
- The static caching of the fixed Huffman tables, null buffers, and Adler-32 and preset dictionaries, which the source does not look at either.
- LZ4, zstd, the LZ4 frame format and CRC-32 as such; LZ4 is assumed to invert itself on the list that is written.
- Files, symlinks, FICLONE, mmap, sockets, clocks, logging, temporary names and renaming; the texts of the fixer's messages and their count.
- Cached listings, archives that the game ships in parts, load priorities and `pak_write`, which would add only the same list again.
- The counters' wrap-around in the allocator; the hooks' installation.
- Aliases, parameter lists, handles and queries of the story (`src/osi.cpp` past the tree walk), whose truth lies in the game's memory.
- Timers, persistent variables and the visitor's dispatch in savegames; owner nodes are kept as a sequence.
- The debug server's sockets and packets; its evaluation is a parameter.
- Quoting the wrapper in launch options, Steam's process, argument parsing and the rest of the installer.
- Lua bindings, engine probing, code patching and user interface.
