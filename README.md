# DNS wire codec and TLRU cache of dns-server, in Dafny

This project models two parts of the `dns-server` repository and proves
properties about them.

- **The dnslib wire codec.** It covers:
  - the big-endian integer writers and `writeDomain` (dotted name to
    length-prefixed labels);
  - the `ByteReader` with its compressed-name decoder `readDomain`, which
    follows pointers and stops loops after six jumps;
  - the 12-byte header with its flag setters and getters;
  - questions;
  - the resource records A, NS, CNAME, PTR, MX and unknown types;
  - the whole packet, with `serialize` and `toString`;
  - the fluent `PacketBuilder` with its `PacketFlag` operators;
  - `RecordFactory` and `PacketParser`.
- **The server's `TLRUCache`.** This is a least-recently-used list with an
  index from key to entry, a capacity, and expiry times.

Each source file becomes one module:

| module | models |
|---|---|
| `Wire` | byte widths, errors, network byte order, the caller's `std::vector<uint8_t>` as class `ByteVector` |
| `Text` | `std::to_string` and the hex stream formatting |
| `Reader` | `ByteReader`, as a class over an immutable buffer with a mutable index |
| `Writer` | `writeU8/16/32` and `writeDomain` |
| `DnsTypes` | the TYPE and CLASS codes and `to_string(TYPE)` |
| `Header` | `DNSHeader`, with integer bit operations from `Bits` |
| `Question` | `DNSQuestion` |
| `Records` | the resource record classes |
| `Packet` | `DNSPacket` |
| `Builder` | `PacketBuilder` |
| `Parser` | `RecordFactory` and `PacketParser` |
| `Cache` | `TLRUCache` |

**How the code is modelled.**

- **State the code changes in place is a class.** This covers the output
  vector, the reader's index, the header, the packet, the builder and the
  cache. Each of their methods is proved against a pure specification
  function:
  - `Output(bytes, ok)` for a serializer, where `ok == false` is a
    `std::runtime_error` thrown after a partial append;
  - `Read(result, pos)` for a reader, where the position is kept even when
    the read throws;
  - `Lookup` and `Insert` for the cache.
- **Exceptions are `Err` values.** Every exception the source throws becomes
  an `Err` result with the position or partial output at which it was
  thrown.
- **The clock is a parameter.** The cache's `steady_clock::now()` is an
  integer argument `now`, in seconds.
- **External calls are parameters.** The name validator
  `utils::validateDomainName` and `inet_ntoa` are function parameters
  (`valid`, `ntoa`).

**Where the code is followed rather than the tests.**

- **`ARecord::serialize` omits the owner name** (`ARecord.cpp:14` comments
  it out).
  - `lib/dnslib/tests/RecordTests.cpp:17-37` and
    `lib/dnslib/tests/SectionsTest.cpp` expect the name.
  - The model follows the code. `Parser.AWrittenNotReadBack` proves what
    that does to a parse.
- **`ByteReader::setPosition` has no bounds check.**
  - `lib/dnslib/tests/ValidationTests.cpp:8-14` expects it to throw.
  - The model follows the header, where `setPosition` only assigns.
- **`RecordFactory::create` builds only A records.** Every other type becomes
  a null record and is skipped.

## Model

| member | source | states |
|---|---|---|
| Wire.Then | lib/dnslib/src/records/NSRecord.cpp:9-17 | writing two parts in turn: when the first succeeds the output is both parts' bytes and succeeds when the second does; when the first throws nothing more is written |
| Wire.BigEndian16 | lib/dnslib/src/utils/utils.cpp:10-13 | two bytes, high byte first, whose base-256 value is the 16-bit value |
| Wire.BigEndian32 | lib/dnslib/src/utils/utils.cpp:15-20 | four bytes, most significant first, whose base-256 value is the 32-bit value |
| Wire.Bytes | lib/dnslib/src/utils/utils.cpp:39-41 | pushing a string's chars gives one byte per char, in order |
| Wire.Chars | src/dnslib/utils/read.cpp:83-85 | appending buffer bytes to a string gives one char per byte, in order |
| Wire.CharsOfBytes | src/dnslib/utils/read.cpp:83-85 | a string of 8-bit chars written as bytes reads back as the same string |
| Wire.ByteVector.constructor | lib/dnslib/src/message/DNSPacket.cpp:6 | a caller's output vector starts empty |
| Wire.ByteVector.PushBack | lib/dnslib/src/utils/utils.cpp:7 | push_back appends exactly one byte |
| Wire.ByteVector.Insert | lib/dnslib/src/records/NSRecord.cpp:16 | insert at end appends exactly the given bytes |
| Reader.U8At | src/dnslib/utils/read.cpp:14-17 | readU8 succeeds iff one byte remains, returns buf[index] and advances one; otherwise throws Truncated with the index unchanged |
| Reader.U16At | src/dnslib/utils/read.cpp:19-26 | readU16 succeeds iff two bytes remain and advances two; otherwise throws Truncated with the index unchanged |
| Reader.U32At | src/dnslib/utils/read.cpp:28-36 | readU32 succeeds iff four bytes remain and advances four; otherwise throws Truncated with the index unchanged |
| Reader.U16AtBytes | src/dnslib/utils/read.cpp:21-23 | the value read is the one whose big-endian bytes are the two bytes at the index |
| Reader.U32AtBytes | src/dnslib/utils/read.cpp:30-33 | the value read is the one whose big-endian bytes are the four bytes at the index |
| Reader.ReadName | src/dnslib/utils/read.cpp:46-90 | the readDomain loop run to its end from a loop state, one Step per pass; no contract of its own: JumpReturnIsFinal and ReadNameAdvances state where it leaves the reader |
| Reader.ReadNameAdvances | src/dnslib/utils/read.cpp:53-74 | before any jump, a name read without error leaves the reader beyond the index it started from |
| Reader.NameAt | src/dnslib/utils/read.cpp:38-93 | readDomain from a position: a name read without error leaves the reader past at least one byte (what it reads is stated by Writer.NameRoundTrip, Writer.PointerAfterLabels and StepThrows) |
| Reader.Step | src/dnslib/utils/read.cpp:46-86 | every pass of the readDomain loop that continues either follows a pointer, using one of the jumps, or consumes a label, moving forward and never past the buffer: the loop terminates |
| Reader.PointerTag | src/dnslib/utils/read.cpp:58 | only a length byte of 0xC0 or more is a pointer; 0x40 to 0xBF are ordinary label lengths |
| Reader.IsPointer | src/dnslib/utils/read.cpp:58 | the pointer test on a length byte; no contract of its own: PointerMask states that it is the source's `(len & 0xC0) == 0xC0` and PointerTag that it means len >= 0xC0 |
| Reader.PointerMask | src/dnslib/utils/read.cpp:58 | `len & 0xC0` keeps the two top bits of the length byte and clears the rest, so a byte is a pointer exactly when `len & 0xC0` equals 0xC0 |
| Reader.AddLabel | src/dnslib/utils/read.cpp:79-85 | appending a label puts a dot first unless the name so far is empty; no contract of its own: Writer.NameRoundTrip and Writer.PointerAfterLabels state the names it builds |
| Reader.StepThrows | src/dnslib/utils/read.cpp:46-77 | a pass of the loop throws exactly when it reads at or past the end (EOF), meets a pointer beyond the jump limit (too many jumps), a pointer cut by the end, or a label running past the end (Truncated), each with its reader index |
| Reader.NameEof | src/dnslib/utils/read.cpp:47-49 | reading a name at or past the end of the buffer throws EOF with the index unchanged |
| Reader.LabelPastEnd | src/dnslib/utils/read.cpp:76-77 | a label longer than the bytes left throws Truncated with the reader just past its length byte |
| Reader.PointerCut | src/dnslib/utils/read.cpp:63 | a pointer in the last byte of the buffer throws Truncated |
| Reader.JumpPastEnd | src/dnslib/utils/read.cpp:65-73 | a pointer to an offset at or past the end is followed, and the next pass throws EOF with the index at that offset |
| Reader.JumpReturnIsFinal | src/dnslib/utils/read.cpp:67-69 | once a pointer is followed, a successful read ends at the remembered return position, whatever later pointers do |
| Reader.FirstPointerReturn | src/dnslib/utils/read.cpp:67-69 | a name that meets its first pointer at p ends with the reader at p + 2 |
| Reader.SelfPointerRejected | src/dnslib/utils/read.cpp:59-61 | a pointer to itself is followed six times and the seventh jump throws "too many jumps" |
| Reader.EmptyName | src/dnslib/utils/read.cpp:53-56 | a zero byte is the empty name and the reader moves one byte past it |
| Reader.ByteReader.constructor | include/dnslib/utils/read.hpp:25 | a new reader holds the buffer and starts at index 0 |
| Reader.ByteReader.Position | include/dnslib/utils/read.hpp:68 | position() is the current index |
| Reader.ByteReader.SetPosition | include/dnslib/utils/read.hpp:75 | setPosition sets the index to any value, the buffer unchanged |
| Reader.ByteReader.GetBuffer | include/dnslib/utils/read.hpp:82 | getBuffer() is the buffer the reader was built on |
| Reader.ByteReader.CheckBounds | src/dnslib/utils/read.cpp:8-12 | chceckBounds(n) passes exactly when the index is inside the buffer and at least n bytes remain from it |
| Reader.ByteReader.ReadU8 | src/dnslib/utils/read.cpp:14-17 | result and new index are those of U8At at the old index |
| Reader.ByteReader.ReadU16 | src/dnslib/utils/read.cpp:19-26 | result and new index are those of U16At at the old index |
| Reader.ByteReader.ReadU32 | src/dnslib/utils/read.cpp:28-36 | result and new index are those of U32At at the old index |
| Reader.ByteReader.CopyLabel | src/dnslib/utils/read.cpp:83-85 | the inner loop appends the next len bytes as chars and advances by len |
| Reader.ByteReader.ReadDomain | src/dnslib/utils/read.cpp:38-93 | result and final index (including the index at which it throws) are those of the loop specification NameAt |
| Writer.WriteU8 | lib/dnslib/src/utils/utils.cpp:6-8 | appends the byte |
| Writer.WriteU16 | lib/dnslib/src/utils/utils.cpp:10-13 | appends the value's two big-endian bytes |
| Writer.WriteU32 | lib/dnslib/src/utils/utils.cpp:15-20 | appends the value's four big-endian bytes |
| Writer.U16RoundTrip | src/dnslib/utils/read.cpp:19-26 | a 16-bit value written anywhere in a buffer is read back by readU16, which ends right after it |
| Writer.U32RoundTrip | src/dnslib/utils/read.cpp:28-36 | a 32-bit value written anywhere in a buffer is read back by readU32, which ends right after it |
| Writer.StripDot | lib/dnslib/src/utils/utils.cpp:23-25 | one trailing dot is dropped; a name without one is unchanged |
| Writer.FindDot | lib/dnslib/src/utils/utils.cpp:30 | name.find('.', start): the first dot at or after start, or the end when there is none |
| Writer.SplitFrom | lib/dnslib/src/utils/utils.cpp:30-44 | the dot-separated parts from start on: at least one, none holding a dot |
| Writer.JoinSplit | lib/dnslib/src/utils/utils.cpp:30-44 | joining the parts with dots gives back the text |
| Writer.SplitJoin | lib/dnslib/src/utils/utils.cpp:30-44 | splitting dot-free parts joined with dots gives back the parts |
| Writer.LabelsBytes | lib/dnslib/src/utils/utils.cpp:33-41 | writing labels succeeds iff every label is at most 63 bytes |
| Writer.DomainBytes | lib/dnslib/src/utils/utils.cpp:22-57 | what writeDomain appends and whether it returns: a name it writes in full ends in the zero byte (DomainFails says when it throws) |
| Writer.DomainFails | lib/dnslib/src/utils/utils.cpp:33-35 | writeDomain throws exactly when some label it would emit is longer than 63 bytes |
| Writer.LabelsBytesAppend | lib/dnslib/src/utils/utils.cpp:30-54 | writing one more label appends its encoding to the others' |
| Writer.LabelBytes | lib/dnslib/src/utils/utils.cpp:37-41 | a label is written as its length byte followed by its bytes |
| Writer.EncodeFromLabels | lib/dnslib/src/utils/utils.cpp:30-56 | the loop of writeDomain writes the labels of the split name (without an empty last part) and then the zero byte |
| Writer.EncodeFromLength | lib/dnslib/src/utils/utils.cpp:30-56 | a name of good labels from start is written in (length − start) + 2 bytes |
| Writer.DomainLength | lib/dnslib/src/utils/utils.cpp:22-57 | an encodable non-root name is written in two bytes more than the name without its trailing dot |
| Writer.GoogleCom | lib/dnslib/tests/QuestionTests.cpp:13-28 | "google.com" is written as 6 google 3 com 0 |
| Writer.RootName | lib/dnslib/src/utils/utils.cpp:46-56 | "" and "." are written as the single zero byte |
| Writer.EmptyLabelWritten | lib/dnslib/src/utils/utils.cpp:30-44 | "a..b" is written with a zero-length label in the middle, which no check rejects |
| Writer.EmptyLabelCutsName | src/dnslib/utils/read.cpp:53-56 | that zero-length label reads back as the end of the name: "a..b" decodes as "a" |
| Writer.ZeroAfterFirstLabel | src/dnslib/utils/read.cpp:53-56 | the bytes 1 a 0 1 b 0 decode as "a", ending after the first zero |
| Writer.TrailingDotIgnored | lib/dnslib/src/utils/utils.cpp:23-25 | a name with one trailing dot is written exactly as the name without it |
| Writer.NameRoundTrip | src/dnslib/utils/read.cpp:38-93 | a name of good labels written anywhere in a message reads back, without its trailing dot, with the reader just past it |
| Writer.PointerAfterLabels | src/dnslib/utils/read.cpp:58-90 | labels, then a pointer to offset (b0 & 0x3F) * 256 + b1 where a name is written in full, read as the labels continued by that name, with the reader two bytes past the pointer |
| Writer.PointerFollowed | src/dnslib/utils/read.cpp:58-90 | a pointer to a name written in full reads as that name, with the reader two bytes past the pointer |
| Writer.JumpTaken | src/dnslib/utils/read.cpp:65-73 | the first pointer met moves the read to its offset, with one jump used and p + 2 remembered |
| Writer.NameAfterJump | src/dnslib/utils/read.cpp:76-90 | after a jump, a name written in full at the index extends the name so far, and the reader returns to the remembered position |
| Writer.ExtendLabels | src/dnslib/utils/read.cpp:79-85 | the labels of a name read after a partial name extend it by that name, with a dot between unless one is empty |
| Writer.CompressedVector | src/dnslib/utils/read.cpp:38-93 | in 3 c o m 0 1 a 0xC0 0, the name at 5 reads as "a.com" and the reader ends at 9 |
| Writer.DomainOfJoin | lib/dnslib/src/utils/utils.cpp:22-57 | a name made by joining good labels with dots is written as those labels followed by zero |
| Writer.TwoLabels | lib/dnslib/src/utils/utils.cpp:22-57 | "a.b" is written as a's encoding, b's encoding, zero |
| Writer.ThreeLabels | lib/dnslib/src/utils/utils.cpp:22-57 | "a.b.c" is written as the three encodings, then zero |
| Writer.WriteDomain | lib/dnslib/src/utils/utils.cpp:22-57 | appends the name's encoding and returns iff it does not throw; on a throw, the labels written before the long one stay in the buffer |
| Writer.WriteLast | lib/dnslib/src/utils/utils.cpp:46-56 | the part after the last dot is written as a label unless it is empty, then the zero byte |
| Writer.WriteLabel | lib/dnslib/src/utils/utils.cpp:37-41 | appends the length byte and the label's bytes |
| Writer.AppendChars | lib/dnslib/src/utils/utils.cpp:39-41 | appends one byte per char |
| Text.DigitChar | lib/dnslib/src/message/DNSHeader.cpp:19-24 | a digit value below ten is the char of that digit |
| Text.Decimal | lib/dnslib/src/message/DNSHeader.cpp:19-24 | std::to_string of an unsigned value: at least one digit, all digits, no leading zero, and its value is the number |
| Text.DecimalInjective | lib/dnslib/src/message/DNSHeader.cpp:19-24 | two numbers with the same decimal text are equal |
| Text.DecimalHasNoSeparator | lib/dnslib/src/message/DNSHeader.cpp:19-24 | decimal text contains no non-digit, so a separator after it is unambiguous |
| Text.FirstIndex | lib/dnslib/src/message/DNSHeader.cpp:19-24 | a position within the text, used to split a line at a separator |
| Text.FirstIndexAfter | lib/dnslib/src/message/DNSHeader.cpp:19-24 | the first separator of a + sep + b is just past a when a has none |
| Text.SeparatorSplit | lib/dnslib/src/message/DNSHeader.cpp:19-24 | text joined at a separator absent from the first part splits back uniquely |
| Text.Hex2 | lib/dnslib/src/records/UnknownRecord.cpp:22 | hex, uppercase, setw(2), setfill('0') of a byte: two upper-case hex digits whose value is the byte |
| Text.HexList | lib/dnslib/src/records/UnknownRecord.cpp:21-23 | the byte loop prints three chars per byte, in the hex-listing form |
| Text.HexListAppend | lib/dnslib/src/records/UnknownRecord.cpp:21-23 | one more byte appends its two digits and a space |
| Text.UnHexList | lib/dnslib/src/records/UnknownRecord.cpp:21-23 | decoding a hex listing gives one byte per three chars |
| Text.HexListRoundTrip | lib/dnslib/src/records/UnknownRecord.cpp:21-23 | the hex listing loses nothing: it decodes back to the bytes |
| DnsTypes.TypeName | lib/dnslib/include/utils/types.hpp:51-70 | to_string(TYPE) is "Unknown" exactly for codes without a named case, and a short name otherwise |
| DnsTypes.Named | lib/dnslib/include/utils/types.hpp:51-70 | the codes to_string(TYPE) has a case for, CNAME not among them; no contract of its own: TypeName's contract gives it its meaning |
| DnsTypes.TypeNameInjective | lib/dnslib/include/utils/types.hpp:51-70 | two types with the same name, one of them named, are the same type |
| DnsTypes.CnamePrintsUnknown | lib/dnslib/include/utils/types.hpp:51-70 | CNAME, although an enumerator (line 25), has no case and prints as "Unknown", like code 999 |
| Header.SetFlag | lib/dnslib/include/message/DNSHeader.hpp:81-88 | a boolean setter leaves its bit equal to the argument and every other bit as it was |
| Header.WithOpcode | lib/dnslib/include/message/DNSHeader.hpp:89-92 | setOpcode leaves opcode() equal to the argument modulo 16 and every bit outside bits 11-14 as it was |
| Header.WithRcode | lib/dnslib/include/message/DNSHeader.hpp:93-96 | setRcode leaves rcode() equal to the argument modulo 16 and every bit above bit 3 as it was |
| Header.OpcodeOf | lib/dnslib/include/message/DNSHeader.hpp:180 | `(flags & OPCODE_MASK) >> 11`: a value below 16 whose bit j is bit 11 + j of the flag word |
| Header.RcodeOf | lib/dnslib/include/message/DNSHeader.hpp:186 | `flags & RCODE_MASK`: a value below 16 whose bit j is bit j of the flag word |
| Header.HeaderBytes | lib/dnslib/src/message/DNSHeader.cpp:9-16 | the header is always twelve bytes |
| Header.HeaderText | lib/dnslib/src/message/DNSHeader.cpp:18-25 | the text of toString, six "name: decimal" lines; no contract of its own: HeaderTextInjective proves it loses nothing |
| Header.FlagsDetermined | lib/dnslib/include/message/DNSHeader.hpp:59 | a 16-bit flag word is determined by its sixteen bits |
| Header.MaskValues | lib/dnslib/include/message/DNSHeader.hpp:66-74 | the bit numbers used give the masks 0x8000, 0x400, 0x200, 0x100, 0x80, 0x20, 0x10, 0x7800 and 0xF |
| Header.SetFlagIsMaskOp | lib/dnslib/include/message/DNSHeader.hpp:81-88 | the setter is `flags \| mask` when on and `flags & ~mask` when off |
| Header.ReservedBitUntouched | lib/dnslib/include/message/DNSHeader.hpp:81-96 | no setter changes the reserved Z bit (bit 6) |
| Header.OpcodeTwenty | lib/dnslib/tests/ValidationTests.cpp:21-30 | setOpcode(20) gives opcode() 4 |
| Header.SettersCommute | lib/dnslib/include/message/DNSHeader.hpp:81-88 | setters of different bits commute |
| Header.LastSetterWins | lib/dnslib/include/message/DNSHeader.hpp:81-88 | setting a bit twice is setting it to the last value |
| Header.SetterKeepsEqual | lib/dnslib/include/message/DNSHeader.hpp:81-88 | setting a bit to its current value changes nothing |
| Header.CodesIndependent | lib/dnslib/include/message/DNSHeader.hpp:89-96 | setOpcode keeps rcode() and setRcode keeps opcode() |
| Header.SetterKeepsCodes | lib/dnslib/include/message/DNSHeader.hpp:81-96 | a single-bit setter outside both code fields keeps opcode() and rcode() |
| Header.NameErrorResponseFlags | lib/dnslib/include/message/DNSHeader.hpp:81-96 | QR, RD, RA set and rcode NAMEERROR on a zero header give 0x8183 |
| Header.QrInThirdByte | lib/dnslib/src/message/DNSHeader.cpp:11 | the serialized third byte has its top bit set iff the header is a response |
| Header.HeaderRoundTrip | lib/dnslib/src/parser/PacketParser.cpp:15-23 | six readU16 calls over the serialized header give back the six fields in order |
| Header.HeaderTextInjective | lib/dnslib/src/message/DNSHeader.cpp:18-25 | toString loses nothing: two headers with the same text are equal |
| Header.NamedLinesSplit | lib/dnslib/src/message/DNSHeader.cpp:18-25 | one line "name: <decimal>\n" followed by more text determines the number and the rest |
| Header.DnsHeader.constructor | lib/dnslib/include/message/DNSHeader.hpp:103 | a default header is all zero |
| Header.DnsHeader.SetId | lib/dnslib/include/message/DNSHeader.hpp:80 | changes the id and nothing else |
| Header.DnsHeader.SetResponse | lib/dnslib/include/message/DNSHeader.hpp:81 | sets QR to the argument, nothing else changes |
| Header.DnsHeader.SetQuery | lib/dnslib/include/message/DNSHeader.hpp:82 | sets QR to the negated argument, nothing else changes |
| Header.DnsHeader.SetAuthoritative | lib/dnslib/include/message/DNSHeader.hpp:83 | sets AA, nothing else changes |
| Header.DnsHeader.SetTruncated | lib/dnslib/include/message/DNSHeader.hpp:84 | sets TC, nothing else changes |
| Header.DnsHeader.SetRecursionDesired | lib/dnslib/include/message/DNSHeader.hpp:85 | sets RD, nothing else changes |
| Header.DnsHeader.SetRecursionAvailable | lib/dnslib/include/message/DNSHeader.hpp:86 | sets RA, nothing else changes |
| Header.DnsHeader.SetAuthenticData | lib/dnslib/include/message/DNSHeader.hpp:87 | sets AD, nothing else changes |
| Header.DnsHeader.SetCheckingDisabled | lib/dnslib/include/message/DNSHeader.hpp:88 | sets CD, nothing else changes |
| Header.DnsHeader.SetOpcode | lib/dnslib/include/message/DNSHeader.hpp:89-92 | the flag word becomes WithOpcode of the old one, nothing else changes |
| Header.DnsHeader.SetRcode | lib/dnslib/include/message/DNSHeader.hpp:93-96 | the flag word becomes WithRcode of the old one, nothing else changes |
| Header.DnsHeader.Serialize | lib/dnslib/src/message/DNSHeader.cpp:9-16 | appends the twelve header bytes of the current fields |
| Header.DnsHeader.IsResponse | lib/dnslib/include/message/DNSHeader.hpp:133 | true exactly when `flags & 0x8000` is non-zero |
| Header.DnsHeader.IsQuery | lib/dnslib/include/message/DNSHeader.hpp:138 | true exactly when `flags & 0x8000` is zero |
| Header.DnsHeader.AuthAns | lib/dnslib/include/message/DNSHeader.hpp:144 | true exactly when `flags & 0x400` is non-zero |
| Header.DnsHeader.Truncation | lib/dnslib/include/message/DNSHeader.hpp:150 | true exactly when `flags & 0x200` is non-zero |
| Header.DnsHeader.RecursionDesired | lib/dnslib/include/message/DNSHeader.hpp:156 | true exactly when `flags & 0x100` is non-zero |
| Header.DnsHeader.RecursionAvailable | lib/dnslib/include/message/DNSHeader.hpp:162 | true exactly when `flags & 0x80` is non-zero |
| Header.DnsHeader.AuthenticData | lib/dnslib/include/message/DNSHeader.hpp:168 | true exactly when `flags & 0x20` is non-zero |
| Header.DnsHeader.CheckingDisabled | lib/dnslib/include/message/DNSHeader.hpp:174 | true exactly when `flags & 0x10` is non-zero |
| Header.DnsHeader.Opcode | lib/dnslib/include/message/DNSHeader.hpp:180 | below 16, bit j is bit 11 + j of the flag word |
| Header.DnsHeader.Rcode | lib/dnslib/include/message/DNSHeader.hpp:186 | below 16, bit j is bit j of the flag word |
| Header.DnsHeader.ToString | lib/dnslib/src/message/DNSHeader.cpp:18-25 | the header's text is that of its current fields |
| Question.NewQuestion | lib/dnslib/include/message/DNSQuestion.hpp:41-58 | both constructors succeed iff the validator accepts the name and then store name, type and class unchanged; otherwise they throw |
| Question.QuestionBytes | lib/dnslib/src/message/DNSQuestion.cpp:7-11 | what serialize appends: it returns exactly when the name encodes (QuestionLength and QuestionAfterName give the bytes) |
| Question.Serialize | lib/dnslib/src/message/DNSQuestion.cpp:7-11 | appends the question's encoding and returns iff the name encodes |
| Question.QuestionLength | lib/dnslib/src/message/DNSQuestion.cpp:7-11 | a question encodes iff its name does, in four bytes more than the name; when the name throws only the name's partial bytes are written |
| Question.GoogleComQuestion | lib/dnslib/tests/QuestionTests.cpp:13-28 | the google.com A IN question is the expected 16-byte vector |
| Question.QuestionAfterName | lib/dnslib/src/message/DNSQuestion.cpp:7-11 | an encoded name is followed by the big-endian type and class |
| Question.QuestionRoundTrip | lib/dnslib/src/parser/PacketParser.cpp:27-30 | a question written anywhere reads back as its name without trailing dot, its type and its class, each read ending where the next begins |
| Question.GoogleComQuestionText | lib/dnslib/src/message/DNSQuestion.cpp:13-18 | toString of the google.com A IN question is "name: google.com type: A qclass: 1" |
| Question.QuestionText | lib/dnslib/src/message/DNSQuestion.cpp:13-18 | the text of toString; no contract of its own: QuestionTextInjective states that it determines the question, and GoogleComQuestionText and CnameQuestionText are examples |
| Question.QuestionTextInjective | lib/dnslib/src/message/DNSQuestion.cpp:13-18 | for names without a space and types the switch names, equal texts mean equal questions: name, type and class can be read back from the text |
| Question.CnameQuestionText | lib/dnslib/src/message/DNSQuestion.cpp:13-18 | a CNAME question prints its type as "Unknown", the same as type 999 |
| Records.SerializeBase | lib/dnslib/include/records/ResourceRecord.hpp:46-55 | appends owner name, type, class IN and TTL, and returns iff the owner encodes |
| Records.WriteTarget | lib/dnslib/src/records/MXRecord.cpp:11-13 | the temporary vector receives the record's RDATA (with the preference first for MX), ending in a throw when the target name has a long label |
| Records.SerializeA | lib/dnslib/src/records/ARecord.cpp:10-26 | appends type, class, TTL, RDLENGTH 4 and the address, with no owner name |
| Records.Serialize | lib/dnslib/src/records/NSRecord.cpp:9-17 | appends the record's encoding for every record type, and returns iff nothing threw |
| Records.BaseBytes | lib/dnslib/include/records/ResourceRecord.hpp:46-55 | the base serialize returns exactly when the owner name encodes |
| Records.TypeOf | lib/dnslib/include/records/ResourceRecord.hpp:39 | getType: the code each constructor fixes, and the stored code of an unknown record; no contract of its own: AOmitsOwner, OtherTypesSkipped and FactorySkipsRdata state how it is written and read |
| Records.Low16 | lib/dnslib/src/records/UnknownRecord.cpp:11 | the size_t RDATA length stored into writeU16's uint16_t: a length below 2^16 is kept exactly (RecordLayout and RdLengthReadsBack state its place in the record) |
| Records.RDataBytes | lib/dnslib/src/records/MXRecord.cpp:8-17 | the RDATA of each type: an A address is four bytes, unknown data is copied as is, MX throws exactly when its exchange does and has two bytes of preference; neither A nor unknown data can throw |
| Records.RecordBytes | lib/dnslib/src/records/NSRecord.cpp:9-17 | serialize of a record returns exactly when it is an A record or both owner and RDATA encode; an A record is always 14 bytes |
| Records.RecordLayout | lib/dnslib/src/records/UnknownRecord.cpp:8-13 | a record other than A encodes iff base and RDATA do, as base bytes, RDLENGTH (RDATA size cut to 16 bits), RDATA |
| Records.BaseLayout | lib/dnslib/include/records/ResourceRecord.hpp:46-55 | the base fields encode iff the owner does, as the owner's bytes and eight fixed bytes |
| Records.BaseRoundTrip | lib/dnslib/src/parser/RecordFactory.cpp:10-13 | the base fields written anywhere read back field by field: owner without trailing dot, type, class IN, TTL |
| Records.BaseNameReadsBack | lib/dnslib/src/parser/RecordFactory.cpp:10 | the owner written at the start of the base fields reads back and ends where the type begins |
| Records.BaseFixedReadsBack | lib/dnslib/src/parser/RecordFactory.cpp:11-13 | type, class and TTL written behind the owner read back in order |
| Records.FixedRoundTrip | lib/dnslib/src/parser/RecordFactory.cpp:11-13 | type, class and TTL written anywhere read back in order |
| Records.RecordStartsWithBase | lib/dnslib/src/records/NSRecord.cpp:9-17 | a record other than A starts with its base fields |
| Records.RdLengthReadsBack | lib/dnslib/src/parser/RecordFactory.cpp:14 | the RDLENGTH written behind the base fields reads back as the RDATA's length |
| Records.LengthThenData | lib/dnslib/src/parser/RecordFactory.cpp:14-16 | a 16-bit length written in front of data reads back as the data's length, with the data right after it |
| Records.TargetLength | lib/dnslib/src/records/MXRecord.cpp:8-17 | a good target name gives RDATA of its encoded length (plus two for MX) |
| Records.AOmitsOwner | lib/dnslib/src/records/ARecord.cpp:10-26 | an A record's bytes do not depend on its owner name: 14 bytes, RDLENGTH 4, then the address |
| Records.ExampleCom | lib/dnslib/tests/RecordTests.cpp:53-81 | "example.com" is written as 7 example 3 com 0 |
| Records.MailExampleCom | lib/dnslib/tests/RecordTests.cpp:53-81 | "mail.example.com" is written as 4 mail 7 example 3 com 0 |
| Records.MxVector | lib/dnslib/tests/RecordTests.cpp:53-81 | the MX record example.com 3600 10 mail.example.com serializes to the expected vector with RDLENGTH 20 |
| Records.UnknownVector | lib/dnslib/tests/UnknownRecordTests.cpp:16-38 | the record of type 999 with data 1 2 3 serializes to the expected vector |
| Records.TextStartsWithOwner | lib/dnslib/src/records/NSRecord.cpp:19-23 | every record's text starts with owner, TTL and " IN ", after "A Record: " for an A record |
| Records.RecordText | lib/dnslib/src/records/UnknownRecord.cpp:15-27 | the text of toString for each type but A; no contract of its own: TextStartsWithOwner, MxText, UnknownTextVector and RdataTextRoundTrip state what it prints |
| Records.AText | lib/dnslib/src/records/ARecord.cpp:28-34 | the text of ARecord::toString; no contract of its own: TextStartsWithOwner states its prefix |
| Records.AnyText | lib/dnslib/src/message/DNSPacket.cpp:30-46 | the toString a record pointer dispatches to; no contract of its own: TextStartsWithOwner states its prefix for every type |
| Records.UnknownText | lib/dnslib/src/records/UnknownRecord.cpp:15-27 | the stream-building method, with its byte loop, produces the record's text |
| Records.RdataTextRoundTrip | lib/dnslib/src/records/UnknownRecord.cpp:19-25 | the hex tail of non-empty data is " ( ", three chars per byte, ")", and decodes back to the data |
| Records.MxText | lib/dnslib/tests/RecordTests.cpp:47-51 | the MX record prints as "example.com 3600 IN MX 10 mail.example.com" |
| Records.UnknownTextVector | lib/dnslib/tests/UnknownRecordTests.cpp:40-49 | the record of type 999 with data AB CD prints as "unknown.com 3600 IN TYPE999 \# 2 ( AB CD )" |
| Records.EmptyUnknownText | lib/dnslib/src/records/UnknownRecord.cpp:19 | empty data prints "\# 0" and no parenthesised list |
| Packet.Targets | lib/dnslib/src/message/DNSPacket.cpp:11-19 | dereferencing a section without null pointers gives one record per pointer, in order |
| Packet.EachOk | lib/dnslib/src/message/DNSPacket.cpp:8-19 | a section loop succeeds iff every entry encodes, and then writes the concatenation of their encodings |
| Packet.EachStops | lib/dnslib/src/message/DNSPacket.cpp:8-19 | after the first entry that throws, nothing more is written |
| Packet.MessageLayout | lib/dnslib/src/message/DNSPacket.cpp:6-20 | when every entry encodes, the message is the header followed by questions, answers, authority and additional in list order, and its first twelve bytes are the header with its stored counts |
| Packet.RecordsOk | lib/dnslib/src/message/DNSPacket.cpp:11-19 | a record section whose records all encode is written as their concatenation |
| Packet.HeaderOnly | lib/dnslib/src/message/DNSPacket.cpp:6-20 | a message with empty sections is its twelve header bytes |
| Packet.MessageBytes | lib/dnslib/src/message/DNSPacket.cpp:6-20 | what serialize appends: whatever a later part does, it starts with the twelve header bytes (MessageLayout gives the rest) |
| Packet.Section | lib/dnslib/src/message/DNSPacket.cpp:24-47 | an empty section prints nothing; a non-empty one starts with its heading |
| Packet.EmptyPacketText | lib/dnslib/src/message/DNSPacket.cpp:22-50 | with all sections empty the text is the banner and the header text |
| Packet.QuestionsOnlyText | lib/dnslib/src/message/DNSPacket.cpp:22-50 | with only questions the text is banner, header, "\nQuestions:" and the question lines, and no other heading |
| Packet.PacketText | lib/dnslib/src/message/DNSPacket.cpp:22-50 | the text of toString; no contract of its own: Section, EmptyPacketText and QuestionsOnlyText state its shape |
| Packet.DnsPacket.constructor | lib/dnslib/src/builder/PacketBuilder.cpp:4-6 | a new packet has an all-zero header and empty sections |
| Packet.DnsPacket.Serialize | lib/dnslib/src/message/DNSPacket.cpp:6-20 | appends the message's encoding and returns iff nothing threw |
| Packet.DnsPacket.ToString | lib/dnslib/src/message/DNSPacket.cpp:22-50 | the section-by-section loops produce the packet's text |
| Packet.WriteQuestions | lib/dnslib/src/message/DNSPacket.cpp:8-10 | the question loop appends what the section specification writes, stopping at the first throw |
| Packet.WriteRecords | lib/dnslib/src/message/DNSPacket.cpp:11-19 | a record loop appends what the section specification writes, stopping at the first throw |
| Packet.AppendLines | lib/dnslib/src/message/DNSPacket.cpp:24-29 | the heading-and-loop code of one section produces that section's text |
| Builder.FlagsAreMasks | lib/dnslib/include/builder/PacketBuilder.hpp:33-40 | each PacketFlag is the mask of its header bit |
| Builder.FlagOr | lib/dnslib/include/builder/PacketBuilder.hpp:49-53 | a bit of a \| b is set iff it is set in a or in b |
| Builder.FlagAnd | lib/dnslib/include/builder/PacketBuilder.hpp:62-64 | `(a & b) != 0`; no contract of its own: FlagAndShares states its meaning |
| Builder.FlagAndShares | lib/dnslib/include/builder/PacketBuilder.hpp:62-64 | a & b is true iff some bit is set in both |
| Builder.NoneNeverSet | lib/dnslib/include/builder/PacketBuilder.hpp:34 | NONE tests false against anything, either side |
| Builder.FlagWithItself | lib/dnslib/include/builder/PacketBuilder.hpp:62-64 | any flag other than NONE tests true against itself |
| Builder.FlagTest | lib/dnslib/include/builder/PacketBuilder.hpp:62-64 | testing a value against a single-bit flag tests that bit |
| Builder.ApplyFlagsMeaning | lib/dnslib/src/builder/PacketBuilder.cpp:24-31 | after withFlags, QR, AA, TC, RD and RA are set exactly when in the argument; every other bit, the opcode and the rcode are as before |
| Builder.ApplyFlags | lib/dnslib/src/builder/PacketBuilder.cpp:24-31 | the five setters of withFlags in order; no contract of its own: ApplyFlagsMeaning states its meaning |
| Builder.ResponseOrRecursionBits | lib/dnslib/include/builder/PacketBuilder.hpp:49-53 | RESPONSE \| RECURSION_DES has exactly the QR and RD bits |
| Builder.ResponseOrRecursion | lib/dnslib/include/builder/PacketBuilder.hpp:49-53 | RESPONSE \| RECURSION_DES is 0x8100 |
| Builder.ResponseWithRecursion | lib/dnslib/src/builder/PacketBuilder.cpp:24-31 | withFlags(RESPONSE \| RECURSION_DES) on a fresh header gives flags 0x8100 |
| Builder.Inc | lib/dnslib/src/builder/PacketBuilder.cpp:42 | a uint16_t counter's ++ wraps to 0 after 65535 |
| Builder.IncKeepsCount | lib/dnslib/src/builder/PacketBuilder.cpp:40-62 | a count equal to its section's length modulo 2^16 stays so when one entry is added and the count incremented |
| Builder.PacketBuilder.constructor | lib/dnslib/include/builder/PacketBuilder.hpp:79 | a default builder holds an all-zero header and empty sections, counts matching |
| Builder.PacketBuilder.WithId | lib/dnslib/src/builder/PacketBuilder.cpp:4-6 | PacketBuilder(id) differs from the default only in the id |
| Builder.PacketBuilder.SetId | lib/dnslib/src/builder/PacketBuilder.cpp:9-12 | changes the header id and nothing else |
| Builder.PacketBuilder.WithOpcode | lib/dnslib/src/builder/PacketBuilder.cpp:14-17 | changes the flag word as setOpcode does, nothing else |
| Builder.PacketBuilder.WithRcode | lib/dnslib/src/builder/PacketBuilder.cpp:19-22 | changes the flag word as setRcode does, nothing else |
| Builder.PacketBuilder.WithFlags | lib/dnslib/src/builder/PacketBuilder.cpp:24-31 | the flag word becomes the five setters applied in order, each told whether its flag is in the argument |
| Builder.PacketBuilder.WithRawFlags | lib/dnslib/src/builder/PacketBuilder.cpp:33-36 | replaces the whole flag word, codes and reserved bit included |
| Builder.PacketBuilder.AddQuestion | lib/dnslib/src/builder/PacketBuilder.cpp:40-44 | with a valid name, appends a question of class IN and increments qdCount; with an invalid one, throws and changes nothing; counts stay matched |
| Builder.PacketBuilder.AddAnswer | lib/dnslib/src/builder/PacketBuilder.cpp:46-50 | appends the record pointer, null included, and increments anCount; counts stay matched |
| Builder.PacketBuilder.AddAuthority | lib/dnslib/src/builder/PacketBuilder.cpp:52-56 | appends to the authority section and increments the header's nsCount (the field the source's `auCount` must mean); counts stay matched |
| Builder.PacketBuilder.AddAdditional | lib/dnslib/src/builder/PacketBuilder.cpp:58-62 | appends to the additional section and increments arCount; counts stay matched |
| Builder.PacketBuilder.Build | lib/dnslib/src/builder/PacketBuilder.cpp:71-73 | hands over the packet it built |
| Parser.Count | lib/dnslib/src/builder/PacketBuilder.cpp:42 | the 16-bit count of n entries is n modulo 2^16 |
| Parser.Repeat | lib/dnslib/src/parser/PacketParser.cpp:27-48 | a section loop that completes has read exactly as many entries as its count, after those already held |
| Parser.RepeatReads | lib/dnslib/src/parser/PacketParser.cpp:27-48 | when each read returns the next part and leaves the reader where the next starts, the loop returns all parts, in order, and stops after the last |
| Parser.QuestionsValid | lib/dnslib/src/parser/PacketParser.cpp:27-33 | every question the loop adds has class IN, whatever the wire says, and a name the validator accepts |
| Parser.QuestionAt | lib/dnslib/src/parser/PacketParser.cpp:27-33 | one pass of the question loop: a question read without error has class IN, a name the validator accepts, and took at least five bytes |
| Parser.RecordAt | lib/dnslib/src/parser/RecordFactory.cpp:9-35 | RecordFactory::create: a record it returns is an A record, and a read without error moves at least eleven bytes |
| Parser.ParseValue | lib/dnslib/src/parser/PacketParser.cpp:10-51 | what parse returns; no contract of its own: ParsedShape, HeaderOnlyParse, ShortInputTruncated and QuestionsOnlyRoundTrip state its meaning |
| Parser.HeaderAt | lib/dnslib/src/parser/PacketParser.cpp:15-23 | the six fields read from the first twelve bytes serialize back to exactly those bytes |
| Parser.ShortInputTruncated | lib/dnslib/src/parser/PacketParser.cpp:15-23 | fewer than twelve bytes make parse throw Truncated |
| Parser.ParsedShape | lib/dnslib/src/parser/PacketParser.cpp:10-51 | a parsed message's header re-serializes to the first twelve bytes, each section is exactly as long as its count, and every question has class IN and a valid name |
| Parser.HeaderOnlyParse | lib/dnslib/src/parser/PacketParser.cpp:10-51 | a header with all counts zero parses to a message with empty sections, whatever follows |
| Parser.QuestionReadsBack | lib/dnslib/src/parser/PacketParser.cpp:27-33 | a question written with a canonical name and class IN, anywhere in a buffer, is read back by the loop body as itself |
| Parser.CanonicalReads | lib/dnslib/src/parser/PacketParser.cpp:27-33 | the three reads of a question with a canonical name and class IN give back that question |
| Parser.QuestionsReadBack | lib/dnslib/src/parser/PacketParser.cpp:27-33 | serialized canonical questions, one after another, are read back by the question loop in order, ending after the last |
| Parser.QuestionsOnlyRoundTrip | lib/dnslib/src/parser/PacketParser.cpp:10-51 | serialize then parse gives back a questions-only message whose counts match its sections, with trailing bytes ignored |
| Parser.GoogleComRoundTrip | tests/ParserTests.cpp:12-37 | the packet with id 0x1337, RD set and one google.com A question survives serialize then parse |
| Parser.FactorySkipsRdata | lib/dnslib/src/parser/RecordFactory.cpp:16-33 | the factory always leaves the reader RDLENGTH bytes past the RDLENGTH field, and yields a record iff the type is A |
| Parser.RecordAtReads | lib/dnslib/src/parser/RecordFactory.cpp:9-35 | when the five fixed reads succeed, a type other than A gives a null record and an A type gives owner, TTL and address, ending at the RDLENGTH end |
| Parser.AReadsBack | lib/dnslib/src/parser/RecordFactory.cpp:21-25 | an A record laid out owner first is read back as owner without trailing dot, TTL and address, whatever its class field holds |
| Parser.AWrittenNotReadBack | lib/dnslib/src/records/ARecord.cpp:10-26 | what ARecord::serialize writes does not read back: the type's zero byte is taken for an empty owner, the record becomes a null one, and the reader jumps past the record's end |
| Parser.OtherTypesSkipped | lib/dnslib/src/parser/RecordFactory.cpp:26-33 | a serialized record of any type other than A reads as a null record and is skipped exactly |
| Parser.BaseThenSkip | lib/dnslib/src/parser/RecordFactory.cpp:26-33 | base fields of a type other than A followed by an RDLENGTH are skipped to the end it announces |
| Parser.SkipAfterFixed | lib/dnslib/src/parser/RecordFactory.cpp:29-33 | after the fixed part of a type other than A the factory ends where RDLENGTH says |
| Parser.BaseFixedPart | lib/dnslib/src/parser/RecordFactory.cpp:10-14 | the fixed part of a serialized record reads back field by field, whatever follows it |
| Parser.Fill | lib/dnslib/src/builder/PacketBuilder.cpp:46-62 | filling one section sets that section and leaves the others |
| Parser.AddedFills | lib/dnslib/src/builder/PacketBuilder.cpp:46-62 | adding a record to a filled section fills it with one record more |
| Parser.Create | lib/dnslib/src/parser/RecordFactory.cpp:9-35 | RecordFactory::create returns what RecordAt specifies and leaves the reader where it says, on success and on every throw |
| Parser.QuestionAddedCounts | lib/dnslib/src/builder/PacketBuilder.cpp:40-44 | addQuestion on a message whose qdCount is its question count keeps it so |
| Parser.ReadQuestions | lib/dnslib/src/parser/PacketParser.cpp:27-33 | the question loop succeeds iff the question specification does, throws its error otherwise, and on success leaves the questions it specifies with matching qdCount |
| Parser.ReadSection | lib/dnslib/src/parser/PacketParser.cpp:35-48 | each record loop succeeds iff the record specification does and on success fills its section with the records it specifies, the count matching |
| Parser.ReadHeader | lib/dnslib/src/parser/PacketParser.cpp:11-25 | the header reads succeed iff there are twelve bytes; the builder then holds the id and flags read, and the counts are returned |
| Parser.ParsedValue | lib/dnslib/src/parser/PacketParser.cpp:10-51 | after the four loops the builder's message is exactly the header read with the sections read |
| Parser.Parse | lib/dnslib/src/parser/PacketParser.cpp:10-51 | PacketParser::parse succeeds iff the parse specification does, throws its error otherwise, and returns a fresh packet holding its message |
| Cache.SameKey | include/cache.hpp:17-19 | cacheKey equality is equality of name (case-sensitive) and type |
| Cache.Keys | src/cache.cpp:13 | the keys the list holds |
| Cache.Find | src/cache.cpp:13-16 | cacheMap.find(k) misses iff no entry has key k, and otherwise gives an entry of the list with that key |
| Cache.Limit | src/cache.cpp:47 | static_cast<size_t>(capacity): a non-negative capacity is itself, a negative one a size no cache reaches |
| Cache.Lookup | src/cache.cpp:12-31 | get on the list; no contract of its own: LookupMeaning and LookupKeeps state its meaning |
| Cache.Insert | src/cache.cpp:34-52 | put on the list; no contract of its own: InsertFront, InsertBound, InsertEvictsBack and PutThenGet state its meaning |
| Cache.RemoveAt | src/cache.cpp:20-21 | erasing the entry of a key deletes exactly that entry, the others keeping their order |
| Cache.RemoveAbsent | src/cache.cpp:35-39 | erasing a key the list lacks changes nothing |
| Cache.Remove | src/cache.cpp:20 | list.erase of the entry the index holds; no contract of its own: RemoveAt, RemoveAbsent and RemoveKeys state what it deletes |
| Cache.RemoveKeys | src/cache.cpp:35-39 | after the erase the list holds every other key and not this one, and is shorter iff the key was there |
| Cache.RemoveDistinct | src/cache.cpp:35-39 | erasing keeps keys distinct |
| Cache.PushDistinct | src/cache.cpp:44 | pushing an entry whose key the list lacks keeps keys distinct |
| Cache.IndexFind | include/cache.hpp:52-54 | the index holds exactly the list's keys, each to the entry the list has for it |
| Cache.IndexSize | src/cache.cpp:47 | with distinct keys, cacheMap.size() is the list's length |
| Cache.IndexRemove | src/cache.cpp:35-39 | erasing a key from the list erases it from the index |
| Cache.PushIndex | src/cache.cpp:35-45 | erase then push_front and cacheMap[key] = begin: the index maps the key to the new entry, keeps the others, and keeps the size of the list |
| Cache.IndexPop | src/cache.cpp:47-51 | pop_back and cacheMap.erase of the back's key keep the index the list's |
| Cache.LookupMeaning | src/cache.cpp:12-31 | get of a present key: past its expiry time it misses and erases just that entry; otherwise, its expiry instant included, it returns the value and moves the entry to the front, the rest in order |
| Cache.FindAt | src/cache.cpp:13 | with distinct keys the entry found for a key is the one at its position |
| Cache.LookupKeeps | src/cache.cpp:12-31 | get keeps keys distinct, never grows the list and never adds a key |
| Cache.InsertFront | src/cache.cpp:34-52 | after put the keys are distinct and, with a capacity of at least one, the new entry, expiring at now + TTL, is at the front and is what a find returns |
| Cache.InsertBound | src/cache.cpp:47-51 | put grows the list by at most one, and a cache within a limit stays within it |
| Cache.InsertEvictsBack | src/cache.cpp:47-51 | put removes at most the last entry of the pushed list, and removes it iff the pushed list is over the limit |
| Cache.PutThenGet | src/cache.cpp:19-24 | after put with TTL t at time now, get hits up to now + t inclusive and misses after it |
| Cache.TLRUCache.constructor | include/cache.hpp:57 | a new cache holds the capacity and is empty |
| Cache.TLRUCache.Get | src/cache.cpp:12-31 | get's result and new list are those of Lookup, and the index stays the list's |
| Cache.TLRUCache.Put | src/cache.cpp:34-52 | put's new list is that of Insert with the capacity cast to size_t, and the index stays the list's |
| Cache.PutBound | src/cache.cpp:47-51 | a put on a cache within a non-negative capacity keeps the index the size of the list and within the capacity |

## Left out

- **Network, threads and logging.** The server's network loop, threads,
  queue and logging are outside the codec and the cache. This includes
  the `LOG_DEBUG` call in `TLRUCache::get`.
- **The clock.** `std::chrono::steady_clock::now()` is the parameter
  `now`, an integer number of seconds. Clock overflow is not modelled.
- **The domain-name validator.** `utils::validateDomainName` is the
  parameter `valid`. Its body is not part of this model.
- **A record addresses.**
  - `inet_ntoa` in `ARecord::toString` is the parameter `ntoa`.
  - `ARecord`'s constructor from dotted text (`inet_addr`) is not part of
    this model. The record holds the 32-bit address directly.
- **Pointer identity.** Records are values. A section holds optional values
  (`None` for the null pointer the factory returns). The packet's
  `shared_ptr` sharing and the builder's moved-from state after `build`
  are not modelled.
- **Serializing a null record.** `DNSPacket::serialize` and `toString`
  dereference every record pointer. Calling them on a packet with a null
  record is undefined behaviour in the source, so `Packet.DnsPacket.Serialize`
  and `Packet.DnsPacket.ToString` require sections without null pointers.
- **8-bit names.** A `std::string` holds 8-bit chars; the model's names
  are Dafny strings.
  - `CharByte` stores a char wider than 255 as its low eight bits.
  - Label lengths count chars.
  - `Wire.CharsOfBytes` and `Writer.NameRoundTrip` hold for names whose
    chars are all below 256 (`Narrow`), which is every name a
    `std::string` can hold.
- Builder.PacketBuilder.AddAuthority: `addAuthority` increments
  `packet.header.auCount` (`PacketBuilder.cpp:54`).
  - `DNSHeader` declares no such field, only `nsCount`
    (`DNSHeader.hpp:62`).
  - `PacketBuilder.hpp` declares neither `addAuthority` nor
    `addAdditional`, so this code does not compile as written.
  - The model increments `nsCount`, the authority count it must mean.
- Reader.ByteReader.CheckBounds: `chceckBounds` computes `index + n` as a
  `size_t`.
  - After an unchecked `setPosition` near `SIZE_MAX` that sum wraps around
    and the check passes.
  - The model's index is an unbounded `nat`, so that wrap-around is not
    modelled.
  - The parser never moves the reader there: `RecordFactory::create` sets
    it to a position below 2^16 past a position it read.
- **The cache's hash.** The `std::hash<cacheKey>` specialisation only
  affects bucket placement, so the index is a map.
- **The cache's value type.** The stored vector is a type parameter `V`.
- Builder.PacketBuilder.ExpectedAnswers: only reserves vector capacity and
  changes nothing observable, so it carries no contract.
- **Bit-level flags.** The flag word is an integer below 2^16. `|`, `&`
  and `~` are defined bit by bit in `Bits`, not on bit-vectors.
- **The parser's structure.** Parsing is split into `Parser.ReadHeader`,
  `Parser.ReadQuestions` and `Parser.ReadSection`, one per loop of
  `PacketParser::parse`.
  - The counters are read into the builder through its own methods, so
    each count the parsed packet holds is its section's length.
  - The test `tests/ParserTests.cpp` expects this, and `Parser.ParsedShape`
    proves it.
- Parser.QuestionsOnlyRoundTrip: the general serialize-then-parse round
  trip is proved for messages without records only. An A record is
  written without its owner and does not read back, as
  `Parser.AWrittenNotReadBack` proves. Every other type reads back as a
  null record.
- Cache.Limit: requires a capacity in the `int` range, the source's
  declared type.
- **An older revision of the library under `include/dnslib`.**
  `src/dnslib/message` and `src/dnslib/builder` are not part of this
  model. The current `lib/dnslib` sources are modelled, together with the
  byte reader in `src/dnslib/utils/read.cpp` and
  `include/dnslib/utils/read.hpp` that the parser uses.
