# Verified models of the platform library

A Dafny model of the parts of this repository that hold algorithms of their own, with proofs of what they are for.
`dafny verify dfyconfig.toml` checks everything. Each module is a component:

| files | component |
|---|---|
| `Wrappers.dfy` | types the other modules share |
| `Folding.dfy`, `Crc32.dfy`, `CrcTable.dfy` | CRC-32 with the reflected polynomial 0xEDB88320 (section 8 of RFC 1952), bit by bit and by table |
| `EnvCodec.dfy`, `EnvText.dfy`, `EnvCache.dfy`, `EnvSystem.dfy`, `EnvProcess.dfy` | the U-Boot environment: its codec, the cache that a process keeps of the shared image, many processes at once, and the code on the shared area |
| `DeathNotification.dfy` | the death notification protocol of a binder proxy |
| `LineSplitter.dfy` | the log wrapper's line splitter |
| `BinaryEvent.dfy`, `BinaryText.dfy`, `LogFormat.dfy`, `UrlMask.dfy` | the binary event printer, the line formatter and the URL mask of liblog |
| `LogMerge.dfy` | logcat's merge of several devices by time stamp |
| `NodeList.dfy`, `Registration.dfy`, `MessageSender.dfy` | the doubly linked list, the registration message and the publish/subscribe sender of the second socket IPC |
| `FormatWalk.dfy`, `IpcMarshal.dfy` | the format-driven marshaller of the first socket IPC |
| `PropertyDb.dfy` | the property database and its change events |
| `EventTagMap.dfy`, `EventTagText.dfy` | the event tag file: two passes, sort, binary search |
| `BufferIndex.dfy` | the free list of text buffer indices |

Most modules have the same three parts: functions that say what the code means, lemmas that prove what it is for over
every input or every run, and the code itself as methods with the repository's loops, arrays, lists and fields, proved
to do what the functions say. Concurrent code (the environment cache, death notification, the message sender) is a
state machine whose steps are the critical sections and the unlocked steps of all threads or processes, in any
interleaving; what is still taken as one step although another could come in between is named under "Left out".

## Where the code does less than it seems to

Each of these is proved, and almost always with the exact condition under which the code does meet the expectation.

- An environment variable set to the empty value is not what other processes read back
  (`EnvCache.EmptyValueNeverSurvives`, `EnvCodec.RoundTrip`).
- A process that misses a multiple of 2^32 saves keeps its old list (`EnvCache.ReloadedExactlyUnlessWrapped`).
- An environment that loads only on the fifth try is reported as unreadable (`EnvCache.InitOutcome`); the list it has
  loaded is not released, and parsing an image of one entry over it later keeps its rest
  (`EnvCache.ParseOverExactly`).
- A process that gives the shared area up after a wrong CRC can take its name away from another that has loaded a good
  image into it meanwhile; the two then no longer see each other's updates (`EnvSystem.OneAreaExactly`,
  `EnvSystem.PartedByRelease`).
- A first link that fails to grow its vector leaves a death notification request outstanding
  (`DeathNotification.FailedAddLeavesRequest`, `DeathNotification.OneRequestOutstanding`).
- Printed log entries are out of order when one is read after a later one has been printed, as can happen after a
  timeout flush (`LogMerge.PrintedSortedExactly`, `LogMerge.LateEntryAfterTimeout`), and stamps more than 2^31 seconds
  apart compare the wrong way round (`LogMerge.CmpOrdersExactly`).
- The message sender pops outside its lock: a message posted at that moment can be dropped, or leave the list without a
  tail, which the next post then uses (`MessageSender.WindowsExactly`, `MessageSender.LostExactly`).
- A number outside the range of its type and an empty buffer that is not NULL do not arrive as sent
  (`IpcMarshal.SentIsReceived`), and the generated stubs receive numbers of one or two bytes in an int that they have
  not set (`IpcMarshal.NarrowIntoInt`). A received length of -1, -2 or -3 passes for a length
  (`IpcMarshal.NegativeLength`, `IpcMarshal.MinusOneTaken`).
- A client registers with only as many characters of its printed bitmap as an int has bytes
  (`Registration.RegistrationArrivesExactly`).
- "ro." keys in which "ro." occurs again are writable (`PropertyDb.AttributeExactly`); keys stored untrimmed by the
  loader are listed but cannot be read (`PropertyDb.UntrimmedKeyUnreachable`).
- The byte behind a tag number is overwritten without a look, and the first byte of a name is not checked: a letter
  there is lost (`EventTagMap.LetterBehindNumber`), and a number that ends its line takes the next line for its name
  (`EventTagMap.NumberAloneTakesNextLine`). `EventTagMap.ParseExactly` says which files are accepted at all.

## Model

| member | source | states |
|---|---|---|
| Folding.FoldConcat | bootloader_message/avb_crc32.c:103-111 | running the register over a first part and then over a second is running it over the whole |
| Folding.BurstDistinguished | ubootenv/ubootenv.c:80-96 | a register whose step is linear and injective tells apart any two inputs that agree outside a window no wider than itself |
| Crc32.ShiftByteLinear | bootloader_message/avb_crc32.c:51-101 | eight steps of the polynomial division are linear over exclusive or, which is what lets a table replace them |
| Crc32.ShiftByteInjective | ubootenv/ubootenv.c:80-96 | eight steps are injective: the polynomial's top bit tells which bit was shifted out |
| Crc32.RegisterLaws | ubootenv/ubootenv.c:80-96 | the 32-bit register with the reflected polynomial meets every law the detection argument needs, with a window of four bytes |
| Crc32.BurstDetected | ubootenv/ubootenv.c:80-96 | two messages of equal length that agree except inside four consecutive bytes have equal CRCs if and only if they are equal |
| Crc32.FiveByteBurstMissed | ubootenv/ubootenv.c:80-96 | four bytes is the exact bound: two different five-byte messages whose CRC is 0xC622F71D |
| Crc32.ResumedChecksum | bootloader_message/avb_crc32.c:103-111 | resuming from the CRC of a first part gives the CRC of the whole |
| Crc32.ByteLoop | ubootenv/ubootenv.c:86-93 | the inner loop of eight conditional shifts is one step of the register |
| Crc32.BitwiseCrc | ubootenv/ubootenv.c:80-96 | the bit-by-bit routine computes the checksum of the specification, for every buffer |
| CrcTable.TableEntry | bootloader_message/avb_crc32.c:51-101 | each of the 256 table entries is eight bit steps of its own index |
| CrcTable.IndexIsValue | bootloader_message/avb_crc32.c:107-109 | the index composed of the bits of a byte is the number the byte stands for |
| CrcTable.EntryStep | bootloader_message/avb_crc32.c:103-111 | mixing in the entry of the low byte does to the register what eight turns of the bit loop do |
| CrcTable.TableTurn | bootloader_message/avb_crc32.c:107-109 | one turn of the table loop is one byte step of the register |
| CrcTable.TableCrc | bootloader_message/avb_crc32.c:103-117 | the table-driven routine equals the bit-by-bit checksum for every buffer, and resumes from any earlier CRC |
| EnvCodec.Layout | ubootenv/ubootenv.c:240-260 | for every list without null values, empty values included, the serializer leaves exactly the records of the kept entries one behind the other, and zeros after them |
| EnvCodec.RecordsShape | ubootenv/ubootenv.c:185-237 | every entry the parser can produce with a value is one it would give back: key free of '=' and at most 255 bytes, value of 1 to 4095 bytes |
| EnvText.ParseExactly | ubootenv/ubootenv.c:185-237 | what the parser makes of any bytes: a record up to its NUL, cut at the first '=', with 255 bytes of key and 4095 of value, and then the rest; a record without '=' or without a value ends the list |
| EnvCodec.ParseImage | ubootenv/ubootenv.c:185-237 | an area with that layout parses to its entries, in order, duplicates included |
| EnvCodec.ParseSerialized | ubootenv/ubootenv.c:185-260 | a serialized list of parsable entries parses back to its kept entries |
| EnvCodec.RoundTrip | ubootenv/ubootenv.c:185-260 | parsing the serialized list gives back the same list if and only if every entry is parsable and only the last may be shorter than three characters |
| EnvCache.CheckLoadCurrent | ubootenv/ubootenv.c:279-286 | a process at most 2^32 - 1 saves behind leaves the check with the list of the shared image |
| EnvCache.ReloadedExactlyUnlessWrapped | ubootenv/ubootenv.c:279-286 | the exact limit of the revision test: no reload happens when and only when the saves missed are a multiple of 2^32 |
| EnvCache.SaveLoopResult | ubootenv/ubootenv.c:679-686 | however many of the five device writes fail, memory ends with the serialized list, its CRC and equal revisions |
| EnvCache.TriesExactly | ubootenv/ubootenv.c:679-686 | the device is written until a write gives no negative code, and five times at most |
| EnvCache.UnsignedIsValue | ubootenv/ubootenv.c:85 | the bits given to the CRC are those of the number each byte stands for |
| EnvCache.SavedImageGood | ubootenv/ubootenv.c:399-406 | saving a list of solid entries leaves an image with a matching CRC that stands for exactly that list |
| EnvCache.UpdateResult | ubootenv/ubootenv.c:656-694 | the whole outcome of a changing update: list, image, CRC, revisions on both sides and the return code |
| EnvCache.UpdateCoherentExactly | ubootenv/ubootenv.c:656-694 | after an update the writer's own list equals what every other process will parse if and only if the list survives the round trip |
| EnvCache.EmptyValueNeverSurvives | ubootenv/ubootenv.c:193-194 | setting an empty value always breaks that condition, because the parser stops at an empty value |
| EnvCache.ParseOverExactly | ubootenv/ubootenv.c:185-237 | parsing a good image over a list that was not released gives the image's list if and only if it has more than one entry or nothing old can hang behind it |
| EnvCache.InitOutcome | ubootenv/ubootenv.c:637-653 | what initialising comes to when no other process interrupts its attempts, a repeated call included, for any images: list, use count and name; a load that succeeds only on the fifth try is reported as a failure |
| EnvSystem.OneAreaExactly | ubootenv/ubootenv.c:158-182 | the processes stay on one shared area through a step unless, and only unless, it is a release that removes the name while another process has the area |
| EnvSystem.LoadedBeforeRelease | ubootenv/ubootenv.c:288-344 | such a release can be reached: a process that has read a wrong CRC has not given the area up yet when another loads a good image into it |
| EnvSystem.PartedByRelease | ubootenv/ubootenv.c:637-643 | the release then parts them: both end initialised with the same list, on areas of their own |
| EnvSystem.AnsweredAsAlone | ubootenv/ubootenv.c:656-706 | in any run in which others keep off its area, an initialised process is answered as if it were alone |
| EnvSystem.PartedDisagree | ubootenv/ubootenv.c:656-706 | from then on, for all that the two call in any order, each is answered as if the other did not exist |
| EnvSystem.LoadOutcome | ubootenv/ubootenv.c:288-344 | one load attempt on the shared area: it succeeds exactly when an image is in use or a read with a matching CRC installs one, and then the list is the image's |
| EnvSystem.StepKeepsCoherent | ubootenv/ubootenv.c:104-344 | every step of any process (mapping the area, one load attempt, a release, a get, an update) keeps every cache that saw the last save equal to the parse of the shared image |
| EnvSystem.RunMatchesStore | ubootenv/ubootenv.c:553-706 | in every run, with load attempts, releases, gets and updates of any number of processes interleaved in any way that does not part them, each step answers as one variable store would: a get returns the last value any process set |
| EnvSystem.RunFromStart | ubootenv/ubootenv.c:553-706 | the same from the state before any process has run |
| EnvCache.LoadRejectsBurst | ubootenv/ubootenv.c:323-341 | an image read from the device that differs from a good one only within four consecutive data bytes is always rejected, and only then |
| EnvProcess.Process.StrChr | ubootenv/ubootenv.c:209-214 | finds the first separator before a NUL, or reports that there is none |
| EnvProcess.Process.ReleaseKv | ubootenv/ubootenv.c:262-277 | all nodes but the static head go, and the head keeps its key but loses its value |
| EnvProcess.Process.ParseKv | ubootenv/ubootenv.c:185-237 | the loop over the data area leaves the list of the parse function, over-long keys and values cut as the code cuts them, also over a list that was not released |
| EnvProcess.Process.CheckLoadKv | ubootenv/ubootenv.c:279-286 | reloads exactly when the revisions differ, as the protocol's check does |
| EnvProcess.Process.SerializeData | ubootenv/ubootenv.c:240-260 | the loop over the list fills the area as the serializer function says and advances both revisions modulo 2^32 |
| EnvProcess.Process.GetKv | ubootenv/ubootenv.c:346-357 | the walk over the list returns the first value stored under the key, and nothing before the process has initialised |
| EnvProcess.Process.PutKv | ubootenv/ubootenv.c:363-397 | replaces the first entry with the key or appends a new one with the key cut to 255 bytes |
| EnvProcess.Process.SaveBootenv | ubootenv/ubootenv.c:399-406 | serializes and stores the CRC before the device is written |
| EnvProcess.Process.SaveRetrying | ubootenv/ubootenv.c:679-686 | does exactly the protocol's loop of up to five saves |
| EnvProcess.Process.BootenvUpdate | ubootenv/ubootenv.c:656-694 | does exactly the update step of the protocol, retry loop included |
| EnvProcess.Process.BootenvGet | ubootenv/ubootenv.c:696-706 | does exactly the read step of the protocol |
| EnvProcess.Process.AcquireBuffer | ubootenv/ubootenv.c:109-156 | keeps the area mapped before, or maps the one the name means, or makes a new one |
| EnvProcess.Process.ReleaseBuffer | ubootenv/ubootenv.c:158-182 | gives the reference up, unmaps the area, and removes the name with the last reference |
| EnvProcess.Process.LoadBootenv | ubootenv/ubootenv.c:299-343 | does exactly the load step: read on first use, CRC test, parse, use count |
| EnvProcess.Process.BootenvInit | ubootenv/ubootenv.c:637-653 | does exactly the uninterrupted initialising: five attempts at most, a release after each wrong CRC, nothing in a process that has initialised |
| DeathNotification.LinkExactly | libbinder/binder/BpBinder.cpp:173-205 | a link succeeds if and only if the obituaries have not been sent and memory for the vector and the registration is there; then, and only then, it is registered behind all others |
| DeathNotification.UnlinkExactly | libbinder/binder/BpBinder.cpp:207-240 | an unlink takes back the first registration with the flags and the recipient, or, without a recipient, the flags and the cookie; it fails if and only if there is none or the obituaries have been sent |
| DeathNotification.TransactedExactly | libbinder/binder/BpBinder.cpp:159-171 | a transaction succeeds if and only if the proxy is alive and the driver does not call the object dead, which kills the proxy |
| DeathNotification.StepKeepsInvariant | libbinder/binder/BpBinder.cpp:173-273 | every critical section and every unlocked step of every thread keeps the proxy's invariant |
| DeathNotification.RunKeepsFlag | libbinder/binder/BpBinder.cpp:242-273 | in every run the sent flag is set exactly when some sender has taken the registrations or found them taken |
| DeathNotification.EachLinkReportedOnce | libbinder/binder/BpBinder.cpp:173-283 | for any interleaving of links, unlinks, transactions and concurrent obituary sends, once a send has come to its end and none is still reporting, each successful link was either taken back or reported exactly once, in order of linking |
| DeathNotification.LinkedExactly | libbinder/binder/BpBinder.cpp:173-205 | in every run the successful links are exactly those made with memory before the flag is set, in order |
| DeathNotification.SendCompletes | libbinder/binder/BpBinder.cpp:242-273 | from any state a sender that goes on alone comes to its end and has reported everything registered, in order, unless another took it |
| DeathNotification.NeverReportedTwice | libbinder/binder/BpBinder.cpp:242-283 | at any moment no registration has been reported twice, nor reported and taken back |
| DeathNotification.ClosedAfterSending | libbinder/binder/BpBinder.cpp:173-240 | once the obituaries are sent no link and no unlink succeeds any more |
| DeathNotification.DeadForGood | libbinder/binder/BpBinder.cpp:159-171 | once dead, no later transaction reaches the driver |
| DeathNotification.OneRequestOutstanding | libbinder/binder/BpBinder.cpp:173-273 | at every lock release requests minus clears is 1 exactly when the vector exists; that it is always 1 exactly when a registration is waiting holds of a run if and only if growing a new vector never fails in it |
| DeathNotification.FailedAddLeavesRequest | libbinder/binder/BpBinder.cpp:187-201 | in every reachable state a failed first add fails the link, registers nothing and leaves a request outstanding |
| DeathNotification.InitialMatches | libbinder/binder/BpBinder.cpp:89-98 | a new proxy is in a state that the invariant describes, without a request |
| DeathNotification.BpBinder.Transact | libbinder/binder/BpBinder.cpp:159-171 | a transaction on a dead proxy is refused, and a dead answer marks the proxy dead |
| DeathNotification.BpBinder.LinkToDeath | libbinder/binder/BpBinder.cpp:173-205 | succeeds exactly while nothing has been sent and memory is there, and then registers the recipient behind all others; the proxy is left as the protocol says |
| DeathNotification.BpBinder.UnlinkToDeath | libbinder/binder/BpBinder.cpp:207-240 | removes the first matching registration, hands its cookie back, and clears the request with the last one |
| DeathNotification.BpBinder.SendObituary | libbinder/binder/BpBinder.cpp:242-273 | reports the registrations once, in order, and nothing on a second call |
| LineSplitter.RunConcat | logwrapper/logwrapper.cpp:62-119 | the records of a stream are the records of a first part and then those of the rest, wherever it is cut |
| LineSplitter.LoggedExactly | logwrapper/logwrapper.cpp:77-95 | what is logged of a text is everything before its first carriage return or NUL |
| LineSplitter.OneLine | logwrapper/logwrapper.cpp:77-117 | what one line logs: its text without carriage returns up to 4095 bytes, then one truncation marker for every further full buffer and the end |
| LineSplitter.PiecesAreQuotient | logwrapper/logwrapper.cpp:77-95 | the pieces of a line and what is left over are the quotient and the remainder by 4095 |
| LineSplitter.RecordsOfLines | logwrapper/logwrapper.cpp:62-119 | the records of any stream in terms of its lines and what follows the last newline |
| LineSplitter.PlainLines | logwrapper/logwrapper.cpp:62-119 | lines of less than 4094 plain characters, whichever of them end in a carriage return and a newline, are logged as their texts, one record each |
| LineSplitter.Parent.ScanChunk | logwrapper/logwrapper.cpp:77-95 | the in-place scan of left-overs and new bytes logs exactly what the stream machine emits for the new bytes |
| LineSplitter.Parent.Settle | logwrapper/logwrapper.cpp:97-112 | a full buffer is flushed, an unfinished line moved to the front, and room is left for the next read |
| LineSplitter.Parent.Copy | logwrapper/logwrapper.cpp:62-119 | what is logged is a function of the bytes consumed alone, for every way the reads may split them; read is never asked for 0 bytes |
| BinaryEvent.RoomConserved | liblog/logprint.c:475-623 | on any bytes at all, bytes emitted plus room left equal the room given, and the result is -1, 0 or 1 |
| BinaryEvent.NoRoomPrints | liblog/logprint.c:475-623 | with no room nothing is emitted; only a string is passed over as if printed |
| BinaryEvent.EventPrints | liblog/logprint.c:475-623 | for every encoded event, nested lists included, and room of at least 1: result 0 exactly when the room meets the event's need, then the whole rendering is out and exactly its bytes are consumed; otherwise a prefix of the rendering |
| BinaryEvent.ItemsPrint | liblog/logprint.c:570-606 | the same for the items of a list, with their commas and the closing bracket |
| BinaryText.DecimalExactly | liblog/logprint.c:505-526 | a number prints as the one text of decimal digits, without leading zeros and behind a minus if it is negative, that stands for it |
| BinaryText.IntPrinted | liblog/logprint.c:494-514 | a 0 and four bytes, the lowest first, print as the number of 32 bits they make in two's complement, or nothing at all if the room is not larger |
| BinaryText.LongPrinted | liblog/logprint.c:515-535 | a 1 and eight bytes print as the number of 64 bits |
| BinaryText.StringPrinted | liblog/logprint.c:536-564 | a 2, a length and as many bytes print as these bytes, or as many as there is room for |
| BinaryText.ListPrinted | liblog/logprint.c:565-606 | a 3, a number of items and the items print as the list's text, or as a prefix of it without room |
| BinaryText.ListText | liblog/logprint.c:565-606 | a list prints as an opening bracket, every item in its place as it prints alone, a comma or at last the closing bracket behind it, and nothing else |
| BinaryText.TagTextExactly | liblog/logprint.c:664-676 | the generated tag is the event's number as an int in brackets |
| BinaryEvent.GetPut4 | liblog/logprint.c:446-449 | four bytes read back little-endian give the number that was put |
| BinaryEvent.GetPut8 | liblog/logprint.c:454-461 | eight bytes read back little-endian give the number that was put |
| BinaryEvent.PrintBinaryEvent | liblog/logprint.c:475-623 | the recursive routine on a buffer does what the specification says, writes nothing outside its room, and end plus room left is constant |
| BinaryEvent.ProcessBinaryLogBuffer | liblog/logprint.c:633-724 | tag, message, length and NUL of the finished entry; the asserted length always agrees |
| BinaryEvent.MessageOfEvent | liblog/logprint.c:633-724 | for every encoded event and buffer the message is the rendering if it fits, or else a prefix of it followed by an exclamation mark |
| UrlMask.FilterMasks | liblog/logprint.c:745-796 | masking keeps the length and changes characters only to 'X' |
| UrlMask.FilterIdempotent | liblog/logprint.c:745-796 | masking twice is masking once |
| UrlMask.MaskedExactly | liblog/logprint.c:745-796 | a character is replaced by X if and only if it stands behind "http" or "https", a colon and as many of two slashes as there are, in any case, plain or encoded, with no white space in between; all others stay |
| UrlMask.NoUrlUncovered | liblog/logprint.c:745-796 | in the result every http or https prefix with its colon is followed only by optional slashes and X up to the next white space or the end |
| UrlMask.FindHttp | liblog/logprint.c:756-757 | finds the next "http" in any case without passing a match |
| UrlMask.HideBody | liblog/logprint.c:789-792 | overwrites exactly the characters up to the next terminator |
| UrlMask.FilterUrl | liblog/logprint.c:745-796 | the in-place loop terminates and leaves the text masked as UrlMask.MaskedExactly says; it does nothing unless the build is secure |
| LogFormat.PassesAgree | liblog/logprint.c:926-935 | the sizing pass counts exactly the lines that the writing pass emits |
| LogFormat.LinesOfMessage | liblog/logprint.c:965-983 | the lines hold no newline and, joined again, are the message |
| LogFormat.LengthOfLines | liblog/logprint.c:926-940 | the lengths of the lines and the number of newlines add up to the length of the message |
| LogFormat.OutputFits | liblog/logprint.c:916-940 | the output and its terminator fit the computed size; without header mode the size exceeds them by exactly the newline count |
| LogFormat.LinesInPlace | liblog/logprint.c:964-983 | line i of the message stands, between prefix and suffix, behind i prefixes, suffixes and the lines before it, and nothing follows the last |
| LogFormat.HeaderAndFooter | liblog/logprint.c:957-963 | with a header and a footer the output is the prefix, the whole message and the suffix |
| LogFormat.HeaderIsCut | liblog/logprint.c:909-912 | a header of 128 characters or more is cut to 127 |
| LogFormat.WriteLines | liblog/logprint.c:952-984 | the writing pass puts each line between prefix and suffix, in order |
| LogFormat.FormatLogLine | liblog/logprint.c:914-993 | the returned buffer holds the formatted text, its pieces in the places of LogFormat.LinesInPlace, masked in a secure build, with the right length, and it is the caller's buffer if and only if that is as large as the computed size |
| LogMerge.CmpOrdersExactly | logcat/logcat.cpp:47-53 | comparing stamps by 32-bit subtraction orders them rightly if and only if the deciding difference does not wrap around |
| LogMerge.CmpIsTime | logcat/logcat.cpp:47-53 | for stamps since 1970 with legal nanoseconds it is the order of time |
| LogMerge.InsertSorted | logcat/logcat.cpp:74-85 | enqueue keeps a queue sorted and puts an entry behind all that carry the same time, the others unmoved |
| LogMerge.ChooseFirst | logcat/logcat.cpp:211-217 | the device chosen has the oldest head, and the first such device wins a tie; none is chosen exactly when all queues are empty |
| LogMerge.RunConserves | logcat/logcat.cpp:250-352 | in every run an entry read is printed, skipped or still queued, and exactly one of these, once |
| LogMerge.DataRoundExactly | logcat/logcat.cpp:332-347 | a data round prints a first part of the merged entries, or skips it with -t, and stops only where nothing is queued, the oldest entry left is the last of its device, or with -t no more than N are left, below which it never goes |
| LogMerge.DataTurnExactly | logcat/logcat.cpp:279-352 | the same of a whole turn with new data; a turn cut short by a signal lets nothing out |
| LogMerge.DataKeepsLast | logcat/logcat.cpp:333-347 | a data round never empties a non-empty queue: the entry at its end stays |
| LogMerge.PrintedInOrder | logcat/logcat.cpp:250-347 | while every device has an entry waiting and delivers in time order, all that is printed over any number of data rounds is sorted across devices, and nothing queued then or later is older than anything printed |
| LogMerge.TurnInOrderExactly | logcat/logcat.cpp:250-347 | a turn of the loop, flush or not, keeps what is printed sorted and ahead of all that is queued if and only if it reads no entry older than one already printed |
| LogMerge.RunInOrderExactly | logcat/logcat.cpp:250-347 | a whole run, with any timeout flushes in it, keeps that order if and only if no entry is read after a later one has been printed |
| LogMerge.PrintedSortedExactly | logcat/logcat.cpp:250-347 | what is printed from the start up to any flush is in time order across the devices if and only if that holds of the run up to it |
| LogMerge.LateEntryAfterTimeout | logcat/logcat.cpp:312-328 | an input that breaks it: an older entry that another device delivers after a flush is printed later |
| LogMerge.FlushPrintsTail | logcat/logcat.cpp:312-328 | a flush empties every queue, skips the first entries of the merged order and prints the last min(N, total) of them |
| LogMerge.FlushPrintsAll | logcat/logcat.cpp:312-328 | without -t a flush prints all queued entries in time order |
| LogMerge.MergeSorted | logcat/logcat.cpp:211-217 | the order in which chooseFirst takes entries from sorted queues is sorted |
| LogMerge.TailPrintsMostRecent | logcat/logcat.cpp:250-352 | "-t N: print only the most recent N lines": over a whole session, whatever order the devices deliver in, exactly min(N, read) entries are printed, in time order, none older than any skipped entry |
| LogMerge.SessionIsRun | logcat/logcat.cpp:250-352 | the endless loop with its early exit under -d and -t is the run up to the first quiet spell |
| LogMerge.LogDevice.Enqueue | logcat/logcat.cpp:74-85 | the walk along the queue inserts the entry at the place the specification gives |
| LogMerge.Reader.ChooseFirstDevice | logcat/logcat.cpp:211-217 | the loop over the devices finds the device the specification chooses |
| LogMerge.Reader.ReadReady | logcat/logcat.cpp:279-310 | one entry from each ready device is queued, and queued_lines remains the total length of all queues |
| LogMerge.Reader.DataRound | logcat/logcat.cpp:332-347 | the loop after new data lets out exactly the entries the specification lets out: a first part of the merged ones, up to the point where a data round must stop |
| LogMerge.Reader.Flush | logcat/logcat.cpp:312-328 | the loop after a quiet spell lets out exactly the entries the specification lets out |
| LogMerge.Reader.ReadLogLines | logcat/logcat.cpp:250-352 | the reader's state after any sequence of select results is that of the session |
| NodeList.List.PushBack | aml_socketipc_v2/common/util_list.c:38-52 | relinks tail and node in place, keeps the list well formed in both directions, and appends one item |
| NodeList.List.Front | aml_socketipc_v2/common/util_list.c:54-65 | returns data and type of the first node, or nothing on an empty list |
| NodeList.List.PopFront | aml_socketipc_v2/common/util_list.c:67-80 | takes the first node out, keeps the list well formed, and does nothing on an empty list |
| NodeList.List.Unlink | aml_socketipc_v2/common/util_list.c:101-111 | takes any node out of the chain, at either end or inside |
| NodeList.List.DeleteNodesWithValue | aml_socketipc_v2/common/util_list.c:97-121 | every node with the value goes, the others stay in order, and the list stays well formed |
| MessageSender.BitExactly | aml_socketipc_v2/common/socket_server.c:106 | the bit tested is the one of weight 2^event of the bitmap in two's complement |
| MessageSender.BitmapHas | aml_socketipc_v2/client/TestClient.c:171-187 | the bitmap a client makes of its list of events has the bits of these events and no others |
| MessageSender.WantsExactly | aml_socketipc_v2/common/socket_server.c:98-122 | a client asks for a business message if and only if the bit of its event is set, and for every heartbeat |
| MessageSender.SubscribersServed | aml_socketipc_v2/common/socket_server.c:98-122 | clients that register for lists of events are written exactly the business messages of their events, and every heartbeat |
| MessageSender.OncePerRegistration | aml_socketipc_v2/common/socket_server.c:101-123 | a walk over given clients writes a message once for every one of them that asks for it, to its descriptor, and nothing else |
| MessageSender.StepKeepsInv | aml_socketipc_v2/common/socket_server.c:44-130 | every step of every thread, disconnects during a walk and the four accesses of pop_front included, keeps the account of messages accepted, settled and written, and the walk on its way to every lasting registration and back to none |
| MessageSender.RunKeepsInv | aml_socketipc_v2/common/socket_server.c:44-167 | in every run messages leave the queue in the order in which they were accepted, each once, and exactly what the walks had to write has been written; each walk has visited every registration that lasted through it, and no registration more than once |
| MessageSender.StartInv | aml_socketipc_v2/common/socket_server.c:263-277 | the empty queue with no client is such a state |
| MessageSender.DeliveredOnce | aml_socketipc_v2/common/socket_server.c:88-127 | in every run a message is written to a descriptor at least once for each of its asking registrations that lasted through the turn, and at most once for each that was there at its beginning or made during the walk; nothing else is written in the turn |
| MessageSender.PoppedIsSent | aml_socketipc_v2/common/socket_server.c:88-127 | the node popped is the node sent: whatever other threads do between front and pop_front, as long as no node is freed under the sender, the message that leaves the queue is the one the turn began with, and it has visited every client registered then and not disconnected since, and no registration, made before or since, more than once |
| MessageSender.EachOnce | aml_socketipc_v2/common/socket_server.c:88-127 | while clients neither come nor go, a turn visits each registration exactly once, whatever is posted meanwhile |
| MessageSender.WindowsExactly | aml_socketipc_v2/common/util_list.c:67-80 | pop_front runs outside the lock: what a post between any two of its accesses comes to; it is lost if and only if it falls between the read of the link and the store of the head of a queue of one, and it leaves the list without a tail, so that the next post fails, if and only if it is the first since then and falls between the test of the head and the store of the tail |
| MessageSender.AcceptedExactly | aml_socketipc_v2/common/socket_server.c:44-167 | in every run without such a failure every message posted is accepted, in order, and every registration stands until its descriptor is closed, whatever the sender does meanwhile |
| MessageSender.FailedExactly | aml_socketipc_v2/common/socket_server.c:88-127 | a run comes to use a NULL tail or a freed node if and only if a post finds nodes but no tail, or a disconnect frees the node at which the walk stands |
| MessageSender.LostExactly | aml_socketipc_v2/common/socket_server.c:124-127 | a run loses a message if and only if the sender in it unlinks a node that had none behind it when its link was read and has one now |
| MessageSender.LosingRun | aml_socketipc_v2/common/socket_server.c:124-127 | a run from the start that loses the second of two messages |
| MessageSender.NothingLostAtOnce | aml_socketipc_v2/common/socket_server.c:81-130 | with pop_front in one piece no run loses a message, and the tail of the list stays in order |
| MessageSender.WholeTurn | aml_socketipc_v2/common/socket_server.c:81-130 | a turn nothing interrupts writes the front message to every client that asks for it and pops it |
| MessageSender.Server.EnqueueServerMsg | aml_socketipc_v2/common/socket_server.c:44-76 | drops a message without clients or with an undefined type, and otherwise appends it |
| Registration.AtoiOfDecimal | aml_socketipc_v2/common/socket_server.c:151 | a number printed in decimal is read back if no digit follows it |
| Registration.RegistrationArrivesExactly | aml_socketipc_v2/common/socket_client.c:91-104 | a registration sends as many characters as an int has bytes: a bitmap is sure to arrive, whatever the buffers hold besides, if and only if it is between -99 and 999 |
| Registration.LongIsCut | aml_socketipc_v2/common/socket_client.c:94-97 | a bitmap of more than four characters is cut and arrives as another one |
| Registration.FourCharacters | aml_socketipc_v2/common/socket_client.c:94-97 | one of four characters arrives without its NUL: with a digit behind it, it arrives as ten times itself |
| MessageSender.Server.HandleRegisterMessage | aml_socketipc_v2/common/socket_server.c:147-167 | appends one registration, with the bitmap read from the text |
| MessageSender.Server.Disconnect | aml_socketipc_v2/common/socket_server.c:219-228 | a disconnect takes out all registrations of the descriptor and nothing else |
| MessageSender.Server.WriteToClients | aml_socketipc_v2/common/socket_server.c:98-123 | the walk over the heap list writes the message, in order, to the clients of the list as it stands that ask for it |
| MessageSender.Server.SendFront | aml_socketipc_v2/common/socket_server.c:81-130 | writes the front message to the clients that ask for it and takes it off the queue; waits on an empty queue |
| FormatWalk.WalkBack | aml_socketipc/aml_socketipc.c:173-192 | the format loop takes back a whole sequence, in exactly its bytes, if its readers take back one value wherever it stands |
| IpcMarshal.NumberCodes | aml_socketipc/aml_socketipc.h:79-88 | codes 1 to 8 are i8, u8, i16, u16, i32, u32, i64 and u64: a number is sent in 1, 1, 2, 2, 4, 4, 8 or 8 bytes and arrives unchanged if and only if it is in that type's range |
| IpcMarshal.PointerCodes | aml_socketipc/aml_socketipc.h:79-88 | codes 9 and 10 are sent as four bytes of length, the highest first, and the bytes, of a string with its NUL; a NULL is sent as the length 0, and no other code is packed |
| IpcMarshal.NumberRoundTrip | aml_socketipc/aml_socketipc.c:75-94 | writing a number in big-endian bytes and reading it back gives it modulo 256^n, wherever it stands |
| IpcMarshal.LowIsMod | aml_socketipc/aml_socketipc.c:75-94 | the value of the n lowest bytes is the number modulo 256^n, for negative numbers too |
| IpcMarshal.PackItemExactly | aml_socketipc/aml_socketipc.c:75-107 | an argument is packed if and only if its type is built in, its length is not negative and there is room |
| IpcMarshal.ItemRoundTrip | aml_socketipc/aml_socketipc.c:75-120 | one packed argument is read back with its value and its exact length |
| IpcMarshal.PackedPrefix | aml_socketipc/aml_socketipc.c:144-163 | what is packed is the encoding of the longest run of leading arguments that can be sent and fit, and stays within the length |
| IpcMarshal.InterpretedValue | aml_socketipc/aml_socketipc.c:75-94 | the receiver's variable holds the one value in the range of its type, signed or unsigned, that is the number sent modulo 256^n |
| IpcMarshal.RoundTrip | aml_socketipc/aml_socketipc.c:144-192 | unpacking a packed buffer gives every argument back, numbers as their types hold them and NULL as NULL, and consumes exactly the packed length |
| IpcMarshal.SentIsReceived | aml_socketipc/aml_socketipc.c:144-192 | the arguments arrive as sent if and only if every number is in the range of its type ([-2^(8n-1), 2^(8n-1)) for a signed type of n bytes, [0, 2^(8n)) for an unsigned one) and no buffer is empty but not NULL |
| IpcMarshal.NarrowIntoInt | aml_socketipc/aml_socketipc.h:79-82 | the generated stubs receive numbers of one or two bytes in an int without a first value: such a number arrives as sent if and only if what the int held before agrees with it above those bytes |
| IpcMarshal.CallArrives | aml_socketipc/aml_socketipc.c:411-475 | a packed call header and body are split back at exactly the header's length |
| IpcMarshal.PackNumber | aml_socketipc/aml_socketipc.c:75-84 | the byte loop writes the big-endian number and touches nothing else |
| IpcMarshal.PackPointer | aml_socketipc/aml_socketipc.c:96-107 | writes length and bytes, or refuses and touches nothing |
| IpcMarshal.PackVa | aml_socketipc/aml_socketipc.c:144-163 | the format loop leaves exactly the packed bytes in the buffer and returns their number |
| IpcMarshal.UnpackNumber | aml_socketipc/aml_socketipc.c:86-94 | the byte loop stores the value of the big-endian bytes at the front of a little-endian variable and leaves the rest of the variable |
| IpcMarshal.UnpackPointer | aml_socketipc/aml_socketipc.c:109-120 | reads the length by shifting four bytes, refuses only a negative length that is also too large, and otherwise sets the pointer and returns the length plus four |
| IpcMarshal.NegativeLength | aml_socketipc/aml_socketipc.c:109-120 | a negative length passes for one if and only if it is above -4 and at most the bytes left minus four; then a pointer is stored and fewer bytes are taken than the length field has |
| IpcMarshal.MinusOneTaken | aml_socketipc/aml_socketipc.c:109-120 | four bytes of 0xFF pass for a length of -1, and three bytes are taken |
| IpcMarshal.UnpackVa | aml_socketipc/aml_socketipc.c:173-192 | the format loop reads what the specification reads, for any memory |
| PropertyDb.TrimExactly | aml_property_server/property-db/property-db.cpp:168-184 | trimming takes blanks, tabs, line ends, form feeds and vertical tabs off both ends and nothing else: its result is the one text without any at its ends that the string holds with only such characters around it |
| PropertyDb.TrimIdempotent | aml_property_server/property-db/property-db.cpp:184 | trimming twice is trimming once |
| PropertyDb.AttributeExactly | aml_property_server/property-db/property-db.cpp:68-76 | a key is read-only (or persistent) if and only if it starts with "ro." (or "persist.") and that does not occur in it again |
| PropertyDb.NestedPrefixIsWritable | aml_property_server/property-db/property-db.cpp:70 | "ro.pro.x" is such a key: it is neither read-only nor persistent |
| PropertyDb.SetKeepsRouting | aml_property_server/property-db/property-db.cpp:416-475 | a set only ever adds trimmed keys to the store they are routed to |
| PropertyDb.GetAfterSet | aml_property_server/property-db/property-db.cpp:416-475 | when a set succeeds get returns the trimmed value (or nothing for an empty one) and no other key changes; when it fails nothing changes; and exactly when it succeeds |
| PropertyDb.GetReturnsLastSet | aml_property_server/property-db/property-db.cpp:416-475 | in every run get returns what the last successful set of the key asked for |
| PropertyDb.EventTellsChange | aml_property_server/property-db/property-db.cpp:416-461 | an event is sent if and only if the contents change, and applied to the old contents it gives the new |
| PropertyDb.EventFields | aml_property_server/property-db/property-db.cpp:446-460 | an event names the key, whether it was there before, its old value, and its new value or, for a deletion, the value that went |
| PropertyDb.ReplayGivesContents | aml_property_server/property-db/property-db.cpp:416-475 | replaying all events of any run over the initial contents gives the current temporary and persistent contents |
| PropertyDb.ListExactly | aml_property_server/property-db/property-db.cpp:477-483 | the list holds every entry of the three stores; of a key in several it has the temporary value, or else the persistent one, or else the read-only one |
| PropertyDb.ListAgreesWithGet | aml_property_server/property-db/property-db.cpp:463-483 | for every trimmed key the list shows exactly what get returns |
| PropertyDb.UntrimmedKeyUnreachable | aml_property_server/property-db/property-db.cpp:308-316 | a key the loader stored untrimmed is listed but no get can reach it |
| PropertyDb.RTrim | aml_property_server/property-db/property-db.cpp:176-182 | the scan from the end cuts at the last character that is no white space |
| PropertyDb.LTrim | aml_property_server/property-db/property-db.cpp:168-174 | the scan from the front cuts at the first character that is no white space |
| PropertyDb.InsertAll | aml_property_server/property-db/property-db.cpp:208-214 | inserting all entries of a store keeps what is already there |
| PropertyDb.Database.Notify | aml_property_server/property-db/property-db.cpp:81-86 | every subscriber gets the event, once |
| PropertyDb.Database.SetProperty | aml_property_server/property-db/property-db.cpp:470-475 | stores, result and events are those of the specification, and afterwards every subscriber can still rebuild the contents from what it was told |
| PropertyDb.Database.GetProperty | aml_property_server/property-db/property-db.cpp:463-468 | returns what the specification returns |
| PropertyDb.Database.ListProperties | aml_property_server/property-db/property-db.cpp:477-483 | the loops over the stores build the specified list |
| PropertyDb.Database.Subscribe | aml_property_server/property-db/property-db.cpp:485-489 | a new subscriber starts with no events from the current contents |
| EventTagMap.CountMapLines | liblog/event_tag_map.c:226-258 | the loose scan counts what the specification counts |
| EventTagMap.CountIsDescribed | liblog/event_tag_map.c:226-258 | on every file laid out in lines that the careful pass takes, the loose pass counts the tag lines and one more for every number that has swallowed its line end before a digit |
| EventTagMap.ScanLine | liblog/event_tag_map.c:334-389 | the scan of a tag line yields its number, the place of its name and the end of the line, whatever single byte stands behind the number and first in the name |
| EventTagMap.ParseLaidOut | liblog/event_tag_map.c:263-322 | such a file parses to the entries of its tag lines, unless a number has swallowed a line end before a digit, and then not at all |
| EventTagMap.ParseExactly | liblog/event_tag_map.c:226-322 | for every text: it is accepted with these entries if and only if it is laid out in such lines, with these entries, and no number has swallowed a line end before a digit |
| EventTagText.WellFormedExactly | liblog/event_tag_map.c:285-335 | the lines of the file's own format, character by character: nothing, or '#' and anything, or a number below 2^31, a blank, a name of letters, digits and underscores, and anything behind a blank; the number is the tag's |
| EventTagMap.ParseIsDescribed | liblog/event_tag_map.c:226-322 | every well-formed file is accepted with each tag line's number and name in order, and the loose pass counts exactly these |
| EventTagMap.NumberAloneTakesNextLine | liblog/event_tag_map.c:341-351 | a number that ends its line takes the line behind it for its name; among well-formed lines the file is then accepted if and only if that line does not begin with a digit |
| EventTagMap.LetterBehindNumber | liblog/event_tag_map.c:341-364 | the byte behind a number is overwritten unseen: "12abc" is the tag 12 with the name "bc" |
| EventTagMap.NumberAlone | liblog/event_tag_map.c:341-351 | two inputs: a number alone takes the line "ab" for its name, and is refused before the line "2" |
| EventTagMap.ScanInPlace | liblog/event_tag_map.c:334-389 | on the mapped text: result as specified, the name readable and NUL-terminated at the tag's pointer, the rest of the file untouched |
| EventTagMap.ParseMapLines | liblog/event_tag_map.c:263-322 | on the mapped text: tags in file order, and every name still readable when the pass is over |
| EventTagMap.TwiceInPermutation | liblog/event_tag_map.c:408-425 | equal numbers stay visible in any arrangement of the tags |
| EventTagMap.SortTags | liblog/event_tag_map.c:408-425 | the neighbour check; on a sorted array it fails if and only if two tags of the file have the same number, and otherwise the array is strictly increasing |
| EventTagMap.LookupEventTag | liblog/event_tag_map.c:127-152 | the binary search answers for every int, negative ones included, with the entry of that number or with nothing if there is none |
| EventTagMap.LookupFindsEntry | liblog/event_tag_map.c:127-152 | the answer of a lookup in a rearranged array is the name's place of an entry with that number, and there is one if and only if an entry has the number |
| EventTagMap.DifferentEntries | liblog/event_tag_map.c:408-425 | the tags of a well-formed file repeat a number if and only if two of its lines do |
| EventTagMap.LookupFindsName | liblog/event_tag_map.c:127-152 | on the parsed, sorted map of a well-formed file a lookup answers if and only if a line carries the number, and the C string at its answer is that line's name |
| EventTagMap.Map.ProcessFile | liblog/event_tag_map.c:187-214 | both passes, sort and check: fails when the file does not parse and, for numbers below 2^31, exactly when a number occurs twice; otherwise the array is the file's tags and their names can be read |
| EventTagMap.OpenAndLookup | liblog/event_tag_map.c:69-152 | for every well-formed file the map opens if and only if no two lines carry the same number, and then a lookup finds the name of the line with the number asked for, or nothing if there is none |
| BufferIndex.RunKeepsInv | libbinder/binder/BufferedTextOutput.cpp:108-139 | in every run the free list in the vector is acyclic and disjoint from the held indices, no index goes to two holders, and the vector is as long as the largest number of simultaneous holders |
| BufferIndex.LastFreedFirstReused | libbinder/binder/BufferedTextOutput.cpp:112-139 | the index freed last is handed out next and both the vector and the free list are as before |
| BufferIndex.TextBuffers.AllocBufferIndex | libbinder/binder/BufferedTextOutput.cpp:112-131 | takes the head of the free list or grows the vector, and never returns a held index |
| BufferIndex.TextBuffers.FreeBufferIndex | libbinder/binder/BufferedTextOutput.cpp:133-139 | puts a held index at the head of the free list |

## Left out

- Devices, flash erase and write, MTD queries, sockets, ttys and log drivers: a read or a write is a sequence of bytes, a result code or a nondeterministic choice.
- The shared memory lock of the environment gives up after 1000 tries; it is taken as mutual exclusion. Failures of malloc and mmap, the private area of a system without /dev/shm, and processes that end are not modelled.
- EnvSystem.StepKeepsCoherent: giving the area up is one step, although the count goes down under the lock and the name is removed after it; reads whose CRC matches give images that survive being written back, a process misses fewer than 2^32 saves, and a list that a fifth try has left is not parsed over by an image of one entry (EnvCache.ParseOverExactly says why).
- Environment areas that are not terminated by a NUL are outside the parser's precondition, and plain char is taken as unsigned in the CRC.
- EnvCodec.Layout: null values, which the serializer would hand to sprintf, are not printed.
- DeathNotification.EachLinkReportedOnce: does not cover the destructor (BpBinder.cpp:311-336) or the promotion of the weak references to recipients, because a proxy that dies with registrations left reports nothing.
- LineSplitter.Parent.Copy: the final flush logs an unfinished line even after a truncation marker, as the code does; log_status, signals and the wait for the child are not modelled, and neither is the length limit of the logging macro itself.
- BinaryText.DecimalExactly: "%d" and "%lld" are the only conversions modelled.
- MessageSender.WantsExactly: shifts by more than 31, which C does not define, are those of unbounded numbers.
- BinaryEvent.ProcessBinaryLogBuffer: the buffer has room for the generated tag, as the 1024 bytes of the only caller do.
- LogFormat.FormatLogLine: takes header and footer texts as given (time stamps and widths are not modelled), and messages and texts without NULs.
- UrlMask.NoUrlUncovered: strcasestr and strncasecmp are those of the C locale.
- LogMerge.PrintedInOrder: entries carry stamps since 1970 with nanoseconds below 10^9; for other stamps LogMerge.CmpOrdersExactly says when the comparison is wrong. Headers printed at the first entry of a device, output files and their rotation are left out.
- LogMerge.Reader.ReadReady: a read that would block or is interrupted is an arrival that does not happen and an interrupted turn; fatal read errors end the program and are not modelled.
- NodeList.List.DeleteNodesWithValue: freed nodes are only unlinked; memory is not reused.
- MessageSender.RunKeepsInv: nothing is said of a run once a thread uses a freed node or a NULL tail; the relinking of the client list by a registration or a disconnect is one step. A post is its locked part, at any time after its test for a client. Failed writes are attempts that were made.
- MessageSender.Server.EnqueueServerMsg: the register type, which the server never posts, is not a case.
- Registration.RegistrationArrivesExactly: the client's buffer has room for the printed bitmap, as it has for up to nine characters; atoi is that of a 64-bit long. Epoll and non-blocking header reads are left out.
- IpcMarshal.UnpackVa: an access or a pointer outside the memory given is a result of its own; a string without a NUL in that memory ends with it, and the value of a negative length is not kept.
- IpcMarshal.PackVa: arguments come paired with the format entry they belong to; buffers and strings are shorter than 2^31 - 4 bytes.
- PropertyDb.Database.SetProperty: concurrent sets of one key, between which the lookup and the write are not atomic, are not modelled; reads of the persistent store succeed. Loading the property file, the repair and reopening of the store and unsubscribing are left out.
- PropertyDb.ListAgreesWithGet: assumes the stores are routed as set and the loader leave them.
- EventTagMap.Map.ProcessFile: qsort is any rearrangement that sorts numbers below 2^31; for larger ones the comparison's difference has the wrong sign, and no order is claimed.
- EventTagMap.LookupEventTag: searches the strictly increasing array that the sort leaves.
- EventTagMap.ParseExactly: strtoul is that of a 64-bit unsigned long; a scan that runs past the end of the file is a refusal.
- BufferIndex.TextBuffers.FreeBufferIndex: takes an index that is held, as each destructor frees the index its constructor took. The printing and indenting of BufferedTextOutput are left out.
- A/B slots, boot information, Wi-Fi, USB, key and battery monitors, FOTA, the D-Bus helpers and the command-line tools: straight-line code or copies of what is here.
