# Verified models of the Complex programs

Dafny models of the self-contained algorithms and protocols in this collection of small Linux
programs, with proofs. Each program is a module of its own; code that changes state is modelled by
methods on arrays and objects and proved against functions, and concurrent code by a step machine
whose steps are also the methods of a class. `dafny verify dfyconfig.toml` checks everything.

- **ShellSort** (`shellsort.sh`): the insertion passes with gaps n/3+1, ... , 1 on the array. A pass
  sorts every column of its gap, and sorting the columns of one gap keeps the order of any other.
- **RingBuffer** (`mycp/mycp.c`): producer and consumer on `buf[64]` with two semaphores, every
  statement one step, every interleaving, any capacity. The buffer refines a bounded FIFO queue.
- **Checksum** (`ping/ping.c`): `icmp_cksum` and `icmp_pack` against the one's complement sum of
  RFC 1071, with 32-bit accumulation, both host byte orders and every length.
- **PingTable**, **Statistics**, **PingThreads** (`ping/ping.c`): the table of packets in flight and the
  report. PingTable takes one send and one reply as a step; PingThreads takes every assignment to the
  table as a step and shows which start time a sample is measured from when the two threads interleave.
- **LineReader**, **Framing**, **RequestLine**, **Text** (`httpd/httpd.c`): `get_line`, the request
  line, `drop_header`, the POST scan and the relay of the body, described on the raw byte stream.
- **QueryString**, **Request** (`math_cgi.c` and its siblings): the in-place splitter, and the whole
  way of a form, sent by GET or POST, from the socket to the CGI's arguments.
- **HeapList**, **Handoff** (`cp/listcp.c`): the linked list on a heap with malloc and free, and the
  mutex and condition variable protocol over it, with spurious wakeups.
- **TrailingSpace** (`m_string.h`, `byte_order_generic.h`): both `skip_trailing_space` variants, and the
  byte order functions.

Where the code does something else than intended, the code is modelled and the theorem says exactly
when the intention is met: `Script` (an empty line sorts to "0"), `DropHeaderExact` (a header line of
1023, 2046, ... bytes ends the header), `SamplesAreTrue` (no reply is accepted by a process whose id
does not fit 16 bits), `ReplyKeepsDifference` (a reply is counted although its slot is not in flight),
`SampleIsOwn` and `OvertakenSample` (the flag is cleared before the start time is read),
`ByteOrderIndependent` (odd lengths), `IcmpPack` (a message of fewer than 4 bytes), `PrintRequest`
(a NUL in the stream), `ShortLineFits` and `LongLineMayNotFit` (a query string longer than its
variable), `RoundTrip` (a `=` inside a key or value, or an `&` inside a value).

## Model

| member | source | states |
|---|---|---|
| ShellSort.PassKeepsGapOrder | shellsort.sh:13-31 | an insertion pass with any gap g keeps the order of any gap h the array had before it |
| ShellSort.PassIsDetermined | shellsort.sh:16-30 | the columns' contents and the gap order leave a pass only one result |
| ShellSort.Insert | shellsort.sh:18-29 | one element is shifted down its column: the ordered prefix grows by one and every column keeps its values |
| ShellSort.InsertionPass | shellsort.sh:16-30 | one pass orders every column of its gap and permutes the array within the columns |
| ShellSort.TraceExtends | shellsort.sh:13-31 | after one more pass the array is in the order of its gap and of all gaps used before |
| ShellSort.TraceInOrder | shellsort.sh:13-31 | in a trace the elements of any later array stand in order at the distance of every gap used before |
| ShellSort.GapSequence | shellsort.sh:11-14 | each gap is the rounded-down third of the one before plus 1, starting from the length, and only the last is 1 |
| ShellSort.Sort | shellsort.sh:9-33 | the array ends sorted and a permutation of the input, through passes that each keep all earlier gap orders |
| ShellSort.Script | shellsort.sh:8-35 | the output is a permutation of the words read exactly if there are any; an empty line prints 0 |
| RingBuffer.RunKeepsInvariant | mycp/mycp.c:17-52 | the invariant on semaphores, positions and slots holds after any interleaving |
| RingBuffer.NoFault | mycp/mycp.c:23-39 | buf is never indexed out of bounds although step passes through 64 |
| RingBuffer.FirstInFirstOut | mycp/mycp.c:17-46 | what is consumed and shown is a prefix of what is produced and of the values drawn; unread values are intact and at most n |
| RingBuffer.NoRace | mycp/mycp.c:22-27 | while both threads are between wait and post, the slot written and the slot read differ |
| RingBuffer.TokensConserved | mycp/mycp.c:51-52 | blacksem + datasem + threads inside = n in every reachable state |
| RingBuffer.NoDeadlock | mycp/mycp.c:37-43 | the two threads are never both blocked: one of them can move, and its next turn takes it to another statement |
| RingBuffer.ThreadsGoOn | mycp/mycp.c:20-45 | each statement is followed by the next one of its loop; sem_wait passes exactly if its semaphore is positive |
| RingBuffer.RefinesBoundedQueue | mycp/mycp.c:37-43 | storing enqueues, reading dequeues and no other statement changes the FIFO queue that lies in the buffer |
| RingBuffer.BlockedThreadsAreReleased | mycp/mycp.c:17-46 | a blocked thread would move on within 6 turns of the consumer or 8 of the producer, in any schedule |
| RingBuffer.ValueIsConsumed | mycp/mycp.c:17-46 | a posted value is printed by the consumer, unchanged and at its place, at the latest in its sixth turn for each value up to it, in any schedule |
| RingBuffer.ValueIsProduced | mycp/mycp.c:32-46 | while a slot is free the producer prints one more value within 8 of its turns, in any schedule |
| RingBuffer.DrawnAreRemainders | mycp/mycp.c:38 | the values drawn are the random values of their turns modulo 1234 |
| RingBuffer.Program.constructor | mycp/mycp.c:49-57 | main starts with blacksem = n, datasem = 0 and an empty buffer |
| RingBuffer.Program.ProducerTurn | mycp/mycp.c:32-46 | executes the producer's next statement on the shared buffer and semaphores |
| RingBuffer.Program.ConsumerTurn | mycp/mycp.c:17-29 | executes the consumer's next statement on the shared buffer and semaphores |
| RingBuffer.Schedule | mycp/mycp.c:12-65 | with 64 slots and any schedule the consumer prints a prefix of what the producer prints |
| Checksum.OnesSumRepresents | ping/ping.c:103-117 | the end-around-carry sum is the word sum modulo 65535, and 0 only if all words are 0 |
| Checksum.FoldedIsOnesSum | ping/ping.c:116-119 | for sums below 2^31 two folds give the end-around-carry sum in the low 16 bits |
| Checksum.WordSum | ping/ping.c:101-114 | the signed 32-bit accumulator never overflows, for any length and contents, and is at most 32767*65535 + 0xff00 |
| Checksum.IcmpCksum | ping/ping.c:99-120 | the result is the RFC 1071 checksum of the words, with an odd last byte in the high half, on both byte orders |
| Checksum.LoadOrders | ping/ping.c:105 | a word loaded on hosts of either byte order |
| Checksum.Rfc1071Example | ping/ping.c:99-120 | the example of RFC 1071, section 3 |
| Checksum.StoredChecksumVerifies | ping/ping.c:99-120 | clearing bytes 2-3, storing the checksum there and summing again gives 0, for even and odd lengths from 4 |
| Checksum.WordChangeDetected | ping/ping.c:99-120 | changing one word of a verifying message goes unnoticed exactly for 0x0000 against 0xffff |
| Checksum.WordOrderIndependent | ping/ping.c:103-108 | permuting the words leaves the checksum unchanged (RFC 1071, section 2, part A) |
| Checksum.ByteOrderIndependent | ping/ping.c:103-114 | hosts of both byte orders store the same checksum bytes exactly if the length is even or the last byte 0 (section 2, part B) |
| Checksum.WriteMessage | ping/ping.c:124-133 | lays out type, code, id, seq and data bytes 0, 1, 2, ... and nothing behind them |
| Checksum.IcmpPack | ping/ping.c:122-135 | type 8, code 0, the low 16 bits of pid and seq, the data bytes 0, 1, 2, ..., and a checksum that verifies exactly if the message is at least 4 bytes long |
| PingTable.RttIsFloor | ping/ping.c:83-95 | icmp_tvsub is exact and normalised, and rtt is the floor in milliseconds of the microsecond difference |
| PingTable.Find | ping/ping.c:53-80 | the first slot that is free (for -1) or carries the number, or none |
| PingTable.ToShortWraps | ping/ping.c:186-216 | a counter of type short after ++: congruent modulo 65536 and in range |
| PingTable.SentIsTracked | ping/ping.c:201-216 | a packet goes into the first free slot with its number and time; it is sent untracked exactly if there is none |
| PingTable.EventKeepsInvariant | ping/ping.c:144-216 | each send, each reply and each other packet keeps the table, the counters and the samples consistent with the network |
| PingTable.EveryRunIsAccounted | ping/ping.c:167-216 | for every process id that fits the 16-bit id field and every legal run: numbers in flight are distinct with their own start times, sent = received + in flight + sent while full, and the samples are the true ones |
| PingTable.SamplesAreTrue | ping/ping.c:129-167 | for every process id and legal run, the samples are the true ones exactly if the id fits 16 bits or there was nothing to record |
| PingTable.OwnReplyAccepted | ping/ping.c:129-167 | the id in one of the program's own messages equals its process id exactly if that is between 0 and 65535 |
| PingTable.LargePidIsDeaf | ping/ping.c:129-167 | process 65536 sends id 0 and does not record the answered packet |
| PingTable.ReplyInAnyRun | ping/ping.c:173-186 | a reply to a tracked packet clears its own slot and records the time since its own start; an untracked one changes nothing |
| PingTable.ReplyKeepsDifference | ping/ping.c:68-78 | without run assumptions, a reply keeps sent - received - in flight exactly if it finds no slot or one in flight |
| PingTable.DuplicateReplyIsCounted | ping/ping.c:173-186 | a repeated reply is counted twice |
| PingTable.Ping.FindPacket | ping/ping.c:53-80 | both search loops return the first slot with flag 0 (for -1) or with the number, or none |
| PingTable.Ping.SendPacket | ping/ping.c:200-216 | one turn of the send loop: table, counter and a 64-byte message in the 72-byte buffer that verifies |
| PingTable.Ping.Unpack | ping/ping.c:144-191 | for any length, header, type, id and number: a packet of fewer than 8 bytes, of another type than 0 or with another id changes nothing; an answer updates slot, sample, total and counter |
| PingTable.Ping.Report | ping/ping.c:9-44 | the floor of the loss in percent, 100 exactly if nothing was received; minimum, maximum, average and mean deviation of the samples, or no numbers without samples |
| PingTable.LossInPercent | ping/ping.c:15 | the loss is the floor of the percentage, between 0 and 100, and 100 exactly if nothing was received |
| PingTable.Execute | ping/ping.c:193-260 | running the program on any legal run of sends, replies and foreign packets, with any process id, reaches the state of the run; replies bring back the low 16 bits of the process id |
| PingTable.Session | ping/ping.c:9-44 | the final report of every legal run gives loss, minimum, maximum, average and mean deviation of the true samples; a process id that does not fit 16 bits always gives 100% loss |
| PingThreads.StepKeepsInvariant | ping/ping.c:173-216 | each single assignment of either thread keeps the shared table consistent |
| PingThreads.CountsAreRight | ping/ping.c:173-216 | in every interleaving each packet sent is answered, being handled, in flight or was sent while the table was full |
| PingThreads.ThreadsGoOn | ping/ping.c:173-216 | each assignment of either thread is followed by the next; the sender takes the first slot with flag 0 |
| PingThreads.UntrackedFoundNoSlot | ping/ping.c:53-64 | in every interleaving a packet is untracked only if the search for it found all 128 slots in flight |
| PingThreads.HoldsStartOf | ping/ping.c:177-178 | between clearing a slot and reading its time, the slot holds the time last written there, which is its own packet's exactly as long as the sender has written none |
| PingThreads.SampleIsOwn | ping/ping.c:177-181 | in every interleaving the start time read is the packet's own exactly if the sender did not write a time into the slot in between, and otherwise that of the later packet written last |
| PingThreads.OvertakenSample | ping/ping.c:177-181 | a run that records 0 ms for a packet answered after 1000 ms |
| Statistics.BelowChord | ping/ping.c:38-41 | a sample's distance from the average lies below the chord over the samples' range |
| Statistics.AbsIsDistance | ping/ping.c:38-41 | the distance added for a sample is that to the average, above or below |
| Statistics.TwiceTheExcess | ping/ping.c:38-41 | the distances from the average add up to twice what the samples above it exceed it by |
| Statistics.SpreadBound | ping/ping.c:31-43 | n * mdev is at least max - min, and mdev is 0 exactly if min = max |
| Statistics.ReportBounds | ping/ping.c:25-44 | min <= avg <= max and 0 <= mdev <= (max - min)/2 |
| Statistics.Scan | ping/ping.c:31-42 | the loop finds attained extremes and the sum of the absolute deviations |
| Statistics.CalRtt | ping/ping.c:25-44 | cal_rtt's four figures for 1 to 10000 samples whose sum is all_time: attained extremes, average, and mean deviation with its bounds from above and below |
| Text.SameLetterExact | httpd/httpd.c:146 | the case-insensitive comparison equates exactly the two cases of a letter |
| Text.MethodsExact | httpd/httpd.c:307 | the strings that equal GET or POST up to case, letter by letter |
| Text.IsSpaceExact | httpd/httpd.c:299-325 | the six characters of isspace |
| Text.ReadDecimal | httpd/httpd.c:148 | reading the digits of a number appends them to the number read so far |
| Text.AtoiOfDecimal | httpd/httpd.c:148 | atoi after white space reads back what %d wrote, up to the first other character |
| Text.AtoiOfOther | httpd/httpd.c:148 | atoi takes a plus sign, and gives 0 without digits |
| Text.DecimalDigits | httpd/httpd.c:223 | %d writes decimal digits, the last being the remainder modulo 10, and a minus sign |
| LineReader.Stream.Recv | httpd/httpd.c:63 | takes one byte, or leaves c alone at the end of the stream |
| LineReader.Stream.Peek | httpd/httpd.c:69 | looks at the next byte without taking it |
| LineReader.ReadChar | httpd/httpd.c:63-77 | CRLF and CR become LF; a CR that is the last byte stays |
| LineReader.GetLine | httpd/httpd.c:56-88 | stores the next chunk with its NUL and takes exactly its bytes |
| LineReader.NormaliseNext | httpd/httpd.c:63-79 | one turn of the loop is the positional definition of line-end normalisation |
| LineReader.NormaliseLaws | httpd/httpd.c:63-79 | the equations that determine normalisation: CRLF and CR become LF, a last CR and all else stay |
| LineReader.ChunkIsFirstPiece | httpd/httpd.c:61-87 | a call delivers the normalised stream up to its first LF or the buffer's end, and leaves the rest |
| LineReader.ChunkShape | httpd/httpd.c:61-87 | a result is empty only at end of stream, has LF only as its last character and is short only at an LF or the end |
| LineReader.ReaderNormalises | httpd/httpd.c:56-88 | for every buffer size all results together are the normalised stream |
| LineReader.PrintRequest | httpd/httpd.c:266-278 | the debug handler prints each line up to its first NUL; this is the normalised stream exactly if no NUL arrives |
| Framing.ChunkOfLine | httpd/httpd.c:61-87 | a raw line that fits is delivered whole, of a longer one the first m bytes |
| Framing.DropHeader | httpd/httpd.c:119-126 | takes the bytes of whole chunks up to a bare LF or the end |
| Framing.DropHeaderStops | httpd/httpd.c:119-126 | it stops after the first line whose content is empty or fills its chunks exactly |
| Framing.MultipleExact | httpd/httpd.c:119-126 | a line fills its chunks exactly if its length is a multiple of 1023 |
| Framing.DropHeaderExact | httpd/httpd.c:119-126 | it stops at the end of the header exactly if no header line followed by more input fills its chunks |
| Framing.ScanHeader | httpd/httpd.c:140-150 | for every stream the POST scan takes the bytes that drop_header takes, and returns the last Content-Length among the texts it reads, or -1 |
| Framing.ContentLengthLine | httpd/httpd.c:146 | a line counts exactly if it begins with "Content-Length: " in any case |
| Framing.ScanIsExact | httpd/httpd.c:139-150 | for every stream the texts the scan reads are the header lines, each cut after every m characters |
| Framing.FittingLines | httpd/httpd.c:139-150 | if the header lines fit, these are the lines themselves and the scan stops right after the empty line |
| Framing.Relay | httpd/httpd.c:240-249 | the next content_len raw bytes are written; a short body is filled up with its last byte |
| Framing.ExeCgi | httpd/httpd.c:128-259 | the error code, or the child's environment and standard input, for GET and POST and every stream after the request line |
| Framing.FittingIsServed | httpd/httpd.c:139-249 | if the header lines fit, a POST fails exactly without a length, and a body that is all there is handed over as exactly the announced bytes after the empty line |
| RequestLine.CopyWord | httpd/httpd.c:299-331 | copies a word up to the first white space or the size of its array, and ends it with NUL |
| RequestLine.CutAtMark | httpd/httpd.c:335-347 | cuts the url in place at its first question mark |
| RequestLine.QueryIsShorter | httpd/httpd.c:299-347 | in a GET line at least 6 characters are not part of a query string |
| RequestLine.ShortLineFits | httpd/httpd.c:207-218 | the query string of every GET line of at most 1016 characters fits its variable |
| RequestLine.LongLineMayNotFit | httpd/httpd.c:207-218 | for every greater length there is a line whose query string does not fit |
| RequestLine.PartsReturn | httpd/httpd.c:299-347 | a line composed of method, path and query string is taken apart into these |
| RequestLine.PlainUrlReturns | httpd/httpd.c:335-347 | without a question mark the whole url is the path and the query string is empty |
| RequestLine.PartsAreShort | httpd/httpd.c:282-331 | at most 101 characters of method and 1023 of url are kept |
| RequestLine.HandlerRequest | httpd/httpd.c:282-381 | error 5 exactly without a line, error 6 exactly if the method is neither GET nor POST in any case of letters, and otherwise exe_cgi with the method and query string of the line on the rest of the stream |
| Text.CStringPrefix | httpd/sql_connect/cgi-bin/math_cgi.c:16 | the loop's string ends at the first NUL |
| QueryString.Split | httpd/sql_connect/cgi-bin/math_cgi.c:12-28 | one pointer per '=', just behind it, then NULL; each '&' overwritten and nothing else |
| QueryString.PointersAreArguments | httpd/sql_connect/cgi-bin/math_cgi.c:16-28 | the i-th pointer's C string is the text from the i-th '=' to the next '&' or the end |
| QueryString.OneArgumentPerEquals | httpd/sql_connect/cgi-bin/math_cgi.c:18-23 | there are as many arguments as '=' characters |
| QueryString.CountIsOccurrences | httpd/sql_connect/cgi-bin/math_cgi.c:18 | the number of '=' counted is the number of occurrences |
| QueryString.ArgumentAt | httpd/sql_connect/cgi-bin/math_cgi.c:16-28 | in any string, the argument of a '=' is the text from just after it to the next '&' or the end |
| QueryString.RoundTrip | httpd/sql_connect/insert_info.cpp:16-28 | for all keys and values, parsing k1=v1&...&kn=vn gives v1..vn, empty ones included, exactly if no part contains '=' and no value '&' |
| Request.ReadBody | httpd/sql_connect/cgi-bin/math_cgi.c:53-58 | reads content_len bytes into the buffer and ends them with NUL |
| Request.Collect | httpd/sql_connect/cgi-bin/math_cgi.c:13-30 | what is read through the pointers are the arguments of the string |
| Request.CgiMain | httpd/sql_connect/cgi-bin/math_cgi.c:39-62 | the CGI works on the arguments of QUERY_STRING or of the body that CONTENT_LEN announces |
| Request.HeaderOf | httpd/httpd.c:139-158 | the header of a request with CRLF lines ends at its body, whatever the body is |
| Request.WellFormedIsFramed | httpd/httpd.c:139-249 | the scan of a well-formed request stops at its body and exactly the body is relayed |
| Request.ServeForm | httpd/httpd.c:282-381 | a form sent by POST arrives, from the request line on, as the values that were filled in exactly under the condition of RoundTrip, whatever other headers and later bytes there are |
| Request.ServeQuery | httpd/httpd.c:282-381 | a form sent by GET arrives as the values that were filled in exactly under the condition of RoundTrip, whatever follows the request line |
| HeapList.List.constructor | cp/listcp.c:37-40 | an empty list with its sentinel |
| HeapList.List.AllocNode | cp/listcp.c:22-35 | a new live node |
| HeapList.List.FreeNode | cp/listcp.c:47-54 | a live node is freed; NULL is ignored |
| HeapList.List.EmptyMeansNoContents | cp/listcp.c:42-45 | IsEmpty is emptiness of the list |
| HeapList.List.PushFront | cp/listcp.c:56-61 | conses onto the contents; the chain stays acyclic and consists of the live nodes |
| HeapList.List.PopFront | cp/listcp.c:63-72 | removes and returns the first value and frees its node; nothing on an empty list |
| HeapList.List.Destory | cp/listcp.c:85-93 | ends with every allocated node freed, none twice, and no access after free |
| HeapList.NothingLost | cp/listcp.c:56-72 | over any operations, start + pushed = popped + remaining as multisets |
| HeapList.LastInFirstOut | cp/listcp.c:56-72 | after a push and balanced operations a pop returns the value pushed and restores the list |
| HeapList.Lifetime | cp/listcp.c:22-93 | any operations and then Destory: the popped values are the stack's, and mallocs = frees = 1 + pushes |
| Handoff.RunKeepsInvariant | cp/listcp.c:95-124 | the invariant on lock, positions, list and history holds in every run |
| Handoff.NoLostWakeup | cp/listcp.c:101-121 | a consumer asleep on a non-empty list means that the producer is between its push and its signal |
| Handoff.ListIsProtected | cp/listcp.c:100-120 | mutual exclusion; the list is touched only under the lock and popped only when not empty |
| Handoff.NothingLost | cp/listcp.c:95-124 | every value drawn is pushed, and popped once or still there, in stack order |
| Handoff.NoDeadlock | cp/listcp.c:95-124 | without spurious wakeups some thread can always move, and its next turn takes it to another statement |
| Handoff.ThreadsGoOn | cp/listcp.c:95-124 | each statement is followed by the next one of its loop; the lock is taken exactly if it is free, and a wakeup leads back to the lock |
| Handoff.SleeperIsWoken | cp/listcp.c:101-121 | a consumer asleep on a non-empty list is awake by the producer's third turn, in any schedule |
| Handoff.ConsumerPops | cp/listcp.c:99-107 | while the list is not empty an awake consumer can move whenever the producer is outside its section, and has popped by its fifth move, in any schedule |
| Handoff.ProducerPushes | cp/listcp.c:111-124 | a producer waits only for a consumer that gives up the lock within four moves, and has pushed by its own seventh move, in any schedule |
| Handoff.DrawnAreRemainders | cp/listcp.c:117 | the values drawn are the random values of their turns modulo 1234 |
| Handoff.Program.TakeProducerTurn | cp/listcp.c:111-124 | executes the producer's next statement on the linked list |
| Handoff.Program.TakeConsumerTurn | cp/listcp.c:95-109 | executes the consumer's next statement on the linked list |
| Handoff.Schedule | cp/listcp.c:95-136 | the program on the linked list follows the protocol in every schedule |
| TrailingSpace.LoadOfStore | httpd/sql_connect/lib/include/byte_order_generic.h:56-97 | uint8korr reads back what int8store wrote |
| TrailingSpace.StoreOfLoad | httpd/sql_connect/lib/include/byte_order_generic.h:56-97 | int8store writes back the bytes that uint8korr read |
| TrailingSpace.Int4Store | httpd/sql_connect/lib/include/byte_order_generic.h:83-89 | writes four bytes, low byte first, and nothing else |
| TrailingSpace.Int8Store | httpd/sql_connect/lib/include/byte_order_generic.h:91-97 | writes eight bytes that uint8korr reads as the value |
| TrailingSpace.KorrIsSpaces | httpd/sql_connect/lib/include/m_string.h:323 | uint8korr gives 0x2020202020202020 exactly for eight spaces |
| TrailingSpace.LowByteFirst | httpd/sql_connect/lib/include/byte_order_generic.h:56-69 | uint8korr by the values of the eight places, low byte first |
| TrailingSpace.TrimmedIsUnique | httpd/sql_connect/lib/include/m_string.h:305-306 | the result is the only place with only spaces after it and none just before it |
| TrailingSpace.SkipSpaces | httpd/sql_connect/lib/include/m_string.h:321-326 | a tail of spaces may be skipped at once |
| TrailingSpace.StepBack | httpd/sql_connect/lib/include/m_string.h:308-309 | the last loop steps back over the spaces |
| TrailingSpace.SkipTrailingSpace | httpd/sql_connect/lib/include/m_string.h:318-330 | the 8-byte scan returns what stepping back one space at a time returns |
| TrailingSpace.SkipWords | httpd/sql_connect/lib/include/m_string.h:305-306 | the word loop skips only spaces and loads the words one below the other, each aligned and inside the string, down to the first that is not all spaces or the last whole word |
| TrailingSpace.SkipTrailingSpaceAligned | httpd/sql_connect/lib/include/m_string.h:281-311 | the aligned-word scan returns the same, for every length and address and words of 4 or 8 bytes, and every word it loads is aligned and inside the string |

## Left out

- Sockets, files, pipes, fork and exec, signals, select, sleep and the text that is printed: a connection or pipe is a byte sequence with a cursor, time and rand() are inputs.
- ShellSort.Script: words are integers in plain decimal; the shell's octal reading of leading zeros and its 64-bit range are not modelled.
- RingBuffer.Schedule: sem_wait and sem_post are atomic and the compiler reorders nothing across them; interrupted waits are not modelled.
- PingTable.EveryRunIsAccounted: the process id is below 65536 (SamplesAreTrue and Session say what happens otherwise), sendto succeeds, each reply is to a packet sent and comes once, there are fewer than 32768 sends and at most 10000 recorded replies; `continue` after a failed sendto, which registers the same number again, is not modelled.
- PingThreads.SampleIsOwn: the search for a slot, the structure assignment of a start time and sendto are one step each; the process id is below 65536.
- Statistics.CalRtt: reals instead of doubles, and at least one sample; with none the figures are not numbers, which PingTable.Ping.Report models. PingTable.Ping.Report needs a packet sent, because the loss is an integer division by their number.
- PingTable.Ping.Unpack: icmp_unpack returns no value after recording a reply, which its caller does not notice; the model returns success.
- PingTable.RttIsFloor: differences of 2^31 ms and more, which overflow `rtt`, are not modelled.
- Checksum.IcmpPack: lengths above 255, for which the loop over an unsigned char does not end.
- Framing.ExeCgi: the response; pipe and fork succeed, and the child's output is only passed on. The variables must fit their arrays (128 and 1024 characters), which the source does not check; for GET see RequestLine.ShortLineFits.
- RequestLine.HandlerRequest: the look-up of the path, and urls that are not CGI programs; first lines that do not end within the buffer or name no url, for which the source reads past the line.
- Request.ServeForm: values with NUL, where the CGI stops reading; CgiMain covers them.
- Text.AtoiOfDecimal: numbers beyond the range of int.
- QueryString.Split: more '=' than the pointer array holds, which the source does not check.
- Request.CgiMain: a body longer than 1023 bytes, which overruns the CGI's buffer, and the arithmetic that math_cgi prints; the database calls of the sibling programs.
- HeapList.List.AllocNode: malloc returning NULL, on which the program exits, and address reuse by malloc.
- ShowList, which prints the list from the sentinel on.
- Handoff.NoDeadlock: fairness of the mutex is not assumed, so the consumer may be overtaken for any length of time.
- The x86 form of uint8korr, one unaligned load of the same value, and the 2-, 3-, 5- and 6-byte functions.
- MsgQueue, tcp, tcp_mul, tcp_thread, signal, pipe.c, bar, add.sh, maxmin.sh and my_shell.c: system calls around little logic, or a simpler form of the splitter.
- The other MySQL headers: declarations, tables and wrappers.
