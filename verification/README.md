# Verified model of the wombat network projects

The repository holds four student network programs: chiTCP, a TCP implementation in user space with
its list and buffer libraries; a simple router with its ARP cache and a SHA-1; and chirc, an IRC
server.  This project models their data structures, protocols and arithmetic in Dafny 4.11 and
proves what they are for.

| files | model |
|---|---|
| SimcList, ListSort, ListConcat, ListDump | the doubly linked list: nodes in the heap, `mid`, spare nodes, positional lookup, range delete, concat, quicksort by data swaps, dump and restore |
| FindPosFloat | the single-precision arithmetic with which the list chooses where to start looking for a position |
| Tcp, TcpSocket | the sequence-space engine: functions on a transmission control block, and the same on fields updated in place |
| TcpOrder, TcpSend, TcpNet | runs of one socket against any segments; one call of send_all; two sockets and two FIFO links |
| TcpWindow, TcpAck, TcpLoss | the runs of two sockets on which nothing is refused, all is delivered and all is acknowledged; a run on which it is not |
| TcpCross, TcpClose | the arrows between the states; simultaneous opening, and closing, as far as they go between two sockets of this kind |
| CircularBuffer | the blocking ring buffer, with a writer that can sleep half way, a reader that can sleep, closes at any instant and a lock that can be lost, and the byte queue it is |
| Sha1, Sha1Known | FIPS PUB 180-1 and the octet-at-a-time implementation; the standard's known answer |
| Checksum, RouteSearch | the Internet checksum, the longest prefix match |
| ArpLedger, ArpRuns, ArpCache | the ARP cache and request queue with a ledger, and what a router sees of them |
| ChircTables, Chirc, ChircNicks | the two copies of channel membership, the commands that change them, and whom a MODE means |
| SocketLookup, PacketQueue, PacketArrival | the daemon's choice of a socket; packets handed from receiving threads to the TCP thread; when it is woken for none |
| Common, Runs | 32-bit arithmetic, octets and keyed search; runs of state machines |

Code that updates memory is modelled by classes and methods: the list by node objects with `prev`
and `next`, the ring and the SHA-1 context by arrays and index fields, the socket, the ARP queue and
the chirc lists by fields.  Each method is proved against a function of the old state or against the
sequence it stands for, and the theorems about whole runs are about those functions.  Threads are
modelled by their atomic steps: a region under a lock is one step, ending at each wait, and what is
done without the lock may come before it, after it or, as the close of a buffer, in the middle.

Where the code does not do what its own documentation or a standard asks, the code is modelled as it
is, one lemma says exactly when it does and another gives an input for which it does not:

| what fails | exactly when | an input |
|---|---|---|
| list_findpos reaches the position asked for | `FindPosFloat.FindPosIff` (then `InsertIff`, `DeleteIff`) | `FindPosFloat.FindPosExample` |
| restore is the inverse of dump | `DumpFormat.RoundTripIff` | `DumpFormat.RoundTripExample` |
| the two dump paths write the same | `DumpFormat.WasteIffGuessBreaks` | `DumpFormat.WasteExample` |
| send_all stays in the peer's window | `TcpSend.WindowKeptExactly` | `TcpSend.OverrunReached` |
| data in order is accepted and delivered | `TcpNet.DataRefusedIff`; never refused: `TcpWindow.CarefulRunMoves` | `TcpLoss.DeliveryFails` |
| a simultaneous opening establishes | never: `TcpCross.CrossedNeverEstablishes` | `TcpCross.ConnectsCross` |
| a FIN is heeded | `TcpClose.FinHeededIff` | every CLOSE of a peer of the same kind: `TcpClose.CloseGoesUnheard` |
| a blocked write returns at close | `ByteQueue.CloseWakesWriterIff` | `ByteQueue.CloseExample` |
| a blocked read returns at close | `ByteQueue.CloseWakesReaderIffNotEmpty` | `ByteQueue.CloseReaderExample` |
| a call releases the buffer's lock | `ByteQueue.LockLostIff` | `ByteQueue.LockLossExample`, `ByteQueue.LockRaceExample` |
| set_seq_initial sets the counters | `CircularBuffer.Buffer.SetSeqInitial` | `CircularBuffer.CountGoesWrong` |
| a forwarded header verifies | `Checksum.SwappedVerifiesIff` | `Checksum.SwappedExample` |
| a lookup gives the MAC of the last reply | `ArpRuns.LookupAfterReplyIff` | `ArpCache.OldEntryWins` |
| MODE changes the member named | `ChircNicks.ModeChangesNamedIff` | `ChircNicks.StaleNick` |
| an arrival event has a packet | `PacketArrival.ArrivalFindsNothingIff` | `PacketQueue.ArrivalMayFindNothing` |

Run `dafny verify dfyconfig.toml` in this directory.

## Model

| member | source | states |
|---|---|---|
| SimcList.List.constructor | cmsc23300-2014-wombat/chitcp/src/simclist/simclist.c:264-298 | a new list is well formed and empty, with no spares and no iteration |
| SimcList.List.Init | cmsc23300-2014-wombat/chitcp/src/simclist/simclist.c:264-298 | whatever the list held, it is well formed and empty afterwards, on fresh nodes |
| SimcList.List.FindPos | cmsc23300-2014-wombat/chitcp/src/simclist/simclist.c:433-457 | from whichever of the four starting points, the node the plain walk from the head reaches, for every position from -1 to numels, the empty list included, and NULL outside |
| FindPosFloat.FindPosIff | cmsc23300-2014-wombat/chitcp/src/simclist/simclist.c:433-457 | in single precision the walk ends at the position asked for unless that lies before the middle and twice its place rounds to the rounded count |
| FindPosFloat.FindPosWithin24Bits | cmsc23300-2014-wombat/chitcp/src/simclist/simclist.c:433-457 | so it always does in lists of at most 2^24 elements |
| FindPosFloat.FindPosExample | cmsc23300-2014-wombat/chitcp/src/simclist/simclist.c:442-451 | with 2^25 + 1 elements the walk to position 2^24 - 1 ends one further on, at the middle |
| FindPosFloat.InsertIff | cmsc23300-2014-wombat/chitcp/src/simclist/simclist.c:502-519 | an insertion puts the entry where it should be, and mid in the middle, unless the search is misled; then both are wrong by what is stated |
| FindPosFloat.DeleteIff | cmsc23300-2014-wombat/chitcp/src/simclist/simclist.c:549-553 | a deletion takes out the element asked for unless the search is misled; then it takes the middle one, and with an odd count mid stays at the entry that is gone |
| FindPosFloat.FloatMonotone | cmsc23300-2014-wombat/chitcp/src/simclist/simclist.c:441 | rounding a count to 24 bits keeps the order |
| FindPosFloat.FloatDoubles | cmsc23300-2014-wombat/chitcp/src/simclist/simclist.c:441 | and commutes with doubling |
| FindPosFloat.Gap | cmsc23300-2014-wombat/chitcp/src/simclist/simclist.c:441 | two rounded counts differ by at least one part in 2^24, so no quotient below 1/2 is rounded up to it |
| FindPosFloat.TiesToEven | cmsc23300-2014-wombat/chitcp/src/simclist/simclist.c:441 | of two floats equally near, the one with an even last bit is taken, as IEEE 754 has it |
| SimcList.LinkBetween | cmsc23300-2014-wombat/chitcp/src/simclist/simclist.c:501-508 | four pointer writes leave a two-way chain with the entry in between and every other link as it was |
| SimcList.CutLinks | cmsc23300-2014-wombat/chitcp/src/simclist/simclist.c:613-614 | two pointer writes take a whole stretch out and leave a two-way chain |
| SimcList.InsertedCarries | cmsc23300-2014-wombat/chitcp/src/simclist/simclist.c:477-524 | the data along the chain with an entry put in is the sequence with its datum put in |
| SimcList.CutCarries | cmsc23300-2014-wombat/chitcp/src/simclist/simclist.c:560-621 | the data along the chain without a stretch is the sequence without that slice |
| SimcList.InsertedDistinct | cmsc23300-2014-wombat/chitcp/src/simclist/simclist.c:477-524 | no entry sits in the chain twice after an insertion |
| SimcList.CutDistinct | cmsc23300-2014-wombat/chitcp/src/simclist/simclist.c:560-621 | no entry sits in the chain twice after a removal |
| SimcList.CutAway | cmsc23300-2014-wombat/chitcp/src/simclist/simclist.c:600-614 | an entry taken out is nowhere in what is left, so it may become a spare |
| SimcList.List.NewEntry | cmsc23300-2014-wombat/chitcp/src/simclist/simclist.c:482-499 | an insertion takes the last spare, or a new node if there is none; either way it is in no chain and no longer a spare |
| SimcList.List.FixMidAfterInsert | cmsc23300-2014-wombat/chitcp/src/simclist/simclist.c:512-519 | after the parity fix mid is at index (numels-1)/2 of the longer chain |
| SimcList.MidIsCentral | cmsc23300-2014-wombat/chitcp/src/simclist/simclist.c:1506-1510 | with mid at index (numels-1)/2 as many elements stand before it as after it, or one less |
| SimcList.List.InsertAt | cmsc23300-2014-wombat/chitcp/src/simclist/simclist.c:477-524 | refuses a bad position or an iterated list and changes nothing; else the list is the old one with the datum at pos, well formed, mid in the middle, a spare used up if there was one, the others apart |
| SimcList.List.FixMidBeforeDrop | cmsc23300-2014-wombat/chitcp/src/simclist/simclist.c:1391-1398 | mid is moved to where the middle will be once the element is gone |
| SimcList.List.DropElem | cmsc23300-2014-wombat/chitcp/src/simclist/simclist.c:1388-1414 | one element less, mid in the middle of what is left, at most five spares, none of them in the chain |
| SimcList.List.ExtractAt | cmsc23300-2014-wombat/chitcp/src/simclist/simclist.c:459-475 | returns the element at pos and the list without it, or NULL and the list unchanged |
| SimcList.List.DeleteAt | cmsc23300-2014-wombat/chitcp/src/simclist/simclist.c:542-558 | the list without the element at pos, or -1 and the list unchanged |
| SimcList.List.MoveMid | cmsc23300-2014-wombat/chitcp/src/simclist/simclist.c:578-583 | mid ends up exactly dx entries to the right, or to the left if dx is negative |
| SimcList.List.FixMidBeforeRange | cmsc23300-2014-wombat/chitcp/src/simclist/simclist.c:573-583 | before a slice goes, mid is where the middle will be without it |
| SimcList.List.SpareRange | cmsc23300-2014-wombat/chitcp/src/simclist/simclist.c:600-609 | the deleted nodes fill the spare slots while there is room and no further, and are all passed over |
| SimcList.List.DeleteRange | cmsc23300-2014-wombat/chitcp/src/simclist/simclist.c:560-621 | the list without the slice and the number of deleted elements, or -1 and the list unchanged; well formed either way, the spares filled up to five |
| SimcList.List.Clear | cmsc23300-2014-wombat/chitcp/src/simclist/simclist.c:623-667 | an empty well formed list and the old size, or -1 during an iteration; the spares filled up to five, apart from each other and the chain |
| SimcList.FiveSparesAtMost | cmsc23300-2014-wombat/chitcp/src/simclist/simclist.c:600-609 | however many nodes come free, five are kept |
| ListSort.PreorderOrders | cmsc23300-2014-wombat/chitcp/src/simclist/simclist.c:766-775 | a comparator that is a total preorder makes the tests against zero a preorder in the direction asked for |
| ListSort.PermWithin | cmsc23300-2014-wombat/chitcp/src/simclist/simclist.c:815-936 | rearranging a stretch brings in no new datum |
| ListSort.SwapData | cmsc23300-2014-wombat/chitcp/src/simclist/simclist.c:860-863 | exchanging the data of two entries changes the sequence at these two places and no link |
| ListSort.FindNext | cmsc23300-2014-wombat/chitcp/src/simclist/simclist.c:804-806 | the entry chosen is a smallest of the rest in the order asked for |
| ListSort.SelectionSort | cmsc23300-2014-wombat/chitcp/src/simclist/simclist.c:794-813 | the stretch is a sorted permutation of what it was and nothing outside it changes |
| ListSort.ScanLeft | cmsc23300-2014-wombat/chitcp/src/simclist/simclist.c:855-856 | stops at the first datum that belongs after the pivot, or at the pivot |
| ListSort.ScanRight | cmsc23300-2014-wombat/chitcp/src/simclist/simclist.c:857-858 | stops at the last datum that belongs before the pivot, or at the pivot |
| ListSort.Converge | cmsc23300-2014-wombat/chitcp/src/simclist/simclist.c:850-868 | ends with one cursor at the pivot and everything passed on its side of it |
| ListSort.PivotDown | cmsc23300-2014-wombat/chitcp/src/simclist/simclist.c:873-879 | the pivot moves down by one with its datum, and pivotid with it |
| ListSort.PivotUp | cmsc23300-2014-wombat/chitcp/src/simclist/simclist.c:887-894 | the pivot moves up by one with its datum, and pivotid with it |
| ListSort.CloseLeft | cmsc23300-2014-wombat/chitcp/src/simclist/simclist.c:871-884 | everything left of where the pivot ends up belongs there, and pivotid is its offset from fel |
| ListSort.CloseRight | cmsc23300-2014-wombat/chitcp/src/simclist/simclist.c:885-900 | everything right of where the pivot ends up belongs there, and pivotid is its offset from fel |
| ListSort.FindPivot | cmsc23300-2014-wombat/chitcp/src/simclist/simclist.c:843-848 | from the nearer end, the entry at offset pivotid |
| ListSort.Partition | cmsc23300-2014-wombat/chitcp/src/simclist/simclist.c:840-900 | for every random pivot: a permutation of the stretch, split around the entry returned, whose offset from fel is pivotid |
| ListSort.SidesKeepSplit | cmsc23300-2014-wombat/chitcp/src/simclist/simclist.c:933-934 | sorting either side leaves the other side, the pivot and the split as they are |
| ListSort.SortedAroundPivot | cmsc23300-2014-wombat/chitcp/src/simclist/simclist.c:902-936 | two sorted sides around the pivot make a sorted stretch |
| ListSort.QuickSort | cmsc23300-2014-wombat/chitcp/src/simclist/simclist.c:815-936 | terminates, and leaves a sorted permutation of the stretch, with every link as it was |
| ListSort.Sort | cmsc23300-2014-wombat/chitcp/src/simclist/simclist.c:766-775 | for every total preorder, direction and choice of pivots the data are a sorted permutation; links, mid and count are not even written |
| ListSort.SortedInOrder | cmsc23300-2014-wombat/chitcp/src/simclist/simclist.c:766-775 | sorted by the tests against zero is ascending or descending as versus says |
| ListConcat.CopyElems | cmsc23300-2014-wombat/chitcp/src/simclist/simclist.c:728-747 | the chain under construction grows by the whole of a source list, which keeps its chain |
| ListConcat.CloseChain | cmsc23300-2014-wombat/chitcp/src/simclist/simclist.c:748-749 | tying on the tail sentinel makes a well formed chain of the same data |
| ListConcat.CenterMid | cmsc23300-2014-wombat/chitcp/src/simclist/simclist.c:751-759 | for all sizes, halving the signed difference towards zero lands mid exactly in the middle |
| ListConcat.Concat | cmsc23300-2014-wombat/chitcp/src/simclist/simclist.c:713-764 | refuses NULL and dest as a source, changing nothing; else dest is well formed, on fresh nodes, with l1's data followed by l2's, also when l1 is l2 |
| DumpFormat.SameAsFirst | cmsc23300-2014-wombat/chitcp/src/simclist/simclist.c:1155-1156 | where the guess of a constant length breaks |
| DumpFormat.ConstantTotal | cmsc23300-2014-wombat/chitcp/src/simclist/simclist.c:1153-1154 | elements of one length have number times length octets |
| DumpFormat.StoredReads | cmsc23300-2014-wombat/chitcp/src/simclist/simclist.c:1277-1322 | elements stored bare at one length, or each after four octets of its length, are read back in order with the count of their octets |
| DumpFormat.HeaderReads | cmsc23300-2014-wombat/chitcp/src/simclist/simclist.c:1239-1274 | the eight fields of a written header are read back as they were |
| DumpFormat.ConstantExample | cmsc23300-2014-wombat/chitcp/src/simclist/simclist.c:1198-1212 | the octets of a dump of two elements of two octets, one by one: version 1, seven numbers in network order, the elements, the terminator |
| DumpFormat.PrefixedExample | cmsc23300-2014-wombat/chitcp/src/simclist/simclist.c:1169-1174 | the octets of two elements of different length: each after its length in the host's order and what lies above it |
| DumpFormat.OtherVersion | cmsc23300-2014-wombat/chitcp/src/simclist/simclist.c:1239-1246 | a file that does not begin with version 1 is refused |
| DumpFormat.AcceptedIff | cmsc23300-2014-wombat/chitcp/src/simclist/simclist.c:1324-1345 | of files that store elements as their header says: accepted exactly if nothing follows the last word and the total is right or that word is not the header's terminator, so an altered terminator excuses a wrong total |
| DumpFormat.RoundTripIff | cmsc23300-2014-wombat/chitcp/src/simclist/simclist.h:735-752 | restore is the inverse of dump exactly for empty lists, lists of one nonzero length, and, where size_t has four octets, lists whose dump holds no abandoned pass |
| DumpFormat.RoundTrip | cmsc23300-2014-wombat/chitcp/src/simclist/simclist.h:735-752 | such a list comes back from its dump, and is refused if anything follows the dump |
| DumpFormat.RoundTripExample | cmsc23300-2014-wombat/chitcp/src/simclist/simclist.c:1172 | elements of one and of two octets, dumped with lengths of eight octets, do not come back |
| DumpFormat.PrefixedLength | cmsc23300-2014-wombat/chitcp/src/simclist/simclist.c:1169-1174 | what the prefixed pass writes: for each element its octets and sizeof(size_t) more |
| DumpFormat.WasteIffGuessBreaks | cmsc23300-2014-wombat/chitcp/src/simclist/simclist.c:1183-1193 | the path that does not go back in the file writes something else than the one that does exactly if a nonzero guess of the length breaks |
| DumpFormat.WasteExample | cmsc23300-2014-wombat/chitcp/src/simclist/simclist.c:1183-1193 | elements of one and of two octets: the first is in the file twice |
| ListDump.PrefixesTakeRoom | cmsc23300-2014-wombat/chitcp/src/simclist/simclist.c:1159-1167 | the second pass writes over all the first one left |
| ListDump.File.WriteHeader | cmsc23300-2014-wombat/chitcp/src/simclist/simclist.c:1209-1220 | the header goes over the first thirty octets and touches no other |
| ListDump.WriteElement | cmsc23300-2014-wombat/chitcp/src/simclist/simclist.c:1152-1176 | one turn of the loop either adds the element to the file or starts again, for good, with size prefixes |
| ListDump.WriteElements | cmsc23300-2014-wombat/chitcp/src/simclist/simclist.c:1147-1199 | the loop terminates for any element lengths and starts again once if a nonzero guess breaks, else never |
| ListDump.Dump | cmsc23300-2014-wombat/chitcp/src/simclist/simclist.c:1083-1229 | the exact octets of the file for any element lengths and whatever the file held, whose octets beyond the dump stay; one restart exactly if a nonzero guess breaks; on the meter path the octets of the abandoned pass stay in the file; the length reported is 32 plus the octets of the elements modulo 2^32 |
| ListDump.ShortStays | cmsc23300-2014-wombat/chitcp/src/simclist/simclist.c:1281-1296 | a file too short for some element is too short for all that are announced |
| ListDump.ReadInto | cmsc23300-2014-wombat/chitcp/src/simclist/simclist.c:1277-1322 | the elements of the file are appended in order and their octets counted in 32 bits, or the read fails exactly when the file is too short, and those read before stay on the list |
| ListDump.Restore | cmsc23300-2014-wombat/chitcp/src/simclist/simclist.c:1231-1353 | for every file, success exactly if it parses; then its elements, of one length or of many, are at the end of the list and the file is used up; on failure the list still begins with what it held |
| ListDump.DumpThenRestore | cmsc23300-2014-wombat/chitcp/src/simclist/simclist.h:735-752 | a list for which restore is the inverse of dump, dumped into a file and restored into an empty list, comes back, and the whole file is read, if and only if the file was no longer than the dump |
| TcpOrder.SendLoopAdvances | cmsc23300-2014-wombat/chitcp/src/chitcpd/tcp.c:633-657 | sending never moves SND.NXT back and leaves SND.UNA alone |
| TcpOrder.ArrivalLoopAdvances | cmsc23300-2014-wombat/chitcp/src/chitcpd/tcp.c:286-311 | whatever segments are pending, SND.UNA only advances and stays at or below SND.NXT |
| TcpOrder.StepAdvances | cmsc23300-2014-wombat/chitcp/src/chitcpd/tcp.c:116-553 | every event in every state, teardown included, keeps ISS <= SND.UNA <= SND.NXT and moves neither back |
| TcpOrder.RunSane | cmsc23300-2014-wombat/chitcp/src/chitcpd/tcp.c:116-553 | on every run with any segments, a live socket has ISS <= SND.UNA <= SND.NXT |
| TcpOrder.RunAdvances | cmsc23300-2014-wombat/chitcp/src/chitcpd/tcp.c:116-553 | between any two moments of a socket's life neither SND.UNA nor SND.NXT has decreased (RFC 793, section 3.3) |
| TcpSend.TilesLength | cmsc23300-2014-wombat/chitcp/src/chitcpd/tcp.c:647 | the sequence numbers advance by the number of payload bytes |
| TcpSend.SendLoopSends | cmsc23300-2014-wombat/chitcp/src/chitcpd/tcp.c:633-657 | from any state in range the loop's segments tile a prefix of the send stream, 1 to 536 bytes each, and SND.NXT + SND.WND is conserved |
| TcpSend.FullSegments | cmsc23300-2014-wombat/chitcp/src/chitcpd/tcp.c:630-653 | every segment but the last carries 536 bytes, or num_allowed if that is less |
| TcpSend.SendAllSends | cmsc23300-2014-wombat/chitcp/src/chitcpd/tcp.c:622-659 | the same for send_all, and exactly how many bytes go: all that wait or the whole window, or none if nothing is allowed |
| TcpSend.WindowKeptExactly | cmsc23300-2014-wombat/chitcp/src/chitcpd/tcp.c:630-653 | no byte goes past the right edge of the window at entry if and only if nothing is allowed or what will go is at most num_allowed, which the loop does not lower |
| TcpSend.WindowKeptWhenIdle | cmsc23300-2014-wombat/chitcp/src/chitcpd/tcp.c:622-659 | with nothing in flight at entry no byte goes past SND.UNA plus the entry SND.WND |
| TcpSend.WindowCanBeOverrun | cmsc23300-2014-wombat/chitcp/src/chitcpd/tcp.c:630-653 | with 500 bytes in flight in a window of 600, 200 waiting bytes go 100 past the edge |
| TcpSend.OverrunReached | cmsc23300-2014-wombat/chitcp/src/chitcpd/tcp.c:622-659 | a run of writes, sends and one partial ACK, from a fresh connection, ends with 104 bytes past the right edge of the peer's window |
| TcpNet.SentKeeps | cmsc23300-2014-wombat/chitcp/src/chitcpd/tcp.c:622-659 | sending moves bytes from the buffer to the wire: none lost, none doubled, numbers unbroken |
| TcpNet.WriteSomeKeeps | cmsc23300-2014-wombat/chitcp/src/chitcpd/tcp.c:603-612 | a write that fills the receive buffer and waits loses no byte |
| TcpNet.SegmentKeeps | cmsc23300-2014-wombat/chitcp/src/chitcpd/tcp.c:298-303 | an acceptable segment in order is consumed once and its ACK tells the truth |
| TcpNet.ArrivalKeeps | cmsc23300-2014-wombat/chitcp/src/chitcpd/tcp.c:286-311 | so does the whole loop over pending packets, up to a wait or a refusal |
| TcpNet.ConnectStarts | cmsc23300-2014-wombat/chitcp/src/chitcpd/tcp.c:119-141 | a connect puts one SYN in flight |
| TcpNet.ListenAnswers | cmsc23300-2014-wombat/chitcp/src/chitcpd/tcp.c:157-196 | the SYN turns the listener's side to SYN_RCVD with one SYN-ACK in flight |
| TcpNet.SynSentAnswers | cmsc23300-2014-wombat/chitcp/src/chitcpd/tcp.c:234-253 | the SYN-ACK establishes the connecting side with its ACK in flight |
| TcpNet.SynRcvdAnswers | cmsc23300-2014-wombat/chitcp/src/chitcpd/tcp.c:207-214 | the ACK establishes the other side with both streams unbroken |
| TcpNet.StepKeeps | cmsc23300-2014-wombat/chitcp/src/chitcpd/tcp.c:116-311 | every step of either socket, application or link keeps the phase invariant of handshake and data transfer |
| TcpNet.RunKeeps | cmsc23300-2014-wombat/chitcp/src/chitcpd/tcp.c:116-311 | so does every run that refuses no data segment |
| TcpNet.RunDelivers | cmsc23300-2014-wombat/chitcp/src/chitcpd/tcp.c:281-311 | on every such run, what the receiver has been given is a prefix of what was written, both ways |
| TcpNet.RunConserves | cmsc23300-2014-wombat/chitcp/src/chitcpd/tcp.c:281-311 | once established, RCV.NXT plus the payload bytes in flight is the peer's SND.NXT, every written byte is in exactly one place, and no byte is acknowledged that is not in the peer's buffer |
| TcpNet.DataRefusedIff | cmsc23300-2014-wombat/chitcp/src/chitcpd/tcp.c:556-573 | the next data segment in order is refused exactly if RCV.WND is 0 or RCV.NXT + RCV.WND passes 2^32, as it does once use_data has taken more than there was |
| TcpNet.RefusalLosesBytes | cmsc23300-2014-wombat/chitcp/src/chitcpd/tcp.c:288-296 | the bytes of a refused segment are then neither read, buffered, in flight nor waiting to be sent |
| TcpAck.AcceptableIffOverlaps | cmsc23300-2014-wombat/chitcp/src/chitcpd/tcp.c:565-571 | RFC 793, section 3.3: a segment with data, SYN or FIN is acceptable exactly if part of it lies in the window, unless the window lies inside it apart from both its ends |
| TcpAck.EmptyAcceptableIff | cmsc23300-2014-wombat/chitcp/src/chitcpd/tcp.c:557-564 | a segment with nothing in it is acceptable at RCV.NXT, whatever the window, or anywhere in it |
| TcpAck.WrappedRefusesAll | cmsc23300-2014-wombat/chitcp/src/chitcpd/tcp.c:556-573 | once RCV.NXT + RCV.WND passes 2^32 nothing is acceptable |
| TcpAck.DataTaken | cmsc23300-2014-wombat/chitcp/src/chitcpd/tcp.c:603-612 | data that fits goes into the buffer in order, at most 4096 bytes; RCV.NXT and RCV.WND move by its length and the ACK that goes back carries both |
| TcpAck.DataWaits | cmsc23300-2014-wombat/chitcp/src/chitcpd/tcp.c:603-612 | data that does not fit fills the buffer and waits with the rest, and nothing is acknowledged before it is all in |
| TcpAck.DataDiscarded | cmsc23300-2014-wombat/chitcp/src/chitcpd/tcp.c:603-612 | after a CLOSE data is thrown away and not acknowledged |
| TcpAck.AckRefusedIff | cmsc23300-2014-wombat/chitcp/src/chitcpd/tcp.c:557-564 | on a link between two sockets of this kind the next pure ACK is refused exactly if the window passes 2^32; a closed window takes it |
| TcpAck.AckAdvances | cmsc23300-2014-wombat/chitcp/src/chitcpd/tcp.c:614-616 | from the run invariant: an ACK of anything new, of all that was sent too, becomes SND.UNA and brings SND.WND; no other does |
| TcpAck.SegmentTold | cmsc23300-2014-wombat/chitcp/src/chitcpd/tcp.c:298-303 | processing a segment keeps: the newest ACK on its way from a side, or the last one taken, is its RCV.NXT |
| TcpAck.StepInformed | cmsc23300-2014-wombat/chitcp/src/chitcpd/tcp.c:116-311 | so does every step of two careful senders, handshake included |
| TcpAck.CarefulRunAcknowledges | cmsc23300-2014-wombat/chitcp/src/chitcpd/tcp.c:116-311 | on every run of careful senders, when nothing is in flight SND.UNA is SND.NXT and the peer's RCV.NXT, both ways |
| TcpClose.SegmentArrow | cmsc23300-2014-wombat/chitcp/src/chitcpd/tcp.c:347-545 | the next state in each of the six synchronized states by FIN and new ACK: the arrows of RFC 793, figure 6, but that FIN_WAIT_1 never leads to TIME_WAIT |
| TcpClose.FinCloses | cmsc23300-2014-wombat/chitcp/src/chitcpd/tcp.c:596-601 | a FIN with ACK, and nothing else, closes the receive buffer; RCV.NXT becomes its number and is acknowledged |
| TcpClose.FinHeededIff | cmsc23300-2014-wombat/chitcp/src/chitcpd/tcp.c:298-308 | in ESTABLISHED an acceptable FIN is heeded if and only if it comes with ACK; without, it leaves no trace |
| TcpClose.FullBufferStops | cmsc23300-2014-wombat/chitcp/src/chitcpd/tcp.c:286-288 | with a full receive buffer the handlers that take data wait, and the other three go on |
| TcpClose.PayloadIgnored | cmsc23300-2014-wombat/chitcp/src/chitcpd/tcp.c:446-545 | the handlers of CLOSE_WAIT, CLOSING and LAST_ACK pass over data |
| TcpClose.CloseSends | cmsc23300-2014-wombat/chitcp/src/chitcpd/tcp.c:317-339 | CLOSE sends what the window allows, in segments that tile it, then a FIN without ACK at SND.NXT, and closes the buffers |
| TcpClose.Unserved | cmsc23300-2014-wombat/chitcp/src/chitcpd/tcp.c:116-553 | events that a state does not serve change nothing |
| TcpClose.WritesIff | cmsc23300-2014-wombat/chitcp/src/chitcpd/handlers.c:908-909 | the application may write in SYN_SENT, SYN_RCVD, ESTABLISHED and CLOSE_WAIT, as much as 4096 bytes hold |
| TcpClose.CloseGoesUnheard | cmsc23300-2014-wombat/chitcp/src/chitcpd/tcp.c:317-339 | on every run of two sockets, with closes, refusals and any windows, neither side ever hears of the other's CLOSE: its FIN has no ACK and is passed over |
| TcpCross.ListenArrow | cmsc23300-2014-wombat/chitcp/src/chitcpd/tcp.c:154-190 | a SYN in LISTEN is answered with SYN and ACK; every send and receive variable afterwards |
| TcpCross.SynSentArrow | cmsc23300-2014-wombat/chitcp/src/chitcpd/tcp.c:227-273 | SYN_SENT by SYN, ACK and its number: established, SYN_RCVD or no change, with the answer sent |
| TcpCross.SynRcvdArrow | cmsc23300-2014-wombat/chitcp/src/chitcpd/tcp.c:199-221 | SYN_RCVD by acceptability and ACK: established, an ACK sent back, or no change |
| TcpCross.ConnectsCross | cmsc23300-2014-wombat/chitcp/src/chitcpd/tcp.c:119-142 | two connects before either SYN arrives begin a simultaneous opening |
| TcpCross.CrossedNeverEstablishes | cmsc23300-2014-wombat/chitcp/src/chitcpd/tcp.c:199-273 | from there, on every run, neither side is ever established, which RFC 793, section 3.4, asks for |
| TcpLoss.LoopTakesRow | cmsc23300-2014-wombat/chitcp/src/chitcpd/tcp.c:283-306 | the loop over pending packets takes a row of segments in order that fits window and buffer |
| TcpLoss.Handshake | cmsc23300-2014-wombat/chitcp/src/chitcpd/tcp.c:116-220 | seven steps from the start lead to two established sides that offer each other their whole buffers |
| TcpLoss.DeliveryFails | cmsc23300-2014-wombat/chitcp/src/chitcpd/tcp.c:116-311 | a run of both sockets from the start: one send_all past the window, a segment refused at RCV.WND 0, and the next one taken in its place, so that the receiver has been given what was not sent |
| TcpWindow.WritesAll | cmsc23300-2014-wombat/chitcp/src/chitcpd/tcp.c:603-612 | a side that offers no more than its buffer holds never waits in use_data |
| TcpWindow.SegmentFits | cmsc23300-2014-wombat/chitcp/src/chitcpd/tcp.c:298-303 | processing a segment keeps both windows: nothing sent past the edge offered, nothing offered past the buffer, no ACK in flight that says otherwise |
| TcpWindow.DataAccepted | cmsc23300-2014-wombat/chitcp/src/chitcpd/tcp.c:556-573 | then the next data segment is acceptable |
| TcpWindow.SendFits | cmsc23300-2014-wombat/chitcp/src/chitcpd/tcp.c:622-659 | a send_all that keeps the window keeps all of it |
| TcpWindow.StepWithin | cmsc23300-2014-wombat/chitcp/src/chitcpd/tcp.c:116-311 | every step of two careful senders, handshake included, keeps both windows and refuses no data |
| TcpWindow.CarefulRunMoves | cmsc23300-2014-wombat/chitcp/src/chitcpd/tcp.c:116-311 | on every run in which each send_all meets the condition of WindowKeptExactly no data segment is refused |
| TcpWindow.CarefulRunDelivers | cmsc23300-2014-wombat/chitcp/src/chitcpd/tcp.c:116-311 | so on every such run what each side has been given is a prefix of what the other wrote, and no write to a receive buffer waits |
| TcpSocket.TcpData.AcceptabilityTest | cmsc23300-2014-wombat/chitcp/src/chitcpd/tcp.c:556-573 | a segment is acceptable by RFC 793's four cases, with the code's 32-bit right edge and 64-bit end of segment |
| TcpSocket.TcpData.SendAllData | cmsc23300-2014-wombat/chitcp/src/chitcpd/tcp.c:622-659 | the loop on the fields takes the block where the function of the send theorems says |
| TcpSocket.TcpData.Fill | cmsc23300-2014-wombat/chitcp/src/chitcpd/tcp.c:603-605 | as many bytes enter the receive buffer as fit, in order |
| TcpSocket.TcpData.WriteOn | cmsc23300-2014-wombat/chitcp/src/chitcpd/tcp.c:603-612 | a waiting write goes on where it stopped; RCV.NXT and RCV.WND move only when all of it is in |
| TcpSocket.TcpData.TakeAck | cmsc23300-2014-wombat/chitcp/src/chitcpd/tcp.c:299-300 | an ACK inside the window moves SND.UNA and SND.WND, and the state where the closing states say |
| TcpSocket.TcpData.PacketLoop | cmsc23300-2014-wombat/chitcp/src/chitcpd/tcp.c:286-311 | the loop on the fields is the recursive function of the run theorems, in all six synchronized states |
| TcpSocket.TcpData.HandleConnect | cmsc23300-2014-wombat/chitcp/src/chitcpd/tcp.c:119-142 | a connect leaves SND.UNA = ISS and SND.NXT = ISS + 1, offers the free receive space as window, and sends one SYN |
| TcpSocket.TcpData.HandleListenArrival | cmsc23300-2014-wombat/chitcp/src/chitcpd/tcp.c:157-196 | a SYN is answered with SYN and ACK, RCV.NXT one past it, SND.UNA = ISS, SND.NXT = ISS + 1, the peer's window taken over; anything else leaves the block alone |
| TcpSocket.TcpData.HandleSynRcvdArrival | cmsc23300-2014-wombat/chitcp/src/chitcpd/tcp.c:201-220 | an acceptable ACK of what was sent establishes the connection; an acceptable other segment is acknowledged; an unacceptable one changes nothing but the count of refusals |
| TcpSocket.TcpData.HandleSynSentArrival | cmsc23300-2014-wombat/chitcp/src/chitcpd/tcp.c:229-273 | SYN with a good ACK establishes the connection and is acknowledged; SYN alone leads to SYN_RCVD with a SYN and ACK; anything else leaves the block alone |
| TcpSocket.TcpData.HandleClose | cmsc23300-2014-wombat/chitcp/src/chitcpd/tcp.c:317-339 | CLOSE sends what the window allows, then a FIN, and closes the buffers |
| TcpSocket.TcpData.Handle | cmsc23300-2014-wombat/chitcp/src/chitcpd/tcp.c:116-553 | every event takes the fields where the step function of the run theorems says |
| ByteQueue.MoveKeeps | cmsc23300-2014-wombat/chitcp/src/libchitcp/buffer.c:80-186 | each unlocked look, each lock region and each close, between regions or between two bytes of one, accounts for every byte |
| ByteQueue.RunReadsWhatWasWritten | cmsc23300-2014-wombat/chitcp/src/libchitcp/buffer.c:80-186 | with one writer, one reader and closes in any interleaving, the bytes read are a prefix of those written, with the unread ones and the sleeping writer's rest they are all of them until the buffer is closed, and the unread never exceed maxsize |
| ByteQueue.OneSideMoves | cmsc23300-2014-wombat/chitcp/src/libchitcp/buffer.c:105-151 | as long as the lock is released and the buffer open, writer and reader never both sleep for good: one of them goes on when woken |
| ByteQueue.ClosedAtOnce | cmsc23300-2014-wombat/chitcp/src/libchitcp/buffer.c:80-83 | a write or a read that finds the buffer closed returns 0 at once, and no other does |
| ByteQueue.ReadTakes | cmsc23300-2014-wombat/chitcp/src/libchitcp/buffer.c:159-185 | a read of an open buffer takes as many bytes as asked for, or all there are, and returns their number |
| ByteQueue.ReadOfNothing | cmsc23300-2014-wombat/chitcp/src/libchitcp/buffer.c:143-156 | a read of an empty buffer waits or returns EWOULDBLOCK |
| ByteQueue.WriteAllOrNothing | cmsc23300-2014-wombat/chitcp/src/libchitcp/buffer.c:86-132 | a non-blocking write puts all its bytes if they fit and none if they do not |
| ByteQueue.WriteFillsOrWaits | cmsc23300-2014-wombat/chitcp/src/libchitcp/buffer.c:89-131 | a blocking write puts all of at most maxsize bytes if they fit, and else fills the buffer and waits with the rest |
| ByteQueue.WriteToClosed | cmsc23300-2014-wombat/chitcp/src/libchitcp/buffer.c:97-118 | a write that gets the lock of a closed buffer returns 0, but if the buffer is full it goes to sleep |
| ByteQueue.WriteReports | cmsc23300-2014-wombat/chitcp/src/libchitcp/buffer.c:115-130 | wherever a close falls, a write that returns from its first region reports the bytes that went in |
| ByteQueue.WakeReports | cmsc23300-2014-wombat/chitcp/src/libchitcp/buffer.c:105-130 | so does one that returns after a wait, those from before the wait included |
| ByteQueue.ReadsReportWhatTheyTook | cmsc23300-2014-wombat/chitcp/src/libchitcp/buffer.c:136-186 | on every run a read returns the number of bytes by which the bytes got have grown |
| ByteQueue.WritesReportWhatTheyPut | cmsc23300-2014-wombat/chitcp/src/libchitcp/buffer.c:80-133 | on every run a write that returns while the buffer is open, after any number of waits, returns the number of bytes added to the stream for it |
| ByteQueue.CloseWakesWriterIff | cmsc23300-2014-wombat/chitcp/src/libchitcp/buffer.c:105-118 | wherever the close falls, a blocked write returns after it if and only if a byte had been read by then or a read was caught copying; otherwise it sleeps for ever, which its documentation denies |
| ByteQueue.CloseExample | cmsc23300-2014-wombat/chitcp/src/libchitcp/buffer.c:105-118 | a full buffer, a second write and a close: the second write sleeps for ever |
| ByteQueue.CutExample | cmsc23300-2014-wombat/chitcp/src/libchitcp/buffer.c:166-176 | the close catches a read at its second byte: nothing is read, and the second write returns all the same |
| ByteQueue.CloseWakesReaderIffNotEmpty | cmsc23300-2014-wombat/chitcp/src/libchitcp/buffer.c:145-152 | a blocked read returns 0 after close if and only if a byte is unread; otherwise it sleeps for ever, which its documentation denies |
| ByteQueue.CloseReaderExample | cmsc23300-2014-wombat/chitcp/src/libchitcp/buffer.c:145-152 | a read of an empty buffer and a close: the read sleeps for ever |
| ByteQueue.LockLostIff | cmsc23300-2014-wombat/chitcp/src/libchitcp/buffer.c:80-186 | on every run the lock is kept for ever exactly if a non-blocking write was refused, or a blocking read, asleep or just past its unlocked look, found a byte and the buffer closed |
| ByteQueue.LockLossExample | cmsc23300-2014-wombat/chitcp/src/libchitcp/buffer.c:132 | a non-blocking write of more bytes than fit: it is refused, and the next calls hang |
| ByteQueue.LockRaceExample | cmsc23300-2014-wombat/chitcp/src/libchitcp/buffer.c:136-152 | a read passes its unlocked look, the buffer is closed, and the read gets the lock and keeps it |
| ByteQueue.LockLostForGood | cmsc23300-2014-wombat/chitcp/src/libchitcp/buffer.c:80-186 | after that no region runs any more: nothing is written, read or released |
| CircularBuffer.SpellsOneMore | cmsc23300-2014-wombat/chitcp/src/libchitcp/buffer.c:119 | a byte put after the last unread one extends what the ring spells, round the end too |
| CircularBuffer.SpellsOneLess | cmsc23300-2014-wombat/chitcp/src/libchitcp/buffer.c:171-173 | the cell at start is the first unread byte, and the ring spells the rest from the next cell on |
| CircularBuffer.PutUpTo | cmsc23300-2014-wombat/chitcp/src/libchitcp/buffer.c:97-130 | stopping at a full ring or at the last byte is putting as much as fits |
| CircularBuffer.Buffer.constructor | cmsc23300-2014-wombat/chitcp/src/libchitcp/buffer.c:48-68 | a new buffer is an empty queue of the capacity asked for, with its invariant |
| CircularBuffer.Buffer.Count | cmsc23300-2014-wombat/chitcp/src/libchitcp/buffer.c:275-278 | the difference of the counters is the number of unread bytes at every release of the lock, waits in a write included |
| CircularBuffer.Buffer.Available | cmsc23300-2014-wombat/chitcp/src/libchitcp/buffer.c:280-283 | while the counters agree, the room left |
| CircularBuffer.Buffer.PutRow | cmsc23300-2014-wombat/chitcp/src/libchitcp/buffer.c:114-123 | the inner loop puts bytes in order until the ring is full, the array ends or none is left |
| CircularBuffer.Buffer.Sleep | cmsc23300-2014-wombat/chitcp/src/libchitcp/buffer.c:98-110 | at a wait the end index is the start, the counters already cover the bytes put, and the ring is full |
| CircularBuffer.Buffer.PutLaps | cmsc23300-2014-wombat/chitcp/src/libchitcp/buffer.c:97-126 | the outer loop puts bytes in order, round the end as often as need be, until all are in, the ring is full or the buffer is closed |
| CircularBuffer.Buffer.PutAll | cmsc23300-2014-wombat/chitcp/src/libchitcp/buffer.c:97-130 | a write puts as much as fits and sleeps with the rest, however often it wraps round |
| CircularBuffer.Buffer.StartWriting | cmsc23300-2014-wombat/chitcp/src/libchitcp/buffer.c:82-83 | write returns 0 at once if the buffer is closed, before it takes the lock |
| CircularBuffer.Buffer.WriteData | cmsc23300-2014-wombat/chitcp/src/libchitcp/buffer.c:85-133 | under the lock write is the queue's write region, wherever another thread closes the buffer: at most maxsize bytes, EWOULDBLOCK with the lock kept exactly if it would have to wait and may not, the bytes put so far if it is caught by a close |
| CircularBuffer.Buffer.WakeUp | cmsc23300-2014-wombat/chitcp/src/libchitcp/buffer.c:105-130 | a woken writer goes on where it was, or reports what it had put if the buffer is closed by then or while it puts |
| CircularBuffer.Buffer.TakeBytes | cmsc23300-2014-wombat/chitcp/src/libchitcp/buffer.c:163-178 | the first bytes of the unread stream, in order, leave the ring, or none does if the buffer is closed while they are copied |
| CircularBuffer.Buffer.StartReading | cmsc23300-2014-wombat/chitcp/src/libchitcp/buffer.c:138-139 | read returns 0 at once if the buffer is closed, before it takes the lock |
| CircularBuffer.Buffer.ReadData | cmsc23300-2014-wombat/chitcp/src/libchitcp/buffer.c:142-186 | under the lock read is the queue's read region, from its start or a wait and wherever another thread closes the buffer: what there is up to len, a wait or EWOULDBLOCK on an empty buffer, 0 with the lock kept or released where the code does so; the start moves by what was taken |
| CircularBuffer.Buffer.SetSeqInitial | cmsc23300-2014-wombat/chitcp/src/libchitcp/buffer.c:70-77 | the counters are right afterwards if and only if the unread bytes begin at cell 0 and do not fill the ring |
| CircularBuffer.CountGoesWrong | cmsc23300-2014-wombat/chitcp/src/libchitcp/buffer.c:70-77 | two writes round the end with a read between, and after set_seq_initial the count of a buffer with one byte in it is 0 |
| Fips180.FoldAppend | cmsc23300-2014-wombat/simple-router/router/sha1.c:158-184 | folding whole blocks and then the rest is folding all of it |
| Fips180.PadFillsBlocks | cmsc23300-2014-wombat/simple-router/router/sha1.c:334-356 | the padded message is whole blocks: one past the message's own if 9 octets are free in the last, else two |
| Fips180.PadInjective | cmsc23300-2014-wombat/simple-router/router/sha1.c:326-370 | different messages are padded differently |
| Sha1.Context.Schedule | cmsc23300-2014-wombat/simple-router/router/sha1.c:221-235 | W holds the message schedule of section 7 of FIPS PUB 180-1 |
| Sha1.Context.Turn | cmsc23300-2014-wombat/simple-router/router/sha1.c:243-287 | the four loops make the eighty rounds |
| Sha1.Context.ProcessMessageBlock | cmsc23300-2014-wombat/simple-router/router/sha1.c:207-301 | the digest becomes its compression with the block |
| Sha1.Context.Reset | cmsc23300-2014-wombat/simple-router/router/sha1.c:71-85 | the context stands for the empty message |
| Sha1.Context.HoldOneMore | cmsc23300-2014-wombat/simple-router/router/sha1.c:160-161 | an octet put in the block is the next of the message |
| Sha1.Context.FullBlock | cmsc23300-2014-wombat/simple-router/router/sha1.c:178-181 | a full block folds into the digest and the buffer is empty again |
| Sha1.Context.CountOctet | cmsc23300-2014-wombat/simple-router/router/sha1.c:163-176 | two 32-bit words count the bits, and overflow exactly at 2^64 |
| Sha1.Context.Input | cmsc23300-2014-wombat/simple-router/router/sha1.c:143-185 | the message grows by the data; the context is corrupted exactly if it was, if a digest had been taken, or if the message reaches 2^64 bits; empty input changes nothing |
| Sha1.Context.FoldLong | cmsc23300-2014-wombat/simple-router/router/sha1.c:334-348 | a tail of more than 55 octets takes two blocks |
| Sha1.Context.LongLacks | cmsc23300-2014-wombat/simple-router/router/sha1.c:334-348 | a message whose tail leaves no room for the length: after one more block of padding only the length is missing |
| Sha1.Context.PadMessage | cmsc23300-2014-wombat/simple-router/router/sha1.c:326-371 | in both cases the digest becomes the fold over the padded message |
| Sha1.Context.Result | cmsc23300-2014-wombat/simple-router/router/sha1.c:104-119 | fails exactly when corrupted, else yields the digest of the message, and a second call changes nothing |
| Sha1.HashPieces | cmsc23300-2014-wombat/simple-router/router/sr_vns_comm.c:273-276 | for every message and every way of cutting it, the digest is that of the whole, and it fails exactly from 2^64 bits on |
| Sha1Known.KnownAnswer | cmsc23300-2014-wombat/simple-router/router/sha1.c:207-301 | the digest of "abc" is that of FIPS PUB 180-1, appendix A, so every constant, shift and octet order is right |
| Sha1Known.HashAbc | cmsc23300-2014-wombat/simple-router/router/sha1.c:104-185 | and the context computes it, the message cut in two |
| Checksum.FoldKeepsResidue | cmsc23300-2014-wombat/simple-router/router/sr_utils.c:16-17 | folding the carries terminates, keeps the residue modulo 65535 and keeps a nonzero sum nonzero |
| Checksum.SumFits | cmsc23300-2014-wombat/simple-router/router/sr_utils.c:12-15 | the sum is at most 65535 for every word begun, so 32 bits hold it up to 131074 octets |
| Checksum.OddAsPadded | cmsc23300-2014-wombat/simple-router/router/sr_utils.c:14-15 | an odd last octet counts as if a zero octet followed it |
| Checksum.ComputeCksum | cmsc23300-2014-wombat/simple-router/router/sr_utils.c:8-20 | for every buffer the loops compute the checksum of the sum modulo 2^32, and for at most 131074 octets that of the exact sum, odd lengths included |
| Checksum.Cksum | cmsc23300-2014-wombat/simple-router/router/sr_utils.c:18-19 | 0 is never returned, so the router's test for it (sr_router.c:275) cannot succeed |
| Checksum.AllOnesIff | cmsc23300-2014-wombat/simple-router/router/sr_utils.c:8-20 | 0xffff is returned if and only if the words add up to 0 modulo 65535 |
| Checksum.StoreAddsWord | cmsc23300-2014-wombat/simple-router/router/sr_utils.c:12-15 | a word stored at an even offset adds itself, its octets swapped, to the sum |
| Checksum.StoredVerifies | cmsc23300-2014-wombat/simple-router/router/sr_utils.c:8-20 | with the result stored in its zeroed field a second checksum returns 0xffff (RFC 1071, section 1) |
| Checksum.SwappedVerifiesIff | cmsc23300-2014-wombat/simple-router/router/sr_router.c:287-290 | the forwarding path, behind a test that never succeeds, swaps the result once more before storing it; the header would then verify if and only if the checksum's two octets are the same |
| Checksum.SwappedExample | cmsc23300-2014-wombat/simple-router/router/sr_router.c:287-290 | a header whose checksum is 0xe726 and which is refused with the checksum stored that way |
| RouteSearch.MoreOnesIsLarger | cmsc23300-2014-wombat/simple-router/router/sr_router.c:302 | among octets of ones then zeros, more ones is a larger octet |
| RouteSearch.LongerIsLarger | cmsc23300-2014-wombat/simple-router/router/sr_router.c:302 | the mask of a longer prefix is larger even when its octets are read in the wrong order |
| RouteSearch.HostOrderIsPrefixOrder | cmsc23300-2014-wombat/simple-router/router/sr_router.c:302 | comparing byte-swapped masks as integers is comparing prefix lengths |
| RouteSearch.BestIsLongest | cmsc23300-2014-wombat/simple-router/router/sr_router.c:300-306 | the earliest entry of the largest mask is the earliest of the longest prefix, and conversely |
| RouteSearch.MatchesIff | cmsc23300-2014-wombat/simple-router/router/sr_router.c:300 | for a contiguous mask the test matches exactly the addresses with the route's first bits, as many as the prefix has, and zeros after them in the route |
| RouteSearch.LastBitWins | cmsc23300-2014-wombat/simple-router/router/sr_router.c:302 | for masks that are not contiguous the host's order is not that of lengths: a mask of the last bit alone beats a /24 |
| RouteSearch.FindRoute | cmsc23300-2014-wombat/simple-router/router/sr_router.c:293-308 | none if and only if nothing matches; else the earliest match of the largest mask as the host reads it, which for contiguous masks is the earliest longest prefix match |
| ArpLedger.WaitingDrop | cmsc23300-2014-wombat/simple-router/router/sr_arpcache.c:298-314 | a request off the queue takes exactly its own packets with it |
| ArpLedger.EnqueueHolds | cmsc23300-2014-wombat/simple-router/router/sr_arpcache.c:207-246 | queueing adds one packet to those that wait and moves none |
| ArpLedger.NeverAsked | cmsc23300-2014-wombat/simple-router/router/sr_arpcache.c:223-228 | a new request has not been sent |
| ArpLedger.AskedCounted | cmsc23300-2014-wombat/simple-router/router/sr_arpcache.c:94-134 | a send is counted, and there are at most five |
| ArpLedger.AskedSpaced | cmsc23300-2014-wombat/simple-router/router/sr_arpcache.c:92-134 | a send is more than a second after every earlier one of the request |
| ArpLedger.VisitConserves | cmsc23300-2014-wombat/simple-router/router/sr_arpcache.c:90-141 | a visit keeps, sends or gives up a request, and no packet is lost |
| ArpLedger.ReplyConserves | cmsc23300-2014-wombat/simple-router/router/sr_arpcache.c:16-36 | a reply releases a whole request, and no packet is lost |
| ArpLedger.StepKeeps | cmsc23300-2014-wombat/simple-router/router/sr_arpcache.c:16-331 | every event keeps the ledger balanced |
| ArpLedger.LedgerBalances | cmsc23300-2014-wombat/simple-router/router/sr_arpcache.c:16-331 | over every run: at most one request for an address; each queued packet in exactly one of waiting, released and given up, with its whole request; at most five sends of a request, more than a second apart; none given up before five |
| ArpRuns.StoredFor15Seconds | cmsc23300-2014-wombat/simple-router/router/sr_arpcache.c:252-291 | with a free slot and no valid entry for the address, the MAC of a reply is found afterwards, for fifteen seconds and no longer |
| ArpRuns.OthersStay | cmsc23300-2014-wombat/simple-router/router/sr_arpcache.c:252-291 | what is found for other addresses does not change |
| ArpRuns.LookupAfterReplyIff | cmsc23300-2014-wombat/simple-router/router/sr_arpcache.c:177-199 | after any reply a lookup gives its MAC if and only if no valid entry for the address lies behind the first free slot, or the last of them has the same |
| ArpRuns.PacketsWaitInLine | cmsc23300-2014-wombat/simple-router/router/sr_arpcache.c:207-246 | on every run the packets of a request are exactly those queued for its address since it was made, newest first |
| ArpRuns.VisitsExactly | cmsc23300-2014-wombat/simple-router/router/sr_arpcache.c:90-141 | on every run, by what was sent: a visit over a second after the last send sends again if there were fewer than five, and gives up if there were five; an earlier one does neither |
| ArpCache.Cache.Lookup | cmsc23300-2014-wombat/simple-router/router/sr_arpcache.c:177-199 | none exactly if no valid entry has the address, else the last such entry |
| ArpCache.Cache.QueueReq | cmsc23300-2014-wombat/simple-router/router/sr_arpcache.c:207-246 | the packet joins the one request for its address, a new one if there is none |
| ArpCache.Cache.Insert | cmsc23300-2014-wombat/simple-router/router/sr_arpcache.c:252-291 | takes the request for the address off the queue and puts the mapping in the first free slot, if there is one |
| ArpCache.Cache.Destroy | cmsc23300-2014-wombat/simple-router/router/sr_arpcache.c:295-331 | the request leaves the queue if it is on it |
| ArpCache.Cache.HandleArpRep | cmsc23300-2014-wombat/simple-router/router/sr_arpcache.c:16-36 | all packets of the answered request go out under the reply's MAC, newest first, and the request is gone |
| ArpCache.Cache.HandleArpReq | cmsc23300-2014-wombat/simple-router/router/sr_arpcache.c:90-141 | what goes out and what the queue becomes: nothing within a second, a broadcast up to five times, then host unreachable for every packet |
| ArpCache.Cache.ExpireEntries | cmsc23300-2014-wombat/simple-router/router/sr_arpcache.c:384-388 | entries older than fifteen seconds become invalid and no others change |
| ArpCache.AllVisitable | cmsc23300-2014-wombat/simple-router/router/sr_arpcache.h:56-63 | each request of a sweep is still queued when its turn comes |
| ArpCache.Cache.SweepReqs | cmsc23300-2014-wombat/simple-router/router/sr_arpcache.h:56-63 | a sweep attends to each queued request once, in order |
| ArpCache.Answered | cmsc23300-2014-wombat/simple-router/router/sr_arpcache.c:16-36 | two packets queued and a reply: both go out under its MAC, the later one first |
| ArpCache.AnswerKept | cmsc23300-2014-wombat/simple-router/router/sr_arpcache.c:177-199 | fifteen seconds later a lookup still gives that MAC |
| ArpCache.AnswerForgotten | cmsc23300-2014-wombat/simple-router/router/sr_arpcache.c:384-388 | sixteen seconds later it gives nothing |
| ArpCache.Unanswered | cmsc23300-2014-wombat/simple-router/router/sr_arpcache.c:90-141 | no reply: five broadcasts by the interface of the newest packet, then host unreachable for every packet |
| ArpCache.OldEntryWins | cmsc23300-2014-wombat/simple-router/router/sr_arpcache.c:252-291 | a second reply for an address takes a free slot in front of the first one's entry, and lookups go on giving the first one's MAC |
| ChircTables.WithoutEffect | cmsc23300-2014-wombat/chirc/src/addremove.c:189-222 | unlinking an entry leaves every other one to be found as before |
| ChircTables.AddChanNameEffect | cmsc23300-2014-wombat/chirc/src/addremove.c:225-244 | adding a channel to a client adds one membership to the client's records and changes no other |
| ChircTables.AddChanUserEffect | cmsc23300-2014-wombat/chirc/src/addremove.c:167-186 | adding a user to a channel adds one membership to the channel's records and changes no other; the first user is operator |
| ChircTables.RemoveChanUserEffect | cmsc23300-2014-wombat/chirc/src/addremove.c:189-222 | removing a user takes one membership from the channel's records and changes no other |
| ChircTables.RemoveChanNameEffect | cmsc23300-2014-wombat/chirc/src/addremove.c:247-280 | removing a channel takes one membership from the client's records and changes no other |
| ChircTables.DropChannelEffect | cmsc23300-2014-wombat/chirc/src/addremove.c:119-164 | a channel without users can go without changing any membership |
| ChircTables.NewChannelKeeps | cmsc23300-2014-wombat/chirc/src/addremove.c:105-116 | a new channel changes no membership |
| ChircTables.SetStatusKeeps | cmsc23300-2014-wombat/chirc/src/modes.c:71-162 | the paired updates change the status of one membership, in both records alike |
| ChircTables.JoinKeeps | cmsc23300-2014-wombat/chirc/src/channel_handlers.c:84-92 | JOIN adds the same membership to both tables, as operator exactly if the channel had no users |
| ChircTables.PartKeeps | cmsc23300-2014-wombat/chirc/src/channel_handlers.c:164-170 | PART takes the same membership from both tables, and an emptied channel goes |
| ChircTables.RemoveFromAllEffect | cmsc23300-2014-wombat/chirc/src/quit_handler.c:54-64 | the loop over a client's channels takes it off exactly those channels |
| ChircTables.LeaveKeeps | cmsc23300-2014-wombat/chirc/src/addremove.c:283-296 | after QUIT or a disconnection no table mentions the socket, and every other membership is as it was |
| ChircTables.ModeKeeps | cmsc23300-2014-wombat/chirc/src/mode_handlers.c:326-365 | MODE keeps the two records of every membership alike |
| ChircTables.MayChangeIff | cmsc23300-2014-wombat/chirc/src/mode_handlers.c:326 | whom the channel lists as its operator, or who is an operator of the server, may give a MODE, and nobody else |
| ChircTables.OthersChangeNothing | cmsc23300-2014-wombat/chirc/src/mode_handlers.c:326-370 | a MODE of anybody else changes nothing |
| ChircTables.OperatorsChange | cmsc23300-2014-wombat/chirc/src/mode_handlers.c:341-365 | +o, -o, +v and -v each set the one flag of the member to the one value, and no other mode or member changes |
| ChircTables.ChannelModes | cmsc23300-2014-wombat/chirc/src/mode_handlers.c:328-331 | +m, -m, +t and -t each set the one flag of the channel, by the first two characters |
| ChircTables.NotOnChannel | cmsc23300-2014-wombat/chirc/src/mode_handlers.c:257-272 | a MODE for a nick that is not on the channel, or of another string, changes no member |
| ChircTables.NoClientOfThatNick | cmsc23300-2014-wombat/chirc/src/mode_handlers.c:341-365 | nor does one for a nick that no client has any more |
| ChircTables.OperSets | cmsc23300-2014-wombat/chirc/src/modes.c:43-69 | OPER and its withdrawal set the flag of one client and nothing else |
| ChircTables.Parting | cmsc23300-2014-wombat/chirc/src/channel_handlers.c:164-170 | a PART command ends one membership in both tables |
| ChircTables.Quitting | cmsc23300-2014-wombat/chirc/src/quit_handler.c:54-70 | a QUIT command or a lost connection ends all of a client's memberships and nobody else's, and the client goes |
| ChircNicks.ModeChangesNamedIff | cmsc23300-2014-wombat/chirc/src/mode_handlers.c:341-365 | MODE changes the status of the user the channel lists under the nick, and no other, if and only if that user is also the client of that nick, or there is nothing to change for either |
| ChircNicks.StaleNick | cmsc23300-2014-wombat/chirc/src/mode_handlers.c:341-365 | a run of two clients, two JOINs and two NICKs after which MODE +v of one gives the voice to the other |
| ChircNicks.NickTakenIff | cmsc23300-2014-wombat/chirc/src/login_handlers.c:36-50 | NICK gives a client a nick exactly if no client has it, or it is empty |
| ChircTables.JoinedIsOn | cmsc23300-2014-wombat/chirc/src/channel_handlers.c:84-92 | after JOIN the client is on the channel |
| ChircTables.CommandKeeps | cmsc23300-2014-wombat/chirc/src/main.c:371-434 | every command from any socket keeps both copies in agreement and free of duplicates |
| ChircTables.CopiesAgree | cmsc23300-2014-wombat/chirc/src/addremove.c:105-296 | after every sequence of commands a channel is on a client's list if and only if the client is on the channel's, with equal status, and no list has an entry twice |
| ChircTables.CoperIsGranted | cmsc23300-2014-wombat/chirc/src/mode_handlers.c:326-365 | nobody becomes channel operator but by joining an empty channel or by a MODE of somebody the channel lists as operator or who is an operator of the server |
| Chirc.Search | cmsc23300-2014-wombat/chirc/src/get.c:30-40 | the walk along a list stops at the first entry of a key |
| Chirc.Unlink | cmsc23300-2014-wombat/chirc/src/addremove.c:189-222 | head case and prev/cur walk together remove the first entry of a key |
| Chirc.Server.AddName | cmsc23300-2014-wombat/chirc/src/addremove.c:225-244 | the channel is at the head of the client's list, as operator exactly if it has no users yet; nothing changes if it is on the list, or has no name |
| Chirc.Server.AddUser | cmsc23300-2014-wombat/chirc/src/addremove.c:167-186 | the user is at the head of the channel's list, as operator exactly if it is the first; nothing changes if it is on the list, or the channel has no name |
| Chirc.Server.ChangeStatus | cmsc23300-2014-wombat/chirc/src/modes.c:71-162 | coper or voice of one membership is set alike in both tables, where the membership is recorded |
| Chirc.Server.HandleJoin | cmsc23300-2014-wombat/chirc/src/channel_handlers.c:37-92 | the tables are those of the JOIN that adds one membership to both |
| Chirc.Server.HandlePart | cmsc23300-2014-wombat/chirc/src/channel_handlers.c:118-170 | the tables are those of the PART that takes one membership from both, and of an emptied channel gone |
| Chirc.Server.HandleQuit | cmsc23300-2014-wombat/chirc/src/quit_handler.c:54-70 | the loop over the client's channels takes the client off each, then off the server |
| Chirc.Server.HandleMode | cmsc23300-2014-wombat/chirc/src/mode_handlers.c:241-365 | for every mode string and member: who may change what, and whom a stale nick makes it change |
| Chirc.Server.Handle | cmsc23300-2014-wombat/chirc/src/main.c:371-434 | the lists after any command are those of the table functions, and agree |
| SocketLookup.CountWildcards | cmsc23300-2014-wombat/chitcp/src/chitcpd/serverinfo.c:231-273 | the chain of tests finds exactly the compatible entries and counts their wildcards |
| SocketLookup.CompatibleIff | cmsc23300-2014-wombat/chitcp/src/chitcpd/serverinfo.c:231-273 | an entry in use is compatible exactly if some concrete connection is meant both by it and by what is looked for |
| SocketLookup.WildcardsCountDifferences | cmsc23300-2014-wombat/chitcp/src/chitcpd/serverinfo.c:231-273 | the wildcards of a compatible entry are the addresses for which the two do not mean the same |
| SocketLookup.LookupSocket | cmsc23300-2014-wombat/chitcp/src/chitcpd/serverinfo.c:218-293 | the first entry of fewest wildcards among all compatible ones, despite the early exit; NULL if and only if none is eligible; in exact mode only entries without wildcards |
| PacketQueue.StepSafe | cmsc23300-2014-wombat/chitcp/src/chitcpd/tcp_thread.c:270-326 | each step of the TCP thread or of an enqueuer keeps: a pending packet is known to the thread or owed to it |
| PacketQueue.NoPacketStranded | cmsc23300-2014-wombat/chitcp/src/chitcpd/tcp_thread.c:270-340 | in every interleaving, if the thread sleeps with packets pending, some enqueuer is between its append and its flag raise |
| PacketQueue.StepCounts | cmsc23300-2014-wombat/chitcp/src/chitcpd/connection.c:557-609 | each step keeps the account of every copy of a packet, dropped, duplicated or withheld ones included |
| PacketQueue.QueueIsFifo | cmsc23300-2014-wombat/chitcp/src/chitcpd/connection.c:557-609 | packets are fetched in the order they were appended, and each copy is queued, withheld, dropped or on its way |
| PacketQueue.DrawAppendsBoth | cmsc23300-2014-wombat/chitcp/src/chitcpd/connection.c:574-596 | drawing appends the packet withheld longest, then the new one |
| PacketQueue.WithheldInOrder | cmsc23300-2014-wombat/chitcp/src/chitcpd/connection.c:563-596 | two withheld packets are drawn in the order in which they came |
| PacketQueue.DuplicateAndDrop | cmsc23300-2014-wombat/chitcp/src/chitcpd/connection.c:563-608 | a duplicate is appended and withheld, a dropped packet neither |
| PacketQueue.TurnsToFirst | cmsc23300-2014-wombat/chitcp/src/chitcpd/tcp_thread.c:274-340 | CLOSE before CONNECT before RECEIVE before SEND before packets before cleanup, and sleep only without any |
| PacketQueue.CallsAreKept | cmsc23300-2014-wombat/chitcp/src/chitcpd/tcp_thread.c:278-308 | a call stays until it is turned to, and turning to one forgets no other |
| PacketQueue.ArrivalMayFindNothing | cmsc23300-2014-wombat/chitcp/src/chitcpd/tcp_thread.c:310-326 | a run in which PACKET_ARRIVAL is dispatched with an empty queue |
| PacketArrival.QuietKeepsMayNot | cmsc23300-2014-wombat/chitcp/src/chitcpd/tcp_thread.c:270-340 | no step but a packet coming in makes it possible, and none then dispatches an empty arrival |
| PacketArrival.Onward | cmsc23300-2014-wombat/chitcp/src/chitcpd/tcp_thread.c:270-340 | while it is possible some step leads nearer to it |
| PacketArrival.ArrivalFindsNothingIff | cmsc23300-2014-wombat/chitcp/src/chitcpd/tcp_thread.c:270-340 | from any state, with no packet coming in, PACKET_ARRIVAL can be dispatched with an empty queue if and only if more raises of the flag are ahead than the packets there are need |
| PacketArrival.BeforeTheWait | cmsc23300-2014-wombat/chitcp/src/chitcpd/tcp_thread.c:278-326 | with an empty queue before the wait: if and only if the flag is up or a thread has yet to raise it for a packet already gone |

## Left out

- List sizes and element counts are unbounded integers; the 32-bit wrap of numels is not modelled.
- SimcList.List.FindPos: the list's methods take the quotient of position and count as an exact ratio, which is right up to 2^24 elements (`FindPosFloat.FindPosWithin24Bits`); beyond, `FindPosFloat.FindPosIff` says when it is not, and `InsertIff` and `DeleteIff` what one edit then does; what later edits make of such a list is not modelled.
- Element memory of the list (copy_data, meters for it, free) and failures of malloc.
- The list's iterators; only the flag with which they refuse edits is there.
- The threaded variant of the list (SIMCLIST_WITH_THREADS), list_locate, list_seek, list_hash and the ready-made comparators.
- ListDump.Restore: the memory an unserializer reports, which only the reported length uses.
- File errors in dump and restore other than a short read; the refusal to dump without serializer and meter.
- ListSort.Sort: comparators that are not total preorders on the data, for which the code promises nothing.
- A handler of the TCP thread is one step up to its waits, send_all with all its passes included; the application's calls come between steps.
- What happens after TIME_WAIT, which the code never leaves; the closing states are otherwise as the code has them, with FIN sent without ACK and not counted.
- LAST_ACK goes on with its loop after it has freed the socket; the model stops there.
- TcpNet.RunDelivers: its runs open by one connect and one listen and do not close (`TcpCross` and `TcpClose` have the others); they end before 2^32 bytes.
- TcpNet.RunConserves: runs in which acceptability_test refuses a data segment, on which it does not hold, since nothing is ever sent again (`TcpLoss.DeliveryFails`); `TcpWindow.CarefulRunMoves` says which senders stay clear of them.
- Tcp.Step: PACKET_ARRIVAL with an empty queue before synchronization is no step; the code fetches NULL there.
- Several writers or several readers at once on one buffer, reads without a destination, and peek, which clears `full` while a writer sleeps.
- CircularBuffer.Buffer.constructor: capacities of 2^31 and more, which byte counts returned as `int` cannot express.
- The mutexes themselves: a region under a lock is one step, but for closes that fall inside it.  Which calls of the buffer never give theirs back is modelled.
- The pointer walk of sr_arpcache_sweepreqs, which follows a request it has just freed and unlinks it again; a sweep is the one its header describes.
- ArpCache.Cache.QueueReq: calls without a packet, which the router never makes; the request they leave has none, and handle_arpreq would read through NULL.
- ArpCache.Cache.HandleArpRep: replies that answer no queued request, for which the code reads through NULL.
- Races on a request between the forwarding thread and the sweeping thread, which hold no common lock in handle_arpreq.
- The byte order of lookups in the ARP cache: the router swaps the address it looks up and not the one it queues.
- Packet fields outside the checksum, the route and the ARP queue, ICMP replies, and interfaces.
- chirc messages, failures of send(), mutexes copied by value, and the counters of clients.
- The records of chirc's clients and channels are values in the server's two lists, so aliasing of list nodes is not modelled; buffer lengths of its parsers are not either.
- PacketQueue.NoPacketStranded: the event loop is a state machine over its steps and not a method, since other threads run between them.
- RPC between application and daemon, the debug API beyond its responses to incoming packets, logging, the pcap dumper, tests and the Python controller.
