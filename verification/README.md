# Verified models of the gateway firmware

The firmware of this gateway moves packets between radios, wires and a PC: it speaks mDNS, links to a
second chip over SPI, UART and SDIO, bridges a serial line in its bootloader, charges a battery and
draws on a small display. This project models the parts of it that are protocols or algorithms, each
in the form the C code has (objects with fields that methods update, loops with invariants, pure
functions where the code only computes), and proves what they are for. `dafny verify dfyconfig.toml`
checks everything; no part depends on anything outside this directory.

| file | what it models |
|---|---|
| `MdnsName.dfy` | DNS names: the compressing writer, the reader, and a reference decoder after RFC 1035 |
| `MdnsMessage.dfy` | service records, text entries, whole messages, and a reference walker |
| `MdnsParts.dfy` | what the parser makes of any name: host, service, proto, domain, or a refusal |
| `MdnsLetters.dfy` | when a compressed name reads back: conditions on its labels |
| `MdnsQuiet.dfy` | packets in which the writer only ever finds plain names, with stale bytes behind them or not |
| `MdnsReceive.dfy` | the cursor with which the receiver walks a packet |
| `MdnsArrive.dfy` | what the receiver reads in a dispatched message, record by record |
| `MdnsAnswers.dfy` | messages built from the answers for services with such names |
| `MdnsDiscovery.dfy` | what a receiver learns of services from such answers, goodbyes included |
| `MdnsStale.dfy` | names for which the writer accepts a place that then reads otherwise |
| `MdnsReplies.dfy` | the bytes of a web server's reply, up to the name of its host |
| `MdnsTwoReplies.dfy` | two such replies from one buffer, of which the second is lost |
| `MdnsTxt.dfy` | the two passes that parse the data of a text record |
| `MdnsCollision.dfy` | the tie-break between responders with the same name |
| `MdnsRename.dfy` | the name that a loser takes |
| `MdnsTxQueue.dfy` | the sorted packet list, the action queue, timer task and service task, in all interleavings |
| `MdnsTxDelivery.dfy` | what becomes of the packets in that list: sent or removed, none lost |
| `MdnsQuestions.dfy` | the questions of a probe, and which of them go with a withdrawn service |
| `MdnsPcb.dfy` | the probing and announcing machine of an interface, on top of that list |
| `MdnsProbed.dfy` | which services are probed, how long the first probe waits, and what other interfaces notice |
| `MdnsAnnounce.dfy` | how often an announcement goes out, and what replies do to it |
| `EpppUart.dfy` | framing over UART: encoder, streaming parser in a compacting buffer, reference scanner |
| `EpppSpi.dfy` | the lockstep protocol over SPI: one end as an object, both ends as a transition system |
| `EpppSpiProgress.dfy` | progress of that protocol from any state, and buffers from end to end |
| `EsslSdio.dfy` | credit flow control towards an SDIO slave with counters that wrap at two moduli |
| `ChargeControl.dfy` | the battery charge controller |
| `Bridge.dfy` | the bootloader's bridge of two ring buffers |
| `UsbVfs.dfy` | newline translation of the USB console |
| `DrawLine.dfy` | the line rasteriser of the display |
| `Bytes.dfy` | byte strings |

In each file the functions are the specification, the methods of a class or over an array are the C
code and are proved to compute what the functions say, and the lemmas are about the functions or about
all runs of a transition system built from them.

## Where code and intention part

Proving exactly when a property holds brought up some places where the code does not do what its
comments, its constants or the standard it follows suggest. The models follow the code.

- UART header: the packed header has five bytes (eppp_uart.c:32-37) while `HEADER_SIZE` is four
  (eppp_uart.c:27). The output buffer therefore holds payloads up to 1499 bytes, but the sender checks no
  length: one of 1500 bytes, which `MAX_PAYLOAD` names as the largest, is written one byte past the buffer.
  The model of the sender stops at 1499. The receiver accepts 1500, but when it stands at position 1504 it
  can never complete such a frame (`EpppUart.LoopLeavesRoom`, `EpppUart.StallIsReached`).
- Timer tick: the loop at mdns_send.c:1728-1744 steps past a packet that could not be posted. If a later
  one of the same tick gets through, actions and list are out of order, and a marked packet can block
  the head (`MdnsTxQueue.TickKeepsExactly`, `MdnsTxQueue.StuckIsReached`).
- Removed services of one type: when a service is removed while it is being probed, the loop at
  mdns_send.c:1796-1815 removes the first question of its type and does not compare the instance. With
  several instances of a type the probe can go on asking for the one removed, and one that stays is
  announced without having been asked for (`MdnsPcb.OthersQuestionGoes`,
  `MdnsPcb.AsksForRecordedExactly`). The question left over still points to the strings of the removed
  service (mdns_send.c:1412-1416), which are freed with it; what it asks for from then on is undefined in C,
  and the model keeps the service it was made for.
- Host named like the domain: the search of the writer can match the label it has just written, and the
  pointer then goes into the name itself (`MdnsLetters.NewNameExactly`, `MdnsName.HostNamedLikeDomain`).
- Stale bytes: the packet buffer is static and only its header is cleared (mdns_send.c:1342-1344), while
  the search reads past the end of what has been written. Bytes of an earlier message can be taken for the
  name to be written, and the pointer then overwrites them. When a web server called web and one called webs,
  both on host esp32 and port 3333, answer one after the other, the second reply cannot be read
  (`MdnsTwoReplies.SecondReplyIsLost`); `MdnsStale.ReadBackExactly` has the condition.
- Subtype marker: the search drops the label `_sub` from what it compares, so an instance can be replaced by
  a pointer to a subtype of the same name (`MdnsStale.SubtypeTaken`).
- Question counter: the receiver keeps the number of questions in one byte (mdns_receive.c:670), so a packet
  that announces 256 or more is misread (`MdnsReceive.WellFormedIsVisited`, `MdnsReceive.QuestionsMissed`).
- Replies count as announcements: every packet sent moves the announcing machine on and is scheduled again in
  its first two phases (mdns_pcb.c:211-259), whatever it is. Two replies that go out in front of an announcement
  are repeated in its place, and the announcement goes out once instead of three times
  (`MdnsAnnounce.RepliesUseUpAnnouncing`); section 8.3 of RFC 6762 asks for at least two.
- Tie-break: section 8.2 of RFC 6762 compares bytes first and length last; the code compares length
  first (`MdnsCollision.AsInTheRfc`). A responder without a host name, and a single empty text item,
  make the verdicts of the two sides disagree.
- Text items without `=`: the parser skips one byte too many behind the key (mdns_receive.c:283), so that
  such an item is read correctly only in the last place (`MdnsTxt.RoundTrip`).
- `TIME_REMAIN` adds one tick too many once the tick count has wrapped (`EsslSdio.TimeRemainExactly`).
- A charge change at tick zero is taken for no change at all, so the cooldown after it is skipped
  (`ChargeControl.ChangesBackExactly`, `ChargeControl.CooldownMissed`).
- Diagonal lines and single points begin one step beside their first endpoint and miss the last
  (`DrawLine.EndpointsExact`).

## Model

| member | source | states |
|---|---|---|
| MdnsName.Read | managed_components/espressif__mdns/mdns_utils.c:18-69 | reading a name ends on every byte string, and the position it returns is strictly behind the one it began at |
| MdnsName.ReadFqdn | managed_components/espressif__mdns/mdns_utils.c:18-69 | the recursive, in-place reader files the labels as the specification function says, and fails exactly where it does |
| MdnsName.ParseFqdn | managed_components/espressif__mdns/mdns_utils.c:71-103 | the record is cleared, filled and its parts moved into host, service, proto and domain, as the specification function says; what that makes of any name is stated by MdnsParts.ParsedExactly |
| MdnsParts.ParsedExactly | managed_components/espressif__mdns/mdns_utils.c:39-103 | of every name that decodes, with any number of labels: it is refused if and only if something stands behind four parts, or it has parts and no served domain behind them; the subtype flag is set if and only if some label is the marker; and without too many parts, each stands in its place, the labels of a dotted host joined by dots |
| MdnsParts.SameTextExactly | managed_components/espressif__mdns/mdns_utils.c:44-53 | labels are taken for the same if and only if they differ in the case of ASCII letters at most |
| MdnsParts.DottedIs | managed_components/espressif__mdns/mdns_utils.c:49-50 | the host filed for a name with dots is the name written out, or its first 64 bytes |
| MdnsName.NameRecord.File | managed_components/espressif__mdns/mdns_utils.c:39-55 | one label is joined to a dotted host, noted as the subtype marker, or becomes the next part |
| MdnsName.DecodePrefix | managed_components/espressif__mdns/mdns_utils.c:18-69 | what section 4.1.4 of RFC 1035 decodes inside a prefix behind the header does not change when the packet grows |
| MdnsName.ReadIsDecode | managed_components/espressif__mdns/mdns_utils.c:18-69 | wherever the RFC 1035 decoder succeeds, the reader succeeds with the same labels, in order, and the same end |
| MdnsName.Search | managed_components/espressif__mdns/mdns_send.c:686-724 | the first accepted position below the end is returned, and none means that no position is acceptable |
| MdnsName.FindName | managed_components/espressif__mdns/mdns_send.c:686-724 | the loop over length bytes finds that same first acceptable position |
| MdnsName.WriteFqdn | managed_components/espressif__mdns/mdns_send.c:678-739 | the writer, with its searches and its recursion on the rest of the name, leaves exactly the specified packet, end and count |
| MdnsName.AppendFqdn | managed_components/espressif__mdns/mdns_send.c:678-739 | nothing before the end is touched, the end never leaves the buffer, and it moves by the count reported |
| MdnsName.RoomIsEnough | managed_components/espressif__mdns/mdns_send.c:678-739 | with room for the labels and a zero byte no step of writing a name runs out of room |
| MdnsName.AppendFits | managed_components/espressif__mdns/mdns_send.c:678-739 | when no step runs out of room the whole name is written: the end has moved past it, by no more than the labels and a zero byte |
| MdnsName.AppendDecodes | managed_components/espressif__mdns/mdns_send.c:678-739 | where the writer points to plain names in front of the new one (FindsPlain and FindsBelow), an appended name decodes under RFC 1035 to the labels given, the first exactly and the rest up to case, even after bytes outside it and its targets are patched |
| MdnsName.PointsBackFails | managed_components/espressif__mdns/mdns_utils.c:57-62 | if the writer points into the name it is writing, no reader can read that name |
| MdnsName.RoundTrip | managed_components/espressif__mdns/mdns_send.c:678-739 | where names found in the earlier packet are plain names (FindsPlain), a written 2-, 3- or 4-label name parses back into its fields if and only if the writer did not point into the new name itself |
| MdnsLetters.DifferentFindBelow | managed_components/espressif__mdns/mdns_send.c:686-738 | labels that differ from each other, and no character of which can be taken for the length of one, are never taken for one another: the writer does not point into the name it is writing, whatever the packet and the buffer behind it hold |
| MdnsLetters.RoundTrip | managed_components/espressif__mdns/mdns_send.c:678-739 | a name of different labels, no character of which can be taken for the length of one, reads back as written in any packet, compressed or not, provided that what is found in the earlier packet is a plain name (FindsPlain) |
| MdnsLetters.CleanRoundTrip | managed_components/espressif__mdns/mdns_send.c:678-739 | in a buffer that is clean behind, labels may repeat as long as the last two differ, with the same proviso about what is found |
| MdnsLetters.NewNameExactly | managed_components/espressif__mdns/mdns_send.c:686-738 | a name new to the packet, in a clean buffer, reads back if and only if its last two labels differ; otherwise it cannot be read at all |
| MdnsStale.MisreadIsNotRead | managed_components/espressif__mdns/mdns_send.c:686-738 | the other half of the condition: if the place accepted needs the byte where the pointer to it then stands, as a length, as the end or in a text, or carries the subtype marker, the name does not read back, whatever follows and wherever the reader takes the packet to end |
| MdnsStale.ReadBackExactly | managed_components/espressif__mdns/mdns_send.c:686-738 | where the place found is a plain name, or misread in one of these ways, a name reads back if and only if that place is in front of it and not misread |
| MdnsStale.SubtypeTaken | managed_components/espressif__mdns/mdns_utils.c:47-53 | an instance with the name of a subtype of its service type, when the subtype stands first in the packet, is written as a pointer to the subtype and does not read back |
| MdnsTwoReplies.SecondReplyIsLost | managed_components/espressif__mdns/mdns_send.c:1340-1389 | two ordinary replies from one buffer, clean before the first: what the first leaves behind makes the host of the second a pointer to the byte in front of that pointer, the message is not sound, and walking it up to the length sent fails |
| MdnsTwoReplies.HostMisread | managed_components/espressif__mdns/mdns_send.c:686-738 | the host of that second reply is a case of the misreading above |
| MdnsLetters.RepeatedIsPointer | managed_components/espressif__mdns/mdns_send.c:686-724 | what compression is for: a name written again behind itself takes two bytes |
| MdnsName.EarlierNamesKept | managed_components/espressif__mdns/mdns_send.c:678-739 | every name already in the packet decodes and parses after an append to what it did before |
| MdnsName.HostNamedLikeDomain | managed_components/espressif__mdns/mdns_send.c:686-738 | the failing family is inhabited: a host called "local" in an empty packet is written as a name that cannot be read |
| MdnsMessage.WriteTxt | managed_components/espressif__mdns/mdns_send.c:1019-1033 | the entries are written one after another, or a single zero byte when there are none |
| MdnsMessage.WriteRecord | managed_components/espressif__mdns/mdns_send.c:792-1087 | owner, fixed fields and data are written and the data length is patched in afterwards, as specified |
| MdnsMessage.WriteSection | managed_components/espressif__mdns/mdns_send.c:1361-1383 | a section writes its records and then its own count |
| MdnsMessage.DispatchTxPacket | managed_components/espressif__mdns/mdns_send.c:1340-1389 | header, questions and three sections leave exactly the specified packet and length |
| MdnsMessage.AnswerRecordsOk | managed_components/espressif__mdns/mdns_send.c:1226-1261 | no part of a PTR, SRV, TXT or SDPTR record of a legal service is long enough for an 8-bit length to truncate; a PTR answer is one record and one for each subtype |
| MdnsMessage.RecordLength | managed_components/espressif__mdns/mdns_send.c:792-1087 | the length reported for a record is the number of bytes written for it: no part is truncated |
| MdnsMessage.QuestionLength | managed_components/espressif__mdns/mdns_send.c:745-783 | the byte in which the length of a question is summed up holds the number of its bytes, so that every question written is counted |
| MdnsMessage.RecordWalks | managed_components/espressif__mdns/mdns_send.c:792-1087 | a record whose names point to plain names in front of it (RecordSound), just appended, is walked from its start to exactly its end: its names decode and its length field is right |
| MdnsMessage.WalkRecordStable | managed_components/espressif__mdns/mdns_send.c:792-1087 | a record once well formed stays so when more is appended behind it |
| MdnsMessage.EntriesFill | managed_components/espressif__mdns/mdns_send.c:115-133 | text entries fill the record data exactly, length byte by length byte |
| MdnsMessage.SectionFrame | managed_components/espressif__mdns/mdns_send.c:1361-1383 | a section changes nothing before it except its own count |
| MdnsMessage.DispatchedIsWellFormed | managed_components/espressif__mdns/mdns_send.c:1340-1389 | for every message no part of which runs out of room where it is written and every name of which points to plain names in front of it (MessageSound; MdnsAnswers.QuietIsSound says where that holds): the four counts are the true numbers, and walking the counted questions and records ends exactly at the length sent |
| MdnsQuiet.TidyFindsPlain | managed_components/espressif__mdns/mdns_send.c:686-724 | where every byte that could be the length of a label in play begins a plain name, a search for a name of such labels finds only plain names |
| MdnsQuiet.QuietFindsBelow | managed_components/espressif__mdns/mdns_send.c:686-738 | and it finds none in the name being written, nor in the bytes of a record in front of it |
| MdnsQuiet.NameGood | managed_components/espressif__mdns/mdns_send.c:678-739 | writing a name keeps it so: every byte of it that could be such a length begins a plain name |
| MdnsQuiet.RecordQuiet | managed_components/espressif__mdns/mdns_send.c:792-1087 | so does a record with nice names and with a port and a text that do not look like labels: it finds only plain names and leaves the packet so |
| MdnsAnswers.QuietIsSound | managed_components/espressif__mdns/mdns_send.c:1340-1389 | every message of such questions and records meets the condition of well-formedness, with all its pointers: in a clean buffer, and in any buffer at all when labels have 2 to 11 bytes and the message at most 256 |
| MdnsAnswers.AnswersAreSound | managed_components/espressif__mdns/mdns_send.c:1226-1261 | messages built from PTR, SDPTR, SRV and TXT answers for services with nice names meet the condition of well-formedness, under the same alternative |
| MdnsDiscovery.AnswersArrive | managed_components/espressif__mdns/mdns_send.c:792-1087 | of every sound message built from answers the receiver reads what they say of their services, stated from the services alone: which name points to which, host and port, the text items exactly if they are readable, and how long each may be believed, 4500 and 120 seconds, or zero in a goodbye (section 10.1 of RFC 6762); of all answers, or of none after the early return |
| MdnsDiscovery.AnswersAreRead | managed_components/espressif__mdns/mdns_send.c:1340-1389 | so messages of answers for services with nice names are well formed, and all of that is read in them, though names have been replaced by pointers |
| MdnsAnswers.TextQuiet | managed_components/espressif__mdns/mdns_send.c:1019-1033 | texts shorter than 256 bytes whose items have values, and no character of which equals a label length in play, are among those allowed |
| MdnsAnswers.GatewayIsNice | managed_components/espressif__mdns/mdns_send.c:1226-1261 | the class is inhabited: a web server called gateway on esp32.local, port 80, with a text item |
| MdnsReceive.RecordEnd | managed_components/espressif__mdns/mdns_receive.c:755-773 | the record cursor moves strictly forward and stays inside the packet |
| MdnsReceive.ParseRecord | managed_components/espressif__mdns/mdns_receive.c:755-773 | a record with a bad name, a cut header, no data or data past the end drops the packet; any other is skipped by its length |
| MdnsReceive.DroppedExactly | managed_components/espressif__mdns/mdns_receive.c:755-773 | a record whose owner decodes is dropped if and only if its fixed fields or its data do not end in the packet, or it has no data; otherwise the cursor moves to the end of its data |
| MdnsReceive.ParseRecords | managed_components/espressif__mdns/mdns_receive.c:750-773 | the loop over records ends on every packet and visits what the specification says |
| MdnsReceive.ParsePacket | managed_components/espressif__mdns/mdns_receive.c:669-773 | the whole cursor walk, with the question counter in one byte and the early return when questions concern nobody here, as specified |
| MdnsReceive.ParseQuestions | managed_components/espressif__mdns/mdns_receive.c:669-683 | the counted loop over questions visits what the specification says, or drops the packet |
| MdnsReceive.QuestionsAgree | managed_components/espressif__mdns/mdns_receive.c:669-683 | the cursor accepts every question that the RFC 1035 walker accepts and lands where it does |
| MdnsReceive.RecordsAgree | managed_components/espressif__mdns/mdns_receive.c:750-773 | records that fill the packet are visited each at its start, and no others |
| MdnsReceive.WellFormedIsVisited | managed_components/espressif__mdns/mdns_receive.c:669-773 | in a packet whose announced questions and records fill it, the loops visit all of them, each at its start, if and only if fewer than 256 questions are announced; no records when there are questions, no answers, and no question concerns this host |
| MdnsReceive.QuestionsMissed | managed_components/espressif__mdns/mdns_receive.c:669-672 | the failing family is inhabited: a packet of 256 questions, of which none is visited |
| MdnsArrive.RecordCarried | managed_components/espressif__mdns/mdns_send.c:792-1087 | a sound record just appended is read with its owner, type, class, time to live and data, names up to case |
| MdnsArrive.DispatchedArrives | managed_components/espressif__mdns/mdns_receive.c:669-773 | sender meets receiver: of a dispatched message that is sound (MessageSound), the k-th question visited is the k-th question put in, and the k-th record visited has the owner, type, class, time to live and data of the k-th record put in, across all sections; all records, or none after the early return |
| MdnsArrive.CarriedIsParsed | managed_components/espressif__mdns/mdns_utils.c:71-103 | wherever a record is carried, the parser files its owner and the name in its data part by part into host, service, proto and domain |
| MdnsTxt.CountItems | managed_components/espressif__mdns/mdns_receive.c:181-203 | the counting loop, with its special case of one byte and its error |
| MdnsTxt.ItemLength | managed_components/espressif__mdns/mdns_receive.c:208-219 | the key ends at the first equals sign; a text that begins with one has no key |
| MdnsTxt.CreateItems | managed_components/espressif__mdns/mdns_receive.c:224-316 | the creating loop delivers exactly the specified items, or none when either pass fails |
| MdnsTxt.CountEntries | managed_components/espressif__mdns/mdns_receive.c:181-203 | the counting pass counts written entries when no text is empty |
| MdnsTxt.ItemsEntries | managed_components/espressif__mdns/mdns_receive.c:224-316 | the creating pass gives back readable items, in order |
| MdnsTxt.SpanBounded | managed_components/espressif__mdns/mdns_receive.c:256-301 | only a last item without an equals sign makes the creating pass overshoot the data, and by one byte |
| MdnsTxt.RoundTrip | managed_components/espressif__mdns/mdns_receive.c:181-316 | text items written by the sender are read back if and only if all keys are non-empty and free of equals signs and all items but the last have a value; the two passes then agree |
| MdnsTxt.KeyOnlyLosesRecord | managed_components/espressif__mdns/mdns_receive.c:283-283 | a concrete record with a key-only item in front, of which the receiver gets nothing |
| MdnsCollision.CheckSrvCollision | managed_components/espressif__mdns/mdns_receive.c:438-490 | the verdict on a received service record, built from the bytes of both sides |
| MdnsCollision.ComparedIsRecord | managed_components/espressif__mdns/mdns_receive.c:438-476 | the bytes compared are the data of the record: they read back as its priority, weight and port and the names of its host |
| MdnsCollision.CheckTxtCollision | managed_components/espressif__mdns/mdns_receive.c:393-433 | the verdict on received text data, including the shortcuts for empty data |
| MdnsCollision.ContestIsTotalOrder | managed_components/espressif__mdns/mdns_receive.c:478-489 | the contest is antisymmetric, transitive, and undecided only between equal data |
| MdnsCollision.OneWinner | managed_components/espressif__mdns/mdns_receive.c:478-489 | among any number of contenders with different data exactly one beats all the others |
| MdnsCollision.AsInTheRfc | managed_components/espressif__mdns/mdns_receive.c:448-489 | the verdict is that of section 8.2 of RFC 6762 exactly when the lengths are equal or the shorter data does not exceed the beginning of the longer |
| MdnsCollision.SrvContestConsistent | managed_components/espressif__mdns/mdns_receive.c:438-490 | two responders on "local" reach opposite verdicts exactly when both or neither have a host name, and see no conflict exactly on the same record |
| MdnsCollision.TxtContestConsistent | managed_components/espressif__mdns/mdns_receive.c:393-433 | two responders reach opposite verdicts on their text unless a single empty item meets data of one byte |
| MdnsRename.MangledFits | managed_components/espressif__mdns/mdns_receive.c:155-175 | the new name and its terminator fit the allocated bytes, for every name |
| MdnsRename.ValueOfDigits | managed_components/espressif__mdns/mdns_receive.c:174-174 | printed and read again, a decimal number is the same number |
| MdnsRename.SuffixOfNumbered | managed_components/espressif__mdns/mdns_receive.c:140-153 | a name with a number comes apart into its base and that number, even if the base has dashes and digits of its own |
| MdnsRename.SuffixExactly | managed_components/espressif__mdns/mdns_receive.c:138-153 | a name ends in a number if and only if white space, perhaps a plus sign, and digits stand behind its last dash, or nothing, which is zero; any other name is kept whole |
| MdnsRename.RenamedIs | managed_components/espressif__mdns/mdns_receive.c:138-176 | after k conflicts the number has gone up by k, for exactly as long as it fits an int |
| MdnsRename.DashFree | managed_components/espressif__mdns/mdns_receive.c:138-176 | a name without a dash becomes name-(k+1) at the k-th conflict |
| MdnsRename.NeverRepeats | managed_components/espressif__mdns/mdns_receive.c:138-176 | renaming never comes back to an earlier name, whatever the first name was |
| MdnsTxQueue.TxQueue.SendAfter | managed_components/espressif__mdns/mdns_send.c:1628-1646 | a packet goes in front of the first one due later |
| MdnsTxQueue.TxQueue.ClearIf | managed_components/espressif__mdns/mdns_send.c:1667-1687 | every packet of the port is dropped, at the head and behind it, and no other |
| MdnsTxQueue.TxQueue.GetNextPacket | managed_components/espressif__mdns/mdns_send.c:1695-1705 | the first packet of the port, or none |
| MdnsTxQueue.TxQueue.SendPackets | managed_components/espressif__mdns/mdns_send.c:1714-1746 | a timer tick marks and posts what is due, with failed posts undone and exhausted memory ending it |
| MdnsTxQueue.TxQueue.TakeHead | managed_components/espressif__mdns/mdns_send.c:1837-1848 | a send action takes the packet only from the head and only if marked |
| MdnsTxQueue.InsertKeeps | managed_components/espressif__mdns/mdns_send.c:1628-1646 | scheduling keeps the whole discipline: a new packet never lands among those handed over |
| MdnsTxQueue.DropKeeps | managed_components/espressif__mdns/mdns_send.c:1667-1687 | removing any packets keeps it |
| MdnsTxQueue.TickKeepsExactly | managed_components/espressif__mdns/mdns_send.c:1728-1744 | a timer tick keeps it if and only if no post succeeds after one that found the action queue full in the same tick |
| MdnsTxQueue.ServeKeeps | managed_components/espressif__mdns/mdns_service.c:200-220 | executing any action keeps it, also when the packet is scheduled again; what is sent then, MdnsTxDelivery states |
| MdnsTxDelivery.ServedIsSent | managed_components/espressif__mdns/mdns_send.c:1837-1848 | serving the send action of a packet that still exists sends exactly that packet |
| MdnsTxDelivery.OthersSendNothing | managed_components/espressif__mdns/mdns_send.c:1837-1848 | no other step sends anything |
| MdnsTxDelivery.LeavesOnlySentOrRemoved | managed_components/espressif__mdns/mdns_send.c:1837-1848 | a packet leaves the list only in a step that removes it, or that sends it and does not schedule it again |
| MdnsTxDelivery.NoneIsLost | managed_components/espressif__mdns/mdns_send.c:1714-1848 | in every run whatever is no longer in the list has been removed or sent |
| MdnsTxDelivery.HandedIsSent | managed_components/espressif__mdns/mdns_send.c:1837-1848 | in every run a packet handed over is sent once the service task has served the actions up to its own, unless it is removed first |
| MdnsTxDelivery.DueIsSent | managed_components/espressif__mdns/mdns_send.c:1714-1746 | in every run a packet that is due at a tick whose posts get through is sent once the actions pending then are served, unless it is removed first |
| MdnsTxQueue.LiveActionFindsHead | managed_components/espressif__mdns/mdns_send.c:1837-1848 | the send action of a packet that still exists finds it marked at the head |
| MdnsTxQueue.StepKeepsInv | managed_components/espressif__mdns/mdns_service.c:161-226 | every interleaved step of timer, service task, scheduling and removal keeps the invariant, ticks as in the row on ticks |
| MdnsTxQueue.RunKeepsInv | managed_components/espressif__mdns/mdns_service.c:200-226 | so it holds throughout every run |
| MdnsTxQueue.QueueDiscipline | managed_components/espressif__mdns/mdns_send.c:1628-1746 | in every run the list is sorted, the marked packets are a prefix, and they are, in order, the live pending send actions |
| MdnsTxQueue.SentInOrder | managed_components/espressif__mdns/mdns_send.c:1714-1746 | in every run packets are sent in the order of their times and never early |
| MdnsTxQueue.StuckIsReached | managed_components/espressif__mdns/mdns_send.c:1728-1744 | a run from the start, of two packets scheduled and due, in which a failed post followed by a successful one leaves a marked head without an action |
| MdnsTxQueue.StuckStays | managed_components/espressif__mdns/mdns_send.c:1721-1727 | from then on nothing is sent until that head is removed |
| MdnsPcb.PcbRecord.ScheduleTxPacket | managed_components/espressif__mdns/mdns_pcb.c:211-259 | what the machine becomes and what happens to the packet after each sending, as the specification function says; how often and how far apart it announces by that, MdnsAnnounce states |
| MdnsPcb.PcbRecord.InitProbe | managed_components/espressif__mdns/mdns_pcb.c:339-424 | probing starts with the new services joined to those being probed, none twice |
| MdnsPcb.PcbRecord.CheckProbingServices | managed_components/espressif__mdns/mdns_pcb.c:261-300 | a removed service leaves the probe; the last one ends it unless addresses are probed |
| MdnsPcb.EventKeepsQueue | managed_components/espressif__mdns/mdns_pcb.c:211-424 | no event of an interface disturbs the discipline of the shared packet list |
| MdnsQuestions.ProbePacket.RemoveQuestion | managed_components/espressif__mdns/mdns_send.c:1796-1815 | the first question with the service and protocol of the withdrawn service is removed, whichever instance it asks for |
| MdnsQuestions.WithdrawnQuestion | managed_components/espressif__mdns/mdns_send.c:1792-1815 | by that rule a probe asks, of each type, for the last of the services it was started with, as many as are still recorded |
| MdnsQuestions.OwnQuestionGoes | managed_components/espressif__mdns/mdns_send.c:1792-1815 | a withdrawn service takes away its own question if and only if none of its type stands before it |
| MdnsPcb.NextIsProbe | managed_components/espressif__mdns/mdns_pcb.c:211-226 | while probing, the packet about to be sent is the probe, due, and the only one scheduled |
| MdnsPcb.SendKeepsProbe | managed_components/espressif__mdns/mdns_pcb.c:211-259 | sending keeps exactly one probe scheduled, due 250 ms later |
| MdnsPcb.StartKeepsProbe | managed_components/espressif__mdns/mdns_pcb.c:389-424 | a restart leaves exactly one packet, a probe with a question and an entry for every service recorded |
| MdnsPcb.WithdrawKeepsProbe | managed_components/espressif__mdns/mdns_send.c:1778-1825 | removing any service leaves the probe scheduled for as long as the interface is probing, without the entry of the service and without one question of its type |
| MdnsPcb.EventKeepsInv | managed_components/espressif__mdns/mdns_pcb.c:153-424 | every event keeps the joint invariant |
| MdnsPcb.HistoryKeepsInv | managed_components/espressif__mdns/mdns_pcb.c:153-424 | it holds throughout every run |
| MdnsPcb.OnePacketWhileProbing | managed_components/espressif__mdns/mdns_pcb.c:211-259 | in every run a probing interface has exactly one packet scheduled, with entries for exactly the services recorded and questions for the last of each type asked for; once sent, it is due again 250 ms after that |
| MdnsPcb.AsksForRecordedExactly | managed_components/espressif__mdns/mdns_send.c:1792-1815 | in every run the probe asks for the services recorded if and only if none has been withdrawn that stood behind a recorded one of its type |
| MdnsPcb.WithdrawKeepsQuestionsExactly | managed_components/espressif__mdns/mdns_send.c:1792-1815 | one removal keeps the questions right if and only if the service is the first of its type in the probe |
| MdnsPcb.OthersQuestionGoes | managed_components/espressif__mdns/mdns_send.c:1792-1815 | a run in which it is not: the probe goes on asking for the service removed, and not for the one that stays |
| MdnsPcb.RecordedAreAnnounced | managed_components/espressif__mdns/mdns_send.c:1479-1514 | what is announced after probing, 250 ms later, is every service recorded, whether or not it was asked for |
| MdnsPcb.AnnouncedAfterThreeProbes | managed_components/espressif__mdns/mdns_pcb.c:211-247 | announcing is reached only by the third probe since the last restart (more only for announcements that could not be allocated), probes more than 250 ms apart: section 8.1 of RFC 6762 |
| MdnsPcb.WaysPastProbing | managed_components/espressif__mdns/mdns_pcb.c:261-300 | the only other ways past probing are a missing host name and the removal of the last probed service |
| MdnsProbed.RecordedExactly | managed_components/espressif__mdns/mdns_pcb.c:261-424 | in every run a service is among those being probed if and only if probing has been started for it and has not been ended for it since: by its removal, a fresh start without it, the announcement, or the interface going down; none is forgotten when probing starts again for others |
| MdnsProbed.FirstProbeExactly | managed_components/espressif__mdns/mdns_pcb.c:331-386 | in every run a start of probing leaves exactly one packet scheduled, for 120 to 247 ms later, or for 1000 to 1127 if and only if more than five probes have failed since failures were last forgotten, counted in sixteen bits |
| MdnsProbed.OthersStay | managed_components/espressif__mdns/mdns_pcb.c:153-424 | no event of one interface changes a packet of another, unless it carries the service removed |
| MdnsAnnounce.RunningAfterThree | managed_components/espressif__mdns/mdns_pcb.c:211-259 | in every run, without restart, disabling, duplicate or emptied announcement, an interface that began announcing is running if and only if three packets have been sent since; after one and two it is in the phases between |
| MdnsAnnounce.RepeatedExactly | managed_components/espressif__mdns/mdns_pcb.c:238-254 | a packet sent in the first two phases of announcing is scheduled again a thousand milliseconds later; sent in the third, or while running, it is gone |
| MdnsAnnounce.AnnouncedThreeTimes | managed_components/espressif__mdns/mdns_pcb.c:211-259 | in every run an announcement left to itself goes out three times, more than a thousand milliseconds apart, always the same packet, and then the interface is running: section 8.3 of RFC 6762 |
| MdnsAnnounce.JoinsAnnouncing | managed_components/espressif__mdns/mdns_pcb.c:50-70 | what is to be announced while announcing joins the next packet of the interface, in addition to what is in it, announcing begins afresh, and nothing else changes |
| MdnsAnnounce.AfreshTakesThree | managed_components/espressif__mdns/mdns_pcb.c:43-84 | in every run, announcing that has begun afresh ends with the third packet sent from then on |
| MdnsAnnounce.TwoRepliesCanHappen | managed_components/espressif__mdns/mdns_send.c:1714-1746 | these two replies can be scheduled, become due and be handed over by one tick while an interface announces |
| MdnsAnnounce.RepliesUseUpAnnouncing | managed_components/espressif__mdns/mdns_pcb.c:211-259 | two replies sent in front of an announcement are repeated in its place, and the announcement goes out once |
| EpppUart.FramesAppend | managed_components/espressif__eppp_link/eppp_uart.c:102-208 | scanning a stream in two parts gives the frames of the whole |
| EpppUart.SettleSound | managed_components/espressif__eppp_link/eppp_uart.c:184-205 | bytes in front of the first magic byte never matter |
| EpppUart.RoundTrip | managed_components/espressif__eppp_link/eppp_uart.c:39-57 | concatenated encodings are scanned back into exactly the frames, with nothing left over |
| EpppUart.WrittenHeader | managed_components/espressif__eppp_link/eppp_uart.c:39-57 | a written frame begins with the magic byte and the channel, its third byte is the exclusive or of the fourth and fifth, and these two are its size |
| EpppUart.AcceptedExactly | managed_components/espressif__eppp_link/eppp_uart.c:124-160 | a header is accepted if and only if it begins with the magic byte, its third byte is the exclusive or of the fourth and fifth, and its size is at most 1500 |
| EpppUart.DamagedIsLost | managed_components/espressif__eppp_link/eppp_uart.c:124-207 | a frame with one of its check byte and two size bytes damaged is not delivered; the frames before it are, and those behind it are when no other byte of it is magic |
| EpppUart.DeliveredStand | managed_components/espressif__eppp_link/eppp_uart.c:124-207 | of every stream: each frame delivered stands in it, in order, exactly as a sender writes it, with other bytes in between |
| EpppUart.Transmit | managed_components/espressif__eppp_link/eppp_uart.c:39-57 | one frame is assembled in the output buffer and written out whole |
| EpppUart.LoopRefinesScanner | managed_components/espressif__eppp_link/eppp_uart.c:124-207 | the buffered loop, with its jumps and compaction, delivers the frames of the reference scanner and keeps all that can matter |
| EpppUart.LoopLeavesRoom | managed_components/espressif__eppp_link/eppp_uart.c:102-208 | each run of the loop ends inside the buffer with free room, except exactly when a largest frame lies half received in the second half |
| EpppUart.StallIsReached | managed_components/espressif__eppp_link/eppp_uart.c:27-37 | that exception is reached: a 1499-byte payload followed by a 1500-byte one leaves the receiver full for good |
| EpppUart.SmallPayloadsNoLargest | managed_components/espressif__eppp_link/eppp_uart.c:39-57 | streams of payloads up to 1499 bytes never announce the size that stalls |
| EpppUart.Receiver.DropUnread | managed_components/espressif__eppp_link/eppp_uart.c:167-180 | bytes are dropped and the rest moved to the front when room is short, contents unchanged |
| EpppUart.Receiver.Fill | managed_components/espressif__eppp_link/eppp_uart.c:109-122 | as many bytes as fit are appended |
| EpppUart.Receiver.Parse | managed_components/espressif__eppp_link/eppp_uart.c:124-207 | the parsing loop ends and delivers what the specification says |
| EpppUart.Receiver.ProcessPacket | managed_components/espressif__eppp_link/eppp_uart.c:102-208 | one call keeps the history: all frames delivered so far are the scan of all bytes taken so far |
| EpppUart.ReceiveAll | managed_components/espressif__eppp_link/eppp_uart.c:211-242 | for any stream, garbage included, and any split into reads, the frames delivered are those of scanning it at once, provided none announces the largest size |
| EpppUart.TransferAll | managed_components/espressif__eppp_link/eppp_uart.c:39-57 | end to end: payloads below 1500 bytes arrive as sent, under any chunking |
| EpppSpi.FragmentsRejoin | managed_components/espressif__eppp_link/eppp_spi.c:72-97 | the fragments of a buffer rejoin to it; all but the last are full, and none is too long |
| EpppSpi.Endpoint.Transmit | managed_components/espressif__eppp_link/eppp_spi.c:72-106 | success exactly when all fragments fit the queue; otherwise it is filled with the first ones |
| EpppSpi.Endpoint.PopOutbound | managed_components/espressif__eppp_link/eppp_spi.c:365-370 | wake-ups in front of the next packet are dropped |
| EpppSpi.Endpoint.Begin | managed_components/espressif__eppp_link/eppp_spi.c:335-378 | up to the transaction: the slot is sent if it fits the announced size, and the size of the next is announced |
| EpppSpi.Endpoint.Finish | managed_components/espressif__eppp_link/eppp_spi.c:379-408 | a refused transaction resets the size; an accepted one delivers and takes the larger announcement |
| EpppSpi.PrepareKeeps | managed_components/espressif__eppp_link/eppp_spi.c:341-376 | preparing a transaction loses, repeats and reorders nothing |
| EpppSpi.SettleKeeps | managed_components/espressif__eppp_link/eppp_spi.c:379-408 | a finished transaction takes exactly the packet in flight off the books |
| EpppSpi.StepKeepsInv | managed_components/espressif__eppp_link/eppp_spi.c:317-409 | every joint step keeps the joint invariant |
| EpppSpi.RunKeepsInv | managed_components/espressif__eppp_link/eppp_spi.c:317-409 | it holds throughout every run |
| EpppSpi.LockstepSizes | managed_components/espressif__eppp_link/eppp_spi.c:317-409 | in every run both ends hold the same transaction size, header and payload fit the transfer buffer, and a packet in flight fits its transaction |
| EpppSpi.Conservation | managed_components/espressif__eppp_link/eppp_spi.c:317-409 | in runs without rejected transactions, delivered then pending is what was queued, in each direction |
| EpppSpi.LossOnly | managed_components/espressif__eppp_link/eppp_spi.c:379-394 | with rejected transactions packets may be lost, but none is repeated, altered or overtaken |
| EpppSpi.ExchangeAgrees | managed_components/espressif__eppp_link/eppp_spi.c:379-408 | an intact transaction makes room for both next packets; a rejected one brings both ends to size zero |
| EpppSpiProgress.TurnConserves | managed_components/espressif__eppp_link/eppp_spi.c:317-409 | a transaction begun or finished in any state moves packets from what waits to what has arrived, and does nothing else to them |
| EpppSpiProgress.TurnDelivers | managed_components/espressif__eppp_link/eppp_spi.c:335-408 | when there is room for both, a transaction that the master has a reason to start delivers the next packet of each end |
| EpppSpiProgress.SleepsExactly | managed_components/espressif__eppp_link/eppp_spi.c:341-408 | after a transaction the master goes to sleep if and only if it has nothing to send next, has not been woken to read a second time, and, unless the transaction was rejected, the slave has nothing either; otherwise, and only then, it can begin another |
| EpppSpiProgress.EverythingArrives | managed_components/espressif__eppp_link/eppp_spi.c:317-409 | from every state of every run, intact transactions, two more than the longer queue has entries, deliver everything that waits, in order |
| EpppSpiProgress.BufferArrives | managed_components/espressif__eppp_link/eppp_spi.c:72-106 | end to end: a buffer of any length sent from either end arrives in fragments that put together give the buffer, behind what waited before it |
| EsslSdio.DistanceModulo | managed_components/espressif__esp_serial_slave_link/essl_sdio.c:370-398 | the credit computed from counts that wrap at different moduli is the true one, if and only if less than a full turn is outstanding |
| EsslSdio.LeastBuffers | managed_components/espressif__esp_serial_slave_link/essl_sdio.c:277-278 | the buffers charged for a packet are the least number that holds it |
| EsslSdio.KnownCreditSuffices | managed_components/espressif__esp_serial_slave_link/essl_sdio.c:279-294 | with enough credit known nothing is asked of the slave |
| EsslSdio.Context.SendPacket | managed_components/espressif__esp_serial_slave_link/essl_sdio.c:274-322 | the packet goes out whole exactly when the credit, refreshed at most once, suffices; what the slave takes is the requested bytes in order |
| EsslSdio.Context.SendPieces | managed_components/espressif__esp_serial_slave_link/essl_sdio.c:296-318 | at most two transfers, each of whole blocks or of at most 512 bytes rounded up to four: what lies before the end address is exactly the packet |
| EsslSdio.Context.GetPacket | managed_components/espressif__esp_serial_slave_link/essl_sdio.c:324-368 | the bytes asked for arrive in order exactly when announced; otherwise the buffer is untouched |
| EsslSdio.CreditIsTrue | managed_components/espressif__esp_serial_slave_link/essl_sdio.c:370-398 | the computed credit is latched loads minus true uses, also after the 32-bit count has wrapped |
| EsslSdio.SendSucceedsExactly | managed_components/espressif__esp_serial_slave_link/essl_sdio.c:274-322 | an attempt to send succeeds if and only if the packet is no longer than the buffers that the slave really has free |
| EsslSdio.GetSucceedsExactly | managed_components/espressif__esp_serial_slave_link/essl_sdio.c:324-368 | an attempt to read succeeds if and only if the slave really has the bytes |
| EsslSdio.NeverOverdrawn | managed_components/espressif__esp_serial_slave_link/essl_sdio.c:274-414 | in every run the host has used no more buffers and bytes than the slave provided |
| EsslSdio.TimeRemainExactly | managed_components/espressif__esp_serial_slave_link/essl.c:20-26 | the time left is right if and only if the tick count has not wrapped or the time is up; after a wrap it is one too many |
| ChargeControl.Controller.SetChargeEnable | main/pwr_source_handler.c:127-140 | state, pin and charger agree afterwards |
| ChargeControl.Controller.MonitorWithStatus | main/pwr_source_handler.c:215-370 | one reading: counters, state and recorded tick become what the specification says, and the hardware follows |
| ChargeControl.CountersCount | main/pwr_source_handler.c:274-361 | the counter in use counts consecutive readings that argued for the change |
| ChargeControl.ToggledExactly | main/pwr_source_handler.c:215-370 | in every run, the state changes at exactly those readings that are the third in a row for it, fifteen seconds by the wrapped tick count after the latest change, or with that recorded at tick zero, or with none |
| ChargeControl.ToggleIsDebounced | main/pwr_source_handler.c:274-361 | a change follows three consecutive readings for it: all at least 4100 mV for a stop, all within 1 to 3999 mV for a resumption |
| ChargeControl.BandIsNeutral | main/pwr_source_handler.c:274-361 | readings from 4000 to 4099 mV change nothing and start the counting again |
| ChargeControl.LastToggleRecorded | main/pwr_source_handler.c:297-311 | the recorded tick is that of the latest change |
| ChargeControl.TogglesAreSpaced | main/pwr_source_handler.c:254-258 | consecutive changes are at least fifteen seconds apart across any wrap, unless the earlier one fell on tick zero |
| ChargeControl.ChangesBackExactly | main/pwr_source_handler.c:254-258 | in every run, three opposing readings right after a change undo it if and only if fifteen seconds have passed by the wrapped tick count or the change was recorded at tick zero |
| ChargeControl.CooldownMissed | main/pwr_source_handler.c:254-258 | a run in which a change at the wrap of the tick count is undone three ticks later |
| ChargeControl.OneToggleInThree | main/pwr_source_handler.c:274-361 | n readings give at most n/3 changes |
| Bridge.BetweenPush | bootloader_components/main/boot_support_function.c:338-338 | writing the head cell and stepping on appends a byte to what the ring holds |
| Bridge.BetweenPop | bootloader_components/main/boot_support_function.c:339-339 | stepping the tail on takes the first byte off |
| Bridge.BetweenLength | bootloader_components/main/boot_support_function.c:336-337 | the full and empty tests are right: a ring of n cells holds at most n-1 bytes |
| Bridge.Ring.Unpop | bootloader_components/main/boot_support_function.c:433-436 | undoing a pop restores the ring to exactly what it held |
| Bridge.Link.ReadPc | bootloader_components/main/boot_support_function.c:369-397 | bytes are taken until none is there or the ring is full, and the first one latches its source |
| Bridge.Link.WriteSlave | bootloader_components/main/boot_support_function.c:399-409 | as many bytes as the slave FIFO has room for, in order |
| Bridge.Link.ReadSlave | bootloader_components/main/boot_support_function.c:411-425 | before a source is known slave bytes are discarded; afterwards they are queued |
| Bridge.Link.WritePc | bootloader_components/main/boot_support_function.c:427-448 | to USB until its FIFO is full, with the popped byte put back; to UART everything |
| Bridge.Link.PassToSlave | bootloader_components/main/boot_support_function.c:366-409 | USB is read first, UART only while USB is not latched, and the slave gets as much as it has room for |
| Bridge.Link.PassToPc | bootloader_components/main/boot_support_function.c:411-448 | what the slave offers is discarded or queued as far as there is room, and the PC gets what it has room for |
| Bridge.Link.RunPass | bootloader_components/main/boot_support_function.c:366-448 | a pass takes the first part of what each side offers, as much as the rings have room for, passes on as much as there is room for, and loses and reorders nothing; a latched source stays |
| UsbVfs.ReadOnceSplits | managed_components/espressif__esp_tinyusb/vfs_tinyusb.c:158-204 | one read call is a part of the whole translation, is never too long, and makes progress |
| UsbVfs.ReadManySplits | managed_components/espressif__esp_tinyusb/vfs_tinyusb.c:158-204 | any sequence of read sizes gives a prefix of the translation, and enough calls give all of it |
| UsbVfs.ReadOnceStops | managed_components/espressif__esp_tinyusb/vfs_tinyusb.c:158-204 | a call stops at the first newline, at the size, or when the FIFO is empty, and nowhere else |
| UsbVfs.LinesWritten | managed_components/espressif__esp_tinyusb/vfs_tinyusb.c:119-150 | writing lines puts the line ending of the mode behind each |
| UsbVfs.LinesRead | managed_components/espressif__esp_tinyusb/vfs_tinyusb.c:158-204 | reading lines with the ending of the mode gives them with newlines |
| UsbVfs.RoundTrip | managed_components/espressif__esp_tinyusb/vfs_tinyusb.c:119-204 | writing then reading gives the data back if and only if it has no carriage return in CR mode |
| UsbVfs.WrittenThenRead | managed_components/espressif__esp_tinyusb/vfs_tinyusb.c:119-204 | the same through any sequence of non-empty read calls |
| UsbVfs.EarlyRead | managed_components/espressif__esp_tinyusb/vfs_tinyusb.c:158-204 | reading part of a stream before the rest has come matters exactly when a line ending is cut in two |
| UsbVfs.Port.Write | managed_components/espressif__esp_tinyusb/vfs_tinyusb.c:119-150 | the count is that of the bytes wholly queued; a full FIFO may leave half a line ending |
| UsbVfs.Port.Read | managed_components/espressif__esp_tinyusb/vfs_tinyusb.c:158-204 | one call reads up to the size or the first newline, and reports when nothing was there |
| DrawLine.Display.FillPoint | managed_components/espressif__ssd1306/ssd1306.c:173-190 | one pixel is lit and no other changes; off the display nothing does |
| DrawLine.Display.Steps | managed_components/espressif__ssd1306/ssd1306.c:258-295 | the loop of either branch lights one pixel for each step along the longer axis, at the rounded-down place across it |
| DrawLine.Display.Line | managed_components/espressif__ssd1306/ssd1306.c:248-297 | the pixels of the line are lit and no other pixel of the framebuffer changes |
| DrawLine.Follow | managed_components/espressif__ssd1306/ssd1306.c:262-273 | one pass with the accumulated error goes to the point that rounding down asks for |
| DrawLine.AcrossExactly | managed_components/espressif__ssd1306/ssd1306.c:262-273 | on a line that is not diagonal, the point drawn at step i lies d across exactly if d times the longer axis is the last multiple not above i + 1 times the shorter |
| DrawLine.EndpointsExact | managed_components/espressif__ssd1306/ssd1306.c:248-297 | both endpoints are on the line if and only if it is not diagonal |
| DrawLine.Connected | managed_components/espressif__ssd1306/ssd1306.c:262-273 | the points drawn have no gap |

## Left out

- Allocation failure is modelled where the code has a path for it in the packet scheduler (timer tick, announcement from a probe); elsewhere memory is assumed.
- `MdnsName.RoundTrip`: assumes FindsPlain, that a name the writer finds below the new one is a plain name there. The search reads up to the end of the buffer, so it can accept bytes that are no name, such as text data or stale bytes behind the written part. `MdnsQuiet.TidyFindsPlain` and `MdnsLetters.NewNameExactly` show the assumption for whole classes of packets; `MdnsTwoReplies.SecondReplyIsLost` shows two replies that break it. The reader's test for labels `_sub` and dotted hosts is modelled, names that contain such labels are not round-tripped.
- `MdnsStale.ReadBackExactly`: for labels of bytes below 0x80, and for places found that are plain names or misread at the byte where the pointer stands. Undecided is the rest: a place whose reading uses that byte as the second byte of another pointer, uses bytes behind it after a label that a zero byte ends early, or is no plain name without using it (with dotted hosts, for instance). What is read then depends on bytes that can have any value.
- `MdnsName.AppendDecodes`: under FindsPlain and FindsBelow, as `MdnsName.RoundTrip`.
- `MdnsLetters.CleanRoundTrip`: under FindsPlain, in a clean buffer.
- `MdnsMessage.RecordWalks`: under RecordSound, as `MdnsMessage.DispatchedIsWellFormed`.
- `MdnsLetters.RoundTrip`: under FindsPlain, as `MdnsName.RoundTrip`. Labels of which a digit, a dash or another character equals the length of one of them are not covered.
- `MdnsDiscovery.AnswersAreRead`: a class of messages, not all: labels of 2 to 44 bytes of ASCII letters, digits, underscores and dashes, no subtypes, priority and weight of zero, ports, texts and identifiers without bytes that look like label lengths. The buffer is clean for the first message only; for later ones labels have 2 to 11 bytes and messages at most 256. Outside the class `MdnsMessage.DispatchedIsWellFormed` states what has to hold.
- `MdnsAnswers.AnswersAreSound`: of that class.
- `MdnsDiscovery.AnswersArrive`: under MessageSound, as `MdnsMessage.DispatchedIsWellFormed`.
- `MdnsParts.ParsedExactly`: for names that the RFC 1035 decoder decodes; a pointer to a place that is not in front of the run of labels it stands in makes the reader fail.
- `MdnsName.ReadFqdn`: the second byte of a pointer is assumed to be inside the memory of the packet, as the code assumes it (mdns_utils.c:57).
- `MdnsMessage.DispatchedIsWellFormed`: under MessageSound, which `MdnsAnswers.QuietIsSound` shows for the messages described above and which `MdnsTwoReplies.SecondReplyIsLost` shows can fail; and for messages of which no part runs out of room where it is written. The append functions do not take back what they have written when it does, and such partial messages are not modelled. Address records, reverse lookups and questions for them are left out.
- `MdnsArrive.DispatchedArrives`: under MessageSound, in the same way.
- `MdnsMessage.DispatchTxPacket`: for questions with names of at most 251 bytes. The length of a question is summed up in one byte (mdns_send.c:747), which wraps to zero for a name of 252 bytes; with the domains in use names are shorter than 200.
- `MdnsReceive.ParsePacket`: the cursor, and when it stops early. What the parser does with questions and records is left out, so whether a question concerns this host is an input, and so are the packet filters in front of it.
- `MdnsCollision.CheckTxtCollision`: received data is shorter than a packet; longer data would be compared against memory that was never written. Address records have their own check, which asks the network interface and is not part of this model.
- `MdnsRename.RenamedIs`: the step beyond the largest int is undefined in C and is modelled as having no result. Leading minus signs cannot occur behind the last dash.
- `MdnsTxQueue.RunKeepsInv`: time does not wrap, packets are identified by a number that is never used again, the linked list is a sequence, and a tick is assumed to fail for good once it has failed. The action queue has no bound of its own: whether a post succeeds is an input.
- `MdnsPcb.HistoryKeepsInv`: a probe is always started for at least one service or for addresses, as every caller in the repository does. Creation of probe packets always succeeds. Which packets of other interfaces lose a question when a service is removed is an input. The flag that asks for unicast answers, cleared after the first probe, is left out.
- `EpppUart.ReceiveAll`: errors of the UART driver, the event queue and its resets on overflow are left out.
- `EpppSpi.RunKeepsInv`: a transaction succeeds or fails at both ends. One-sided rejection and the master's probing of an absent slave desynchronise the code and are left out, as are interrupts, semaphores and timers; their effect appears as steps. The CRC appears as the flag that says whether a header arrived intact.
- `EpppSpi.Endpoint.Finish`: channels beyond the network channel are handed over like it; which callback takes them is left out.
- `EsslSdio.NeverOverdrawn`: successful transfers only. A transfer that fails halfway and the counter reset, which forgets to reset the latched readings, are left out. Retry loops and their delays appear only through the time they have left.
- `ChargeControl.Controller.MonitorWithStatus`: with a status given; the path that reads the fuel gauge itself is left out, and the estimate from the voltage is an arbitrary function. A tick is 10 ms.
- `Bridge.Link.RunPass`: the exits of the loop (idle time, button, timeout) and the watchdog are left out.
- `UsbVfs.EarlyRead`: USB itself is left out; what arrives is what the FIFO holds.
- `DrawLine.Display.Line`: for endpoints on the display. The two loops of the source are one method with the axes exchanged. Clearing pixels, characters and bitmaps are left out.
- Application start-up, mode switching, the display menu, network interfaces, drivers, FatFs storage, the console commands and the font tables are left out: they are calls into code that is not in the repository or single branches.
