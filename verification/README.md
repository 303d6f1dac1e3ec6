# The wakaama LWM2M engine and the LCD rasteriser, modelled and proved

This project models the LWM2M engine in `wakaama/` (the client, and the parts of the server that face it) and the
line and circle drawing of `C12832/C12832.cpp`, and proves what they keep over every input and every run.

The behaviour of each C function is given twice. Functions on values say what it computes: from bytes to records, from
text to numbers, or from the state of the context before to the state after. Methods on arrays, linked nodes and the
fields of a class follow the C code, loop by loop and branch by branch, and are proved to compute just that. The
properties are lemmas about the functions.

| file | about |
|---|---|
| `Tlv.dfy`, `TlvInt.dfy` | the TLV format: records, nested to any depth, and integers in them |
| `SortedList.dfy` | the sorted linked list that holds every collection of the engine |
| `DecimalText.dfy`, `PlainText.dfy`, `Uri.dfy` | decimal numbers and paths, printed and read |
| `RegisterPayload.dfy`, `RegisterPayloadCode.dfy` | the registration payload, printed by the client and read by the server |
| `Client.dfy`, `Management.dfy`, `Engine.dfy` | the client: transactions, registration, bootstrap, the periodic step, requests, notification, and runs of them |
| `Context.dfy` | the same functions on a context that is changed in place |
| `Induction.dfy` | from what the elementary operations keep to what holds in every run |
| `ClientFacts.dfy`, `ManagementFacts.dfy` | counting transactions and outputs; what each part leaves alone |
| `Completion.dfy`, `Retransmission.dfy`, `Acknowledgement.dfy`, `Matching.dfy`, `Identifiers.dfy`, `Replies.dfy` | transactions over runs: how often sent, when, until when, ended by what, exactly once, what their identifiers tell, and what their end means for the server |
| `Updating.dfy`, `Bootstrapping.dfy`, `Starting.dfy` | what a step or a call of the application sends to which server, what each bootstrap state leads to, and which servers a start finds |
| `Requests.dfy` | which callbacks a request reaches, and what is answered |
| `NoStuck.dfy`, `Registering.dfy`, `BootstrapExclusion.dfy`, `BootstrapFacts.dfy`, `Locations.dfy`, `LocationFacts.dfy` | servers over runs |
| `OneServer.dfy` | a client of one server, step by step, for the runs that show what goes wrong |
| `SecurityIsolation.dfy` | who reaches the Security object |
| `Observe.dfy`, `Notifying.dfy` | observed paths and notifications |
| `Registry.dfy`, `RegistryCode.dfy` | the clients of a server |
| `Block.dfy` | block-wise answers |
| `Lcd.dfy` | pixels, lines and circles |

A run is a sequence of events: steps, packets, changed values, and calls of `lwm2m_start`,
`lwm2m_update_registration` and `lwm2m_deregister`, in any order, each with its own clock and surroundings. The log of a
state records every message sent, every reply handler called and every object callback called, so that a property
of a run can count them. Counters of what was drawn and made are part of the state for the same reason. Clock,
sessions opened by the connect callback, result codes of the object callbacks and the contents of the Security and
Server objects are parameters. All modes are modelled together; the Makefile of the repository builds only the client
mode.

## Where the code does not do what it is for

These are proved, each with the exact condition under which the code does meet its promise:

- The TLV round trip fails for empty composite records, which the parser rejects, and for payloads above 0xFFFFFF
  bytes, whose length field is never written (`Tlv.RoundTrip`, `Tlv.OversizeDecodes`).
- The overflow guard of `lwm2m_PlainTextToInt64` misses the last digit: "18446744073709551616" is read as 0
  (`PlainText.LargeIsRejected`, `PlainText.WrongTexts`).
- Identifier 65535 is printed in a registration payload but not read (`RegisterPayload.PayloadRoundTrip`), and the
  alternative paths /rd and /bs are taken for other resources (`Uri.SegmentsRoundTrip`). `lwm2m_decode_uri`
  accepts resource 65535 and `lwm2m_stringToUri` refuses it (`Uri.TextRoundTrip`).
- The alternative path test looks at as many characters as the segment has. A segment that is a proper prefix of the
  alternative path is taken for it, and one that goes on with a NUL is compared with the terminator and what happens to
  lie behind it (`Uri.AltPathIsCutShort`, `Uri.ServedInstead`).
- A segment with a slash in it is read up to the slash, as if the rest were not there (`Uri.DecodesExactly`).
- A registration payload with an alternative path and no object loses the path (`RegisterPayload.HeaderAlone`).
- Block sizes above REST_MAX_CHUNK_SIZE are cut, but offsets are counted in the size asked for, so blocks are lost
  unless the client adopts the smaller size (`Block.ReassemblyIfAndOnlyIf`, `Block.NegotiatedReassembly`).
- `lwm2m_update_registration` sends an update to a server that has given no location, for example right after a start,
  and a registration that is accepted without Location-Path leaves an empty location, to which updates go
  (`Locations.EveryUpdateHasALocation`, `Locations.UpdateToNowhere`, `Locations.UpdateToEmpty`).
- `lwm2m_update_registration` overrules the status of a server that waits for its registration, which stays under way
  with nobody waiting for it (`Registering.OneRegistrationAtATime`, `Registering.UpdateTooEarly`).
- The 65537th client gets an identifier that is in use (`Registry.NewClient`).
- The bounds test of `pixel` is inclusive: column 128 is drawn in column 0, eight rows down, and row 32 beyond the buffer
  (`Lcd.PixelIsExact`, `Lcd.DrawnIsShown`).
- Waits grow by a constant from one transmission to the next, not twofold as section 4.2 of RFC 7252 has it: the
  deadline is the one asked for up to the second transmission and too early from the third on
  (`Retransmission.DoublingEndsAtTwo`, `Retransmission.ThirdTransmission`).

## Model

| member | source | states |
|---|---|---|
| Tlv.RoundTrip | wakaama/tlv.c:372-546 | for every forest of records, nested to any depth, and any bytes that serialising it can leave, parsing gives back exactly the forest if and only if no composite record is empty and no payload exceeds 0xFFFFFF bytes |
| Tlv.NormalForm | wakaama/tlv.c:211-546 | for every byte string that is accepted with at least one record, serialising the result takes no more bytes than were consumed and those bytes are accepted as the same records |
| Tlv.WritesUnique | wakaama/tlv.c:474-546 | a forest whose payloads fit has one serialisation only |
| Tlv.WritesLength | wakaama/tlv.c:432-471 | the bytes written are exactly as many as the length computed beforehand, at every level of nesting |
| Tlv.HeaderRoundTrip | wakaama/tlv.c:36-270 | a header is read back with its type, identifier and length and the place of its data, whatever follows it |
| Tlv.OversizeDecodes | wakaama/tlv.c:64-270 | a record whose payload exceeds 24 bits is read back with an empty payload, whatever stood in the bytes its length field leaves unwritten |
| Tlv.HeaderIsMinimal | wakaama/tlv.c:36-270 | a header that is accepted is never shorter than the one that would be written for it |
| Tlv.ParsedIsWritable | wakaama/tlv.c:372-430 | whatever is accepted has no empty composite record, fits 24-bit lengths, and is not longer when written than when read |
| Tlv.CreateHeader | wakaama/tlv.c:64-113 | writes the header in place, with its identifier and length bytes in their widths, and changes no other byte of the buffer |
| Tlv.GetLength | wakaama/tlv.c:432-471 | computes the exact number of bytes a forest takes |
| Tlv.Serialize | wakaama/tlv.c:474-546 | gives a buffer that is exactly a serialisation of the forest, or 0 just for an empty array and for an empty composite record |
| Tlv.AppendRecord | wakaama/tlv.c:496-543 | puts header and payload behind the records written so far |
| Tlv.DecodeTlv | wakaama/tlv.c:211-270 | reads one header at a place of the buffer, or rejects it, as the decoding function on byte strings does |
| Tlv.TlvParse | wakaama/tlv.c:372-430 | the recursive loop over the buffer finds exactly the records that the byte string is accepted as; an empty composite record rejects everything |
| TlvInt.IntRoundTrip | wakaama/tlv.c:115-304 | every int64 but INT64_MIN is decoded to itself from the bytes it is encoded in |
| TlvInt.WidthIsLeast | wakaama/tlv.c:115-162 | the width chosen is the least of 1, 2, 4 and 8 bytes that leaves the sign bit free |
| TlvInt.IntNormalForm | wakaama/tlv.c:115-304 | every byte string that decodes to an integer can be encoded in no more bytes |
| TlvInt.IntRecordRoundTrip | wakaama/tlv.c:194-628 | an integer sent as a record is found again by parsing the record and decoding its value |
| TlvInt.EncodeInt | wakaama/tlv.c:115-162 | fills the caller's eight bytes from the end with exactly the encoding |
| TlvInt.OpaqueToInt | wakaama/tlv.c:272-304 | decodes exactly the byte strings of 1, 2, 4 or 8 bytes, sign and magnitude |
| TlvInt.IntToTLV | wakaama/tlv.c:194-209 | writes exactly the record of the integer, or nothing and 0 if the buffer is too short for it |
| SortedList.InsertKeepsSorted | wakaama/list.c:21-44 | adding keeps a list sorted, keeps its identifiers distinct if the new one is, and adds exactly the one element |
| SortedList.FindIsExact | wakaama/list.c:47-58 | in a sorted list an element is found if and only if its identifier is there |
| SortedList.RemoveIsExact | wakaama/list.c:61-96 | removing takes out exactly the element with the identifier |
| SortedList.NewIdIsFresh | wakaama/list.c:98-113 | the new identifier is unused if and only if fewer than 65536 are in use, and all lower ones are used |
| SortedList.ListAdd | wakaama/list.c:21-44 | relinks the nodes so that the list is the old one with the node inserted in its place |
| SortedList.ListFind | wakaama/list.c:47-58 | walks to the node that the search on sequences finds |
| SortedList.ListRemove | wakaama/list.c:61-96 | relinks the nodes so that the list is the old one without the identifier, and hands out the node taken |
| SortedList.ListNewId | wakaama/list.c:98-113 | computes the new identifier in 16 bits by one walk |
| PlainText.TextRoundTrip | wakaama/utils.c:56-221 | every int64 but INT64_MIN is read back from its printed text |
| PlainText.SmallIsExact | wakaama/utils.c:56-99 | every non-empty digit string with a value of at most INT64_MAX, with or without a minus sign, is read as exactly that value |
| PlainText.ReadAsEffective | wakaama/utils.c:56-99 | for every digit string, what the 64-bit loop computes: the number of the digits that are left once each wrap of the last digit is undone |
| PlainText.LargeIsRejected | wakaama/utils.c:76-86 | a digit string above INT64_MAX is rejected if and only if no prefix of it lies in 2^64 .. 2^64 + 3, or what is left behind that wrap is itself too large |
| PlainText.WrongTexts | wakaama/utils.c:56-99 | a minus sign alone is read as 0, and the texts of 2^64 to 2^64 + 3 are read as 0 to 3 |
| PlainText.OthersAreRejected | wakaama/utils.c:71-84 | a text with any other character behind the sign is rejected |
| PlainText.PlainTextToInt64 | wakaama/utils.c:56-99 | the loop over the buffer computes exactly the specified reading, including its failures |
| PlainText.IntToText | wakaama/utils.c:165-203 | fills the 32-byte buffer from its end with exactly the decimal text and leaves the rest of it alone |
| Uri.SegmentsRoundTrip | wakaama/uri.c:97-200 | the segments printed for a device management path decode to the same path if and only if it has an object, its instance is below 65535, a resource comes with an instance, and the alternative path is neither /rd nor /bs, whatever memory holds behind it |
| Uri.DmRoundTrip | wakaama/transaction.c:203-229 | without an alternative path, the printed segments decode to the same path exactly under the three conditions on the identifiers |
| Uri.DecodesExactly | wakaama/uri.c:97-200 | a path is decoded if and only if it is "rd" with at most one number behind it, "bs" alone, nothing, or one to three numbers in their ranges, of which the last two may be empty or left out but no resource comes without an instance; and then to just these numbers |
| Uri.AltPathIsCutShort | wakaama/uri.c:123-147 | below an alternative path, exactly the requests that begin with its segment are served, whatever memory holds behind it, if and only if the first segment is neither a proper prefix of it nor a continuation with a NUL; behind a prefix and behind text and NUL everything is served, behind a longer continuation it depends on the memory |
| Uri.ServedInstead | wakaama/uri.c:123-147 | with the alternative path /lwm2m, the segments "lwm" and "lwm2m" followed by a NUL are both taken for it |
| Uri.TextRoundTrip | wakaama/uri.c:202-251 | the textual path parses back to the same path if and only if it has an object, no instance or resource is 65535, and a resource comes with an instance |
| Uri.ReadsExactly | wakaama/uri.c:202-251 | a text is read if and only if, behind spaces, it is a slash and one to three numbers in their ranges with slashes between them, and maybe one behind an object or an instance; and then as just these numbers |
| Uri.LocationRoundTrip | wakaama/registration.c:733-747 | the location text of any identifier, cut into segments, decodes to the registration resource with that identifier |
| Uri.ParseNumber | wakaama/uri.c:58-85 | the digit loop gives the number up to the next slash, -1 for a leading slash or another character, and stops where the number ends |
| Uri.DecodeUriSteps | wakaama/uri.c:97-200 | the chain of segment tests, with the comparison of the first segment with what lies in memory from the alternative path on, gives exactly the path the segments stand for, or a refusal |
| Uri.StringToUriSteps | wakaama/uri.c:202-251 | the walk over the text gives exactly the path it stands for and the number of characters read |
| RegisterPayload.PayloadRoundTrip | wakaama/registration.c:515-679 | the server learns exactly the objects and instances the client declares, except Security, if and only if no identifier is 65535 |
| RegisterPayload.PrintedIsRead | wakaama/objects.c:368-438 | for every non-zero result of the printer, with or without an alternative path and whether or not the last comma was dropped by an exact fit, the decoded lists are strictly sorted and hold exactly what is declared below 65535; the alternative path comes back if any object is printed |
| RegisterPayload.ReadsLinks | wakaama/registration.c:652-676 | the links are recognised in their order with or without a comma behind the last |
| RegisterPayload.AddLinkAdds | wakaama/registration.c:658-674 | a link adds its object and instance to the lists, once, and keeps them strictly sorted |
| RegisterPayload.HeaderAlone | wakaama/registration.c:603-648 | an alternative path without any object behind it is not recognised, and no object is read |
| RegisterPayload.PathIsRead | wakaama/registration.c:603-648 | whatever path stands in the header of another client's payload, an invalid one makes the server read no object, "/" counts as none, and any other is expected in front of every object |
| RegisterPayload.SpacesAreSkipped | wakaama/registration.c:639-646 | spaces in front of a link are skipped |
| RegisterPayload.PrintsLinkFormat | wakaama/objects.c:368-438 | the printed text, by example, with and without an alternative path, for the Security object, which is left out, an object with two instances, and one without any |
| RegisterPayloadCode.SnPrintf | wakaama/objects.c:382-417 | writes as much of a text as fits before a NUL and leaves what is in front of it alone |
| RegisterPayloadCode.GetRegisterPayload | wakaama/objects.c:368-438 | fills the buffer with exactly the specified text and a NUL, or returns 0 when not everything fits |
| RegisterPayloadCode.ReadLink | wakaama/registration.c:515-576 | reads the link between two indices of the payload as the specification does, or rejects it |
| RegisterPayloadCode.FindHeader | wakaama/registration.c:598-632 | finds the alternative path of a payload, with its index in 16 bits, exactly where the specification does |
| RegisterPayloadCode.DecodeRegisterPayload | wakaama/registration.c:578-679 | gives exactly the decoded path and objects and changes the payload by one NUL behind the path only |
| Induction.RunKeeps | wakaama/liblwm2m.c:288-408 | what every elementary operation of the engine keeps holds throughout every run: the loops over transactions and servers, the order of a step and the dispatch of packets add nothing |
| Induction.StepKeeps | wakaama/liblwm2m.c:288-346 | a step keeps what sending a transaction, the operations on one server and those of the bootstrap keep |
| Induction.HandleResponseKeeps | wakaama/transaction.c:274-381 | the matching of a reply keeps what acknowledging, delaying and ending one transaction keep |
| Completion.ExactlyOnce | wakaama/transaction.c:274-476 | in every run, each transaction ever made is in the list, has had its reply handler called, or was freed by a start: exactly one of these, once; it is sent at most COAP_MAX_RETRANSMIT times, and while in the list exactly as often as its counter says |
| Acknowledgement.AcknowledgedIsNotSentAgain | wakaama/transaction.c:311-476 | in every run, an acknowledgement from its server that is no response, and that no transaction in front of it takes, changes nothing but the one transaction, which is due COAP_RESPONSE_TIMEOUT times its counter later; whatever follows, but for a 4.01 with its token while a retry is left, it is never sent again; no step before that deadline ends it, and the first one at it or later ends it without a reply |
| Acknowledgement.StepAtDeadline | wakaama/liblwm2m.c:300-332 | a step ends an acknowledged transaction, without a reply, if and only if its deadline has come, whatever the loop does to the list on the way |
| Acknowledgement.AcknowledgedRegistration | wakaama/transaction.c:311-476 | there is such a run: a registration sent at 0 and acknowledged at 1 is given up at 5 |
| NoStuck.NoServerIsStuck | wakaama/registration.c:111-434 | in every run, each server that waits for the answer to a registration, update or deregistration has a transaction of that kind in the list, even when such transactions overlap |
| NoStuck.EndMovesServer | wakaama/registration.c:111-406 | the end of a transaction, with any reply or none, moves a server that waits for its kind out of that status and leaves a server that waits for another kind alone |
| Registering.OneRegistrationAtATime | wakaama/registration.c:152-387 | all through a run, a server has at most one registration under way, and none unless it is waiting for it, if and only if no call of lwm2m_update_registration, when there is time, finds a server that is waiting for its registration |
| Registering.UpdateTooEarly | wakaama/registration.c:261-290 | there is a run in which an update is asked for while the registration is retried, and the server no longer waits for the registration that is under way |
| Updating.EachGetsWhatItNeeds | wakaama/registration.c:293-387 | behind the transactions, and unless the client bootstraps, a step sends a registration to a server if and only if it can be reached, what is to be sent fits, and it is deregistered, or has failed, its lifetime is over and some server is registered or no bootstrap server known; and an update if and only if it is registered and its lifetime, less 15 seconds if above 30, is over; these servers wait for the answer and all others keep their status |
| Updating.StepSends | wakaama/liblwm2m.c:288-346 | the log of a step, behind the transactions, is these messages, in the order of the servers, each once, with its session, path and time, and bootstrap requests behind them |
| Updating.BootstrapIsAskedFor | wakaama/registration.c:378-386 | a step asks for a bootstrap if and only if every server has failed and a bootstrap server is known, unless a bootstrap is under way |
| Updating.DeregistersEach | wakaama/registration.c:406-434 | lwm2m_deregister sends exactly one deregistration to each server that is registered or being updated and has a location, and these wait for the answer |
| Updating.CallUpdatesOne | wakaama/registration.c:261-290 | lwm2m_update_registration sends exactly one update, to the first server with the short identifier |
| Bootstrapping.AfterTheHoldOff | wakaama/bootstrap.c:47-158 | a bootstrap that is asked for is held off; at the hold-off time of the first bootstrap server one request is sent to each bootstrap server that has or gets a session, and the bootstrap is initiated if there is one; it fails if no server is known |
| Bootstrapping.RequestsAreSent | wakaama/bootstrap.c:47-94 | the requests are sent in the order of the bootstrap servers, each once, with its session, path and time |
| Bootstrapping.AfterTheLastRequest | wakaama/bootstrap.c:158-182 | a pending bootstrap is finished COAP_DEFAULT_MAX_AGE seconds after the last write, and not before |
| Bootstrapping.AfterTheBootstrap | wakaama/bootstrap.c:183-194 | after a bootstrap the servers are read anew, and that decides between bootstrapped and failed |
| Bootstrapping.AfterAFailure | wakaama/bootstrap.c:196-222 | a failed bootstrap may be asked for again after the hold-off time of the first bootstrap server, and not before |
| Starting.StartReads | wakaama/objects.c:440-624 | lwm2m_start succeeds if and only if each instance of the Security object can be read and stands for a bootstrap server, or for a management server whose first Server object instance can be read; then the client knows exactly these, each list in order, with the identifiers, lifetimes and hold-off times that were read; a start that fails leaves none of the servers known before |
| BootstrapExclusion.BootstrapExcludesRegistration | wakaama/bootstrap.c:31-219 | after a start, in every run of steps, packets, changed values and deregistrations: whenever a bootstrap is asked for, under way or failed, or a bootstrap transaction is live, every management server has failed, and an event that begins then sends no registration |
| BootstrapExclusion.StepKeepsQuiet | wakaama/liblwm2m.c:288-346 | a step that begins during a bootstrap sends no registration, although registration_update still runs once the bootstrap is initiated |
| BootstrapExclusion.UpdateFromIsIdle | wakaama/registration.c:317-379 | with every server failed and a bootstrap server known, the update loop does nothing at all |
| BootstrapExclusion.StepStartsQuiet | wakaama/registration.c:380-386 | a bootstrap is asked for only in a state where every server has failed and no registration is under way |
| SecurityIsolation.SecurityObjectIsIsolated | wakaama/objects.c:62-624 | in every run from any state, no callback of the Security object executes; one that reads was called by a start, a step that finds a bootstrap finished or an update while no server was known, never for a packet or a changed value; one that writes, creates or deletes was called for a packet from the session of a bootstrap server while the bootstrap was pending |
| SecurityIsolation.StepUnread | wakaama/liblwm2m.c:288-346 | a step that does not find a bootstrap finished calls no callback of the Security object |
| SecurityIsolation.DmIsolated | wakaama/management.c:68-106 | a request that is dispatched touches the Security object only for a bootstrap server during the bootstrap, whatever the method |
| SecurityIsolation.DeleteAllIsolated | wakaama/management.c:228-260 | deleting everything touches the Security object by deletes only |
| SecurityIsolation.RequestIsolated | wakaama/packet.c:121-149 | the gate in front of deleting everything admits only a bootstrap server's session during the bootstrap |
| SecurityIsolation.NotifyIsolated | wakaama/observe.c:245-282 | notifications never call a callback of the Security object |
| Requests.RequestReaches | wakaama/management.c:56-226 | a request other than a GET from a server that is served, for an object that is not hidden, calls exactly the callback its method and path stand for, of exactly that object and instance, if the object has it and the payload can be read, and answers its result: Write for PUT to an instance and POST to one that is there, Create for POST to a new instance or to the object, Execute for POST to a resource, Delete for DELETE of an instance; during a bootstrap only PUT and DELETE do; if none is called, the code that refuses it is answered |
| Requests.GetReads | wakaama/management.c:110-133 | a GET reads exactly the instances it asks for, in order, up to the first failure, answers the last result, and makes the server watch the path if and only if that succeeds and is asked for with a token |
| Requests.DmChanges | wakaama/objects.c:199-366 | such a request changes nothing but the instances of its object; during a bootstrap a write that succeeds restarts its timer and one that does not ends it |
| Requests.InstancesAre | wakaama/objects.c:289-348 | the instance created is there afterwards, the instance deleted is not, and all others stay |
| Requests.StrangersAreRefused | wakaama/management.c:62-106 | a request is ignored from a stranger or a server that is not registered with, refused from a management server during a bootstrap and from a bootstrap server outside of one |
| Requests.MissingObject | wakaama/objects.c:62-85 | a request for an object that is not there, or is hidden, calls nothing and is refused |
| Requests.DeleteAllRequest | wakaama/packet.c:130-149 | only a DELETE by a bootstrap server during a bootstrap deletes everything; any other request for the root is refused or ignored and changes nothing |
| Requests.DeleteAllCalls | wakaama/management.c:228-260 | deleting everything calls the delete callback for each instance of the Security and the Server object, and no other callback |
| Locations.EveryUpdateHasALocation | wakaama/registration.c:237-434 | all through a run, every update and deregistration sent goes to a location that a server gave, and each server that is registered, being updated or being deregistered has given one, if and only if each call of lwm2m_update_registration finds no server or one that has given a location and no reply accepts a registration without one; if no reply does, the calls alone decide what is sent where |
| Locations.UpdateAfterStart | wakaama/registration.c:237-290 | a call of lwm2m_update_registration right after a start sends an update without a location, for any server that was read |
| Locations.UpdateToNowhere | wakaama/registration.c:237-290 | there is such a run, with one server that can be read |
| Locations.UpdateToEmpty | wakaama/registration.c:111-387 | there is a run without any such call in which an update goes to the empty location, which a server left that accepted the registration without Location-Path |
| Retransmission.ScheduleIsKept | wakaama/transaction.c:383-476 | in every run from the beginning, whatever replies others get, a transaction that gets none and is in the list was sent n times as its counter says and is due COAP_RESPONSE_TIMEOUT * n(n+1)/2 after the time in the log at which it was first sent |
| Retransmission.DoublingEndsAtTwo | wakaama/transaction.c:409-445 | in every run, an unanswered transaction that was sent n times is due COAP_RESPONSE_TIMEOUT * (2^n - 1) after it was first sent, as doubled waits have it, if and only if n is at most 2 |
| Retransmission.ThirdTransmission | wakaama/transaction.c:409-445 | there is a run in which an unanswered transaction is sent a third time, at its deadlines, and is not due when doubled waits have it |
| Retransmission.UnansweredEnds | wakaama/transaction.c:449-475 | in every run, a transaction that gets no reply has ended, once, when COAP_MAX_RETRANSMIT steps have come after its last deadline |
| Retransmission.LateStepsCount | wakaama/transaction.c:383-476 | from any state on the schedule, every step past the last deadline sends an unanswered transaction once more or ends it |
| Retransmission.ReplySpares | wakaama/transaction.c:274-381 | a message that a transaction does not take leaves it, and the time it was first sent, as they were |
| Retransmission.TransmitKeepsSchedule | wakaama/transaction.c:403-466 | each transmission raises the counter by one and sets the next deadline on the schedule; the one after the last ends the transaction |
| Retransmission.FirstOnSchedule | wakaama/transaction.c:409-421 | a transaction that begins is sent, ends at once if there is no time, and is on the schedule of that time otherwise |
| Retransmission.StepTreatsEachOnce | wakaama/liblwm2m.c:300-332 | the loop over the list that transaction_send shortens under it treats each transaction exactly once, independently of the others |
| Matching.ReplyEndsItsTransaction | wakaama/transaction.c:130-381 | in every run, a reply with a transaction's token (and, if an acknowledgement, its identifier) from its session ends exactly that transaction through its handler, if no other in the list has its message identifier; a 4.01 with retries left leaves it in the list, due later |
| Matching.OnlyItsOwn | wakaama/transaction.c:231-251 | tokens made from distinct identifiers are distinct: no other transaction takes the reply |
| Matching.RunOrdered | wakaama/transaction.c:230-251 | in every run the list is in the order of its message identifiers and every token tells its identifier |
| Identifiers.RemovesTheRightOne | wakaama/transaction.c:267-272 | removing a transaction by its identifier takes out the one that was meant if and only if none in front of it in the list has the same identifier |
| Identifiers.YoungAreDistinct | wakaama/transaction.c:157-201 | in every run, two live transactions share a message identifier if and only if their draws are a multiple of 65536 apart; all differ while at most 65535 identifiers were drawn behind that of any of them |
| Identifiers.RemoveNeverMisses | wakaama/transaction.c:267-476 | in every run in which fewer than 65536 identifiers are drawn behind that of each transaction while it lives, transaction_remove has always taken out the transaction that ended |
| Matching.StrayIsIgnored | wakaama/transaction.c:274-381 | a reply that no transaction from its session waits for changes nothing |
| Replies.ReplySettles | wakaama/registration.c:111-150 | in every run, a response, but for a 4.01 while a retry is left, takes exactly its transaction out of the list, if no other in the list has its message identifier; a server that waits for it is registered by a 2.01, or by a 2.04 to an update, as of now, with the location of the reply, has failed by any other, and is deregistered by any answer to a deregistration; a 2.04 makes a bootstrap pending and anything else makes it fail; other servers stay |
| Replies.ResetSettles | wakaama/transaction.c:311-347 | so does a reset with the identifier of a transaction that is not acknowledged yet |
| Replies.GivingUpSettles | wakaama/transaction.c:403-476 | a transaction that is given up settles its server as a reply of no code does |
| Replies.MessagesAreAcknowledged | wakaama/packet.c:298-333 | a message that is no request is acknowledged, exactly once, if and only if it is confirmable, whether or not a transaction takes it |
| Replies.LocationLeadsBack | wakaama/er-coap-13/er-coap-13.c:315-343 | what the client keeps of a Location-Path is cut into the same segments again when an update is sent there, if no segment holds a slash or a NUL and the last of several is not empty |
| Notifying.ChangeIsReportedOnce | wakaama/observe.c:245-282 | after any run, a changed value is reported exactly once to each server that watches a readable path with a resource in common with the changed one; no other server hears of it, about whatever path |
| Notifying.RunKeepsInv | wakaama/observe.c:151-243 | in every run, observed paths are pairwise distinct, each has a watcher, and a server watches a path at most once |
| Notifying.ResetStopsWatching | wakaama/observe.c:195-243 | in every run, a reset from the session of a server that was last told about a path under its identifier makes one such server stop watching, and changes no other watcher; no other message that is not a request changes any |
| Notifying.LoopNotifies | wakaama/observe.c:245-282 | the notification loop of the engine changes the entries, sends the messages and advances the message identifier as the specification of notification says |
| Observe.OverlapsMeans | wakaama/observe.c:73-110 | the tests on the three identifiers let a path pass if and only if some resource lies under both it and the changed path |
| Observe.NotifiesExactlyOnce | wakaama/observe.c:73-282 | each watcher of every readable path with a resource in common with the changed one gets one message about it, nobody else any about whatever path; identifiers are consecutive and fresh, a watcher's counter rises by one and its last identifier is the message's; all other entries stay as they are |
| Observe.AddKeepsInv | wakaama/observe.c:151-193 | an observe request keeps the invariant and adds exactly the one server to the one path |
| Observe.CancelKeepsInv | wakaama/observe.c:195-243 | a reset keeps the invariant and takes at most one server from one path, the path too if it was the last |
| Observe.AddIs | wakaama/observe.c:151-193 | a server that asks to observe watches the path under its new token, with its counter going on if it watched it before and at 1 otherwise; every other server and path is watched as before |
| Observe.CancelIs | wakaama/observe.c:195-243 | who is taken out by a reset watched its path and was last told about it under that identifier; somebody is taken out if anybody fits, and all others watch as before |
| Registry.RunKeepsInv | wakaama/registration.c:749-980 | in every run of registrations, updates, deregistrations and expiries with fewer than 65536 clients, the list stays strictly sorted by identifier and names stay distinct |
| Registry.RegisterIsAnswered | wakaama/registration.c:764-851 | in exactly these cases a registration is accepted, and it answers with a location that decodes back to the one client of that name, with its objects, session, binding, lifetime as requested or 86400, and end of life, and with the identifier and the observations it had before, if any; all other clients stay as they were |
| Registry.HandleCodes | wakaama/registration.c:749-980 | which request is answered with which code: a registration is accepted if and only if it is a POST to the resource itself with a readable query that has a name and at least one object, an update if and only if it is a PUT or POST to the location of a client that is there with a readable query without a name, a deregistration if and only if it is a DELETE of such a location |
| Registry.NewClient | wakaama/registration.c:826-827 | a new client gets the least identifier not in use, and the invariant is kept if and only if one is left |
| Registry.UpdateIsAnswered | wakaama/registration.c:854-950 | in exactly these cases an update is accepted, and it renews the end of life of the client at the location, takes over lifetime, binding, telephone number and objects exactly where the request gives them, leaves identifier, name, alternative path and the rest as they were, and touches no other client |
| Registry.PruneIsExact | wakaama/registration.c:904-940 | an update with objects reports and removes exactly the observations whose object or instance is gone, which, for lists in strict order as they are always read, are those whose object is not declared, or not with that instance |
| Registry.DeregisterIsAnswered | wakaama/registration.c:954-972 | in exactly these cases a deregistration is accepted, and it takes out exactly the client at the location |
| Registry.RefusedChangesNothing | wakaama/registration.c:749-980 | a refused request leaves the list as it was |
| Registry.ExpireIsExact | wakaama/liblwm2m.c:349-377 | after a step exactly the clients whose end of life lies ahead remain |
| Registry.UndisturbedClientStays | wakaama/registration.c:749-980 | a client stays, as it is, through any run that brings only requests for other clients and steps before its end of life |
| RegistryCode.Server.FindByName | wakaama/registration.c:681-693 | walks to the first client of a name |
| RegistryCode.Server.PruneObservations | wakaama/registration.c:904-940 | each observation whose object or instance is gone is reported in order and taken out by its identifier |
| RegistryCode.Server.HandlePost | wakaama/registration.c:764-852 | refuses a path with an identifier, an unreadable query, no objects or no name, in this order; else replaces the client of that name under its identifier or adds one under the least unused identifier |
| RegistryCode.Server.HandlePut | wakaama/registration.c:854-952 | refuses with 4.00 a path that is no client's, with 4.04 an unknown client, with 4.00 an unreadable query or a name; else changes only what the request gives |
| RegistryCode.Server.HandleDelete | wakaama/registration.c:954-973 | takes out the client at the location, or refuses with 4.00 |
| RegistryCode.Server.HandleRegistrationRequest | wakaama/registration.c:749-980 | dispatches by method, where a POST to a client is an update |
| RegistryCode.Server.ExpireClients | wakaama/liblwm2m.c:349-377 | each client whose end of life is reached is taken out by its identifier while the loop goes on over the others |
| RegistryCode.Server.Process | wakaama/liblwm2m.c:349-408 | each request and each step leaves the list of clients that the same event of a run leaves |
| RegistryCode.Server.Drive | wakaama/liblwm2m.c:349-408 | a server that goes through the events of a run has the clients of the run; while there is room its list stays in order with distinct names, and a client that no event disturbs stays in it |
| Block.ReassemblyIfAndOnlyIf | wakaama/packet.c:229-266 | asking for blocks 0, 1, 2, ... with one size until they cover a non-empty payload gives the payload if and only if the size or the payload is at most REST_MAX_CHUNK_SIZE |
| Block.NegotiatedReassembly | wakaama/packet.c:229-266 | the answer to block 0, asked for with any size, followed by the blocks behind it in the size of that answer, is the payload |
| Block.FlagLeadsToEnd | wakaama/packet.c:229-266 | a client that begins with any size and goes on with the size of the first answer as long as it is told that more follow gets the payload and stops |
| Block.BlockIsSlice | wakaama/packet.c:250-265 | block n is the n-th slice of the payload, says that more follow unless it reaches the end, and beyond the end is refused |
| Block.OptionIsRead | wakaama/er-coap-13/er-coap-13.c:702-709 | the shifts and masks on the option give the block number, the size and the offset number times size |
| Block.OptionMeans | wakaama/er-coap-13/er-coap-13.c:702-709 | the size is 2 to the size exponent plus 4 and the offset the number times that |
| Block.ApplyBlocks | wakaama/packet.c:242-281 | rewrites the response into the block asked for, into 4.02 beyond the payload, and leaves it alone without a Block2 option |
| Lcd.LineBound | C12832/C12832.cpp:211-279 | a line has max(|dx|, |dy|) + 1 points, from its first end to its last; consecutive points are neighbours and each lies within half a pixel of the ideal line on the shorter axis |
| Lcd.LineFits | C12832/C12832.cpp:211-279 | a line is all on the display if and only if its ends are; it writes nothing beyond the buffer unless an end is right of the display or below it |
| Lcd.SteppingGoesOn | C12832/C12832.cpp:246-276 | one step of the accumulator keeps it in its range |
| Lcd.SteppingIs | C12832/C12832.cpp:246-276 | while the accumulator is in its range the steps taken on the shorter axis are the nearest ones |
| Lcd.CircleBound | C12832/C12832.cpp:366-430 | for every radius from 2 on, every point of the octant satisfies |xx^2 + yy^2 - r^2| <= yy |
| Lcd.CircleIsRound | C12832/C12832.cpp:324-430 | every point drawn for a circle is off it by at most its longer distance from the centre, and no reflection and no pole that is on the display is missing |
| Lcd.PolesAreDrawn | C12832/C12832.cpp:324-365 | the four poles of every circle are drawn where they are on the display, and the circle of radius 1 is nothing else |
| Lcd.CircleFits | C12832/C12832.cpp:324-430 | no point of a circle is farther than the radius from its centre in either direction; a circle inside the display is all on it, and one that ends left of column 128 and above row 32 writes nothing beyond the buffer |
| Lcd.NearerIsTaken | C12832/C12832.cpp:371-385 | of the two candidates for the next point the one with the smaller error is taken |
| Lcd.AccumulatorIs | C12832/C12832.cpp:366-385 | the accumulator is 2(xx+1)^2 + yy^2 + (yy-1)^2 - 2r^2 at every loop head |
| Lcd.AccumulatorGoesOn | C12832/C12832.cpp:371-385 | the updates of the accumulator keep that form and choose the next point by its sign |
| Lcd.TestsKeepVisible | C12832/C12832.cpp:399-427 | the tests in front of the calls of pixel drop no point that is on the display |
| Lcd.PixelIsExact | C12832/C12832.cpp:140-154 | a pixel call changes its own pixel, or nothing off the display, if and only if it is not in column 128 or row 32, which the inclusive test lets pass |
| Lcd.DrawnIsShown | C12832/C12832.cpp:140-154 | in normal mode a drawing lights exactly its visible points if and only if each of its points in column 128 hits a pixel that is drawn anyway |
| Lcd.Display.Pixel | C12832/C12832.cpp:140-154 | byte x + y / 8 * 128 of the buffer becomes what it was with bit 1 << (y % 8) set, cleared or flipped, by drawing mode and colour, and no other byte changes; in the picture this is the one pixel that is hit |
| Lcd.Display.Line | C12832/C12832.cpp:211-279 | draws exactly the points of the line, in their order |
| Lcd.Display.LineAcross | C12832/C12832.cpp:246-261 | the loop along x draws exactly the points of the line |
| Lcd.Display.LineDown | C12832/C12832.cpp:262-277 | the loop along y draws exactly the points of the line |
| Lcd.Display.Circle | C12832/C12832.cpp:324-430 | draws exactly the points of the circle that pass their tests, in their order |
| Lcd.Display.CircleLoop | C12832/C12832.cpp:366-430 | the loop draws the tested reflections of every point of the octant, with the accumulator equal to the sum of the two candidates' errors |
| ClientContext.Context.TransactionHandleResponse | wakaama/transaction.c:274-381 | over the list, with its early returns: exactly the first transaction that the reply acknowledges or matches is reset, ended, delayed by a 4.01 or given a new deadline |
| ClientContext.Context.SendDue | wakaama/liblwm2m.c:300-332 | each transaction that is due is sent or ended exactly once although ending it shortens the list under the loop |
| ClientContext.Context.CheckServers | wakaama/registration.c:303-315 | tells whether some server is registered and whether every server has failed, by one walk with an early exit |
| ClientContext.Context.UpdateEach | wakaama/registration.c:317-379 | each server is updated ahead of its lifetime, registered, retried or left alone by its status, with the flag of the first walk |
| ClientContext.Context.UpdateByShortID | wakaama/registration.c:261-290 | the first server with the short identifier is updated; with no server known the servers are read and none is updated |
| ClientContext.Context.DeregisterAll | wakaama/liblwm2m.c:108-116 | a deregistration begins at exactly the servers that are registered or being updated and have a location |
| ClientContext.Context.ReadServers | wakaama/objects.c:518-624 | reads the instances of the Security object in order, with the Server object instance of each management server, and fills both server lists up to the first that cannot be read; tells whether there was one |
| ClientContext.Context.FindInstances | wakaama/objects.c:525-537 | the walk over the objects ends with the last one that has the identifier |
| ClientContext.Context.FindInstanceOf | wakaama/objects.c:440-476 | reads instances of the Server object in order up to the first with the short identifier, or the first that cannot be read |
| ClientContext.Context.DeleteTransactions | wakaama/liblwm2m.c:160-170 | every transaction is freed once, in order, without its handler |
| ClientContext.Context.InitiateBootstrap | wakaama/bootstrap.c:47-94 | a request begins at every bootstrap server that has or gets a session; the state is initiated if one stays listed |
| ClientContext.Context.Find | wakaama/objects.c:62-85 | the first object with the identifier, but the Security object only while the bootstrap is pending |
| ClientContext.Context.ReadEach | wakaama/objects.c:125-160 | read callbacks are called in order up to the first that fails, whose code is the result |
| ClientContext.Context.DeleteAllInstances | wakaama/management.c:239-260 | every instance of the Security and of the Server object is deleted, of no other object |
| ClientContext.Context.DeleteInstancesOf | wakaama/management.c:228-237 | one delete call for each instance of the object, in order, until its list is empty; no other object changes |
| ClientContext.Context.CancelObserve | wakaama/observe.c:195-243 | exactly the first watcher with the identifier and session leaves, its path too if it was the last |
| ClientContext.Context.ObservedList | wakaama/observe.c:73-110 | exactly the entries that have a resource in common with the path, the last one first |
| ClientContext.Context.TellWatchers | wakaama/observe.c:261-270 | each watcher gets one message with its token and counter, under the next identifier, which it keeps; its counter goes up by one; no other entry changes |
| ClientContext.Context.ResourceValueChanged | wakaama/observe.c:245-282 | each overlapping entry is read, and its watchers are told only if that succeeds |
| ClientContext.Context.Process | wakaama/liblwm2m.c:108-408 | each event leaves the context in the state that the same event of a run leaves |
| ClientContext.Context.Drive | wakaama/liblwm2m.c:60-408 | a context that goes through the events of a run is in the state of the run; from its beginning on no server waits for an answer that cannot come, and each transaction is in the list or has ended, once, after at most COAP_MAX_RETRANSMIT transmissions |

## Left out

- Client.HandleResponse: does not model transactions without a token, because every transaction of the client has one; `response_timeout` is part of the state and is always 0.
- Client.UpdateServer: does not model the crash on a missing location, which is a message without a path here, nor the cutting of an empty location into segments, which is a message with the path ""; `Locations.EveryUpdateHasALocation` says when there is neither.
- Client.ReadEntry: what the callbacks of the Security and the Server object give for an instance is the same throughout one call of the engine, and a missing Server object, which `lwm2m_configure` refuses, has no instances.
- Client.Finish: takes a transaction out by its place, where `transaction_remove` goes by its message identifier, and notes in the state whether that makes a difference. It does not as long as fewer than 65536 identifiers are drawn during each transaction's life (`Identifiers.RemoveNeverMisses`); the results about runs (`Completion`, `NoStuck`, `Registering`, `BootstrapExclusion`, `Locations`, `Retransmission`, `Matching`) do not say what happens to the list in other runs, where a freed transaction stays in it.
- Client.RegisterServer: does not model the text of the registration query; whether query and payload fit their buffers is a parameter, and the payload itself is modelled in `RegisterPayload`.
- Client.Transaction: transactions and servers are values in sequences that the context reassigns, not linked objects; the linked list with its nodes is in `SortedList`. A pointer to a server is its place in the server list, which only a start changes, after it has dropped every transaction and watcher.
- Matching.ReplyEndsItsTransaction: assumes that no other live transaction has the message identifier of this one, which holds while fewer than 65536 are drawn during one transaction's life.
- Replies.ReplySettles: assumes, as `Replies.ResetSettles` does, that no other live transaction has the message identifier of this one, for the same reason.
- Management.CreateObject: does not model the records passed to object callbacks; a create or delete callback that reports success has changed its instance list accordingly.
- Management.DeleteAllFrom: every delete callback is taken to remove its instance, whatever it reports; `management_delete_all_instances` calls it again and again, forever, if it leaves the instance in its list.
- Management.HandlePacket: does not model Block1 and Block2 options, which are in `Block`, the location path of a created instance, which is `Uri.TextRoundTrip`, nor server and bootstrap server requests, which are in `Registry` or not modelled.
- Uri.DecodeUriSteps: what lies in memory behind the alternative path and its terminator is a parameter, and reaches as far as the first segment is long; the code sets no bound to how far it reads there.
- Uri.ParseNumber: does not model int overflow beyond eight digits, nor the byte behind the text that is looked at when a number is empty.
- RegisterPayloadCode.DecodeRegisterPayload: payloads are shorter than 65535 bytes; at 65535 the 16-bit index of the loop wraps around.
- Registry.Parameters: the text of the registration query is not modelled; its parameters are given, or refused.
- Registry.PruneIsExact: assumes that the identifiers of a client's observations are distinct; `lwm2m_observe` draws one before its entry is listed and does not guarantee it.
- TlvInt.EncodeInt: INT64_MIN, whose negation overflows; the same holds for `PlainText.IntToText`.
- Tlv.GetLength: does not model int overflow of total lengths.
- Lcd.Display.Pixel: does not model what a write beyond the buffer does.
- Lcd.Display.Line: does not model int overflow of coordinates.
- The timeout that `lwm2m_step` hands back, which only tells the caller when to call again.
- Allocation failures, freeing and ownership.
- The encoding of CoAP messages in `er-coap-13`, except for the Block2 option.
- Floating-point numbers in TLV and in text; text and boolean values, binding names.
- Device management, observation and bootstrap requests made by a server.
- Fonts, text, rectangles, filled circles, contrast and the SPI transfer of the display.
- The mbed, RTOS and network libraries, the sensor drivers, the IPSO objects and the main program.
