# Attribute Protocol: client, server and their conversation

The repository holds both halves of the Bluetooth Low Energy Attribute Protocol: a client in C++ (`src/att.cc`)
and a server in JavaScript (`lib/att.js`, with `lib/service.js`, `lib/characteristic.js` and `lib/uuid.js` above
it). This project models both, and proves what each of them keeps and what the two do together. The standard is
the Bluetooth Core Specification 4.0, Vol 3 Part F (ATT) and Part G (GATT).

## How it is built

Each half exists twice. A state machine on values (`ClientModel`, `ServerModel`) says what one packet or one call
does; a class in the source's own form (`AttClient.Att`, `AttServer.AttributeServer`) keeps the source's fields,
buffers and loops, and every one of its methods is proved to do exactly what the state machine does. All results
about runs are then proved about the state machines.

The four list procedures (Find Information, Find By Type Value, Read By Type, Read By Group Type) share one entry
type, one packing function and one parser, so that the round trip, the packing and the end-to-end results are
proved once for all four.

A class and its state machine share definitions: the filter, the entry of an attribute, the test of a property. What
these definitions mean is stated once more without them, in the numbers of the protocol and the fields of the
attribute table: `Wire` for the packets, `Results`, `Reads` and `ServerRuns` for the calls, `Pushes` for notifications
and indications, `UuidCache.NewObjectForm` and `Interning.AcceptedIff` for UUIDs.

| module | content |
|---|---|
| `Bytes`, `AttTypes` | bytes, 16-bit fields, opcodes, UUIDs, list entries |
| `Packing`, `Responses`, `Requests`, `Wire` | the greedy packing loop, the four response formats, the two request encoders, and all packets byte by byte |
| `Search` | the attribute table and `findAttributes` as a filter |
| `ClientModel`, `ClientSafety`, `AttClient` | the client as a state machine, what every run of it keeps, the client as a class |
| `ServerModel`, `ServerRuns`, `Pushes`, `AttServer` | the server as a state machine, what every run of it keeps (MTU, values, replies; notifications and indications), the server as a class |
| `Conversation`, `Delivery`, `Results` | the client's loop against the server: when the conversation equals one filter of the table, and what the calls then report, attribute by attribute |
| `Composed`, `Progress`, `Reads` | client and server joined by two FIFO channels, with free interleaving: what every run keeps, how soon a request is over, and what a Read reports |
| `Registry`, `RegistryServer` | the handle index over any run, and that the server's own methods are its operations |
| `Layout`, `Groups`, `Hosting` | the layout loops as classes, and the discovery of the services they lay out or construct |
| `Discovery`, `DiscoveryRuns`, `OwnDiscovery` | the characteristic discovery recursion, its run against the server, and that it undoes the layout |
| `Uuids`, `Interning`, `UuidCache` | the UUID codecs, which spellings share a key, the cache over any call history |

Out-of-bounds reads and null dereferences of the C++ code are the outcome `Undefined`; JavaScript exceptions are
outcomes too (no reply, `None`, `threw`, `ok == false`). Preconditions are used for what the types of the source
already exclude, and for the handle space of 16 bits.

## Where the code and the standard differ

Where the code as written is sound or its fault can be stated exactly, it is modelled as written and the exact
condition is proved. Two readings run through all server results as the parameter `Reading`:

- `lib/att.js:216` stops below the end handle, Part F section 3.4.3.1 includes it: `BelowEnd` and `ThroughEnd`.
  `Delivery.BoundsAgreeIff` says when the two agree.
- `lib/att.js:429-439` has no stop at an entry of another size, Part F section 3.4.4.10 requires one: `NoStop` and
  `SameSize`. `Delivery.DeliversIff` covers both, `Delivery.ServicesGetAcrossIff` says what the omission costs.

Also modelled as written:

- `lib/att.js:367` asks for two bytes more than an entry costs: `DiscoveryRuns.LongCharacteristicNeeds25`.
- `src/att.cc:570` hands a transport error on with status 0: `ClientSafety.TransportErrorEndsRequestIff`.
- `src/att.cc:621-624` never compares the opcode of a response: `Composed.IndicationHarmlessIff`. In the composed
  system the expected opcode is proved, not assumed: `Composed.OneRequestAtATime`.
- `lib/att.js:309` and `lib/att.js:346` read two bytes of the type whatever its width, and a type 0x0000 as no type
  at all: a Read By Type for a 128-bit type fits the buffer and is a search for another type. Which requests the
  server reads as they are meant: `Requests.RequestRoundTripIff`. What the others deliver:
  `Delivery.LongTypeFindsAnother`.
- `src/att.cc:128-131` writes the value to offset 7 whatever the width of the type: `Requests.WideTypeSpoilsValue`;
  the packet then ends in bytes that the buffer held before: `Requests.SettledIff`.
- `lib/att.js:331` compares the type again, which fails for a type 0x0000, so that matches are found and not written:
  `Delivery.FindByTypeValueDeliversIff`.
- `src/att.cc:433-434` goes on behind the last group's start, Part G section 4.4.1 behind its end. The client has a
  parameter for it, `Resume`; when the two agree: `Groups.RulesAgreeIff`.
- `lib/att.js:143` overwrites a listener that is still registered: `Pushes.CleanIff`.
- `lib/att.js:252` is the first time `mtuSize` meets the central's MTU: `ServerRuns.MtusAgreeIff`.
- `lib/service.js:21` leaves the end handle one above that of `lib/service.js:39`: `Layout.CreateService`,
  `Hosting.ConstructedLosesIff`.
- `lib/att.js:90-93` refuses a handle even to the attribute that holds it, so the constructor of a service throws on
  characteristics that are where it would place them, as in `lib/gatt.js:52-53`: `Layout.CreateService`.
- `lib/service.js:70` reads two bytes of a UUID of any length: `DiscoveryRuns.FindsOwnUuidIff`.
- `lib/service.js:70-73` compares UUID objects, so that the unpadded key of a number below 0x1000 (`lib/uuid.js:105`)
  hides it from every other spelling: `Discovery.PassesIff`, `Discovery.SmallNumberMissed`.
- `lib/uuid.js:52`, `lib/uuid.js:79`, `lib/uuid.js:105` and `lib/uuid.js:120` build keys of different case and
  length: `Interning.WrittenKeysMeetIff`, `UuidCache.WrittenInterning`. With one key per value, as
  `test/testUUID.js:4-11` expects, interning is exact: `UuidCache.CanonicalInterning`.

Read as plainly meant:

- `lib/att.js:95`: clearing one slot, not splicing the index. The splice is treated in `Registry`.
- `lib/att.js:144-145`, `lib/att.js:176-177`: `attribute.value`, not the free variable `value`.
- `lib/att.js:202` declares type, value, handle, end; its callers (`lib/characteristic.js:38`,
  `lib/characteristic.js:43`, `lib/service.js:10`) pass handle, type, value, end.
- `lib/att.js:291-300`, `lib/att.js:331-335`: `.type` and `.handle`, not `.uuid` and the index `i`.
- `lib/att.js:382`: a call of `getAttribute`. The response is cut to the MTU, as writing into a buffer of
  `mtuSize` bytes does.
- `lib/att.js` uses `att`, `UUID`, `characteristic`, `btle` and `toHexString` without requiring them.
- `src/att.cc:254-256` and its siblings read the request record after freeing it: the record is a value here.
- `lib/service.js:63` and `lib/service.js:100` read `handle` and `groupEndHandle`, which a service does not set:
  they are parameters here.

## Model

| member | source | states |
|---|---|---|
| Bytes.Field16RoundTrip | lib/att.js:269-270 | a 16-bit field written anywhere in a packet is read back as it was, and writing what was read restores the bytes |
| Packing.PackedIsLongestPrefix | lib/att.js:289-301 | the packing loop takes exactly the longest prefix of the matches that shares the first size (where there is such a stop) and fits |
| Search.HitsAreTheFilter | lib/att.js:214-224 | the scan of the index yields exactly the matching attributes of the range, each once, strictly ascending |
| Search.HitsResume | lib/att.js:214-224 | cutting a scan after any entry leaves the scan from the next handle on |
| Search.SkipEmptyStretch | lib/att.js:214-224 | a stretch of handles can be skipped if and only if nothing in it matches |
| Responses.ResponseFits | lib/att.js:285-302 | a list response is never longer than the MTU, and carries a prefix of the matches |
| Responses.ResponseProgress | lib/att.js:365-367 | a list response carries something if and only if the first match passes the fit test alone: always for Find Information, and up to MTU - 6 bytes for values |
| Responses.ReadConsumesAll | src/att.cc:635-705 | whatever a parser reads, written out again, is the bytes it was given, all of them |
| Responses.ReadBackIff | src/att.cc:635-705 | a run of entries is read back exactly when each of them has the announced shape |
| Responses.ResponseRoundTrip | src/att.cc:635-705 | the client reads back exactly the packed entries if and only if the first size fits the length byte and all of them have it; all four formats, with and without the size stop |
| Requests.EncodedFields | src/att.cc:87-136 | the range form is defined exactly when it fits the buffer, and is then the concatenation of its fields, whatever the buffer held |
| Requests.SettledIff | src/att.cc:87-136 | a packet is the same whatever the buffer held before if and only if no value follows a type wider than two bytes |
| Requests.RequestUnderstood | lib/att.js:305-346 | every settled request fits 23 bytes and reaches the server as one definite search, with its start and end |
| Requests.RequestRoundTripIff | src/att.cc:87-136 | for every procedure, type width and value: a request is defined exactly when it fits the buffer, and then the server reads what the client meant if and only if its type, where there is one, is a 16-bit one other than 0x0000 (any 16-bit or 128-bit one for groups), or a longer one that its first two bytes happen to stand for |
| Requests.UnderstoodAsMeantIff | lib/att.js:309-346 | that search is the one that was asked for under the same condition; of the 128-bit types of a Read By Type it holds for a single one |
| Requests.WideTypeSpoilsValue | src/att.cc:128-131 | a value reaches the server if and only if the type before it has 16 bits |
| Requests.HandleFormTruncates | src/att.cc:51-85 | the single-handle form carries the longest prefix of the value that fits |
| Wire.SearchBytes | src/att.cc:87-136 | a settled search request byte by byte: the procedure's number, the range, the type, the value |
| Wire.ListBytes | lib/att.js:285-302 | a list response byte by byte: its number, the format or the entry size, the packed entries |
| ClientSafety.OneAccumulator | src/att.cc:243-269 | at most one accumulator is in use, it is the pending request's, and none is when the client is idle |
| ClientSafety.StepKeepsInv | src/att.cc:566-633 | every call and every packet, well formed or not, keeps the client invariant |
| ClientSafety.StepConserves | src/att.cc:711-724 | tokens only move from pending to called back, step by step |
| ClientSafety.RunSafety | src/att.cc:166-225 | over any run every request is called back exactly once, except the pending one |
| ClientSafety.TransportErrorEndsRequestIff | src/att.cc:566-570 | a transport error ends the pending request if and only if it is a Read or a Read By Type |
| ClientSafety.ConformingStep | src/att.cc:247-256 | each conforming response keeps the list ascending and ends the request or moves its start strictly up, within 16 bits |
| ClientSafety.ListRequestsTerminate | src/att.cc:247-256 | against any conforming server a list request is over after at most end - start + 1 responses |
| ClientSafety.NotificationReaches | src/att.cc:602-619 | the bytes behind the handle reach the listener of that handle, whatever request is pending; without one the error handler hears of it |
| ClientSafety.StrayPacketsAreRaised | src/att.cc:577-629 | an error that names another request, or any packet when none is pending, reaches the error handler and changes nothing |
| ClientSafety.FirstListenerStays | src/att.cc:491-505 | over any run a handle's notifications go to the first listener added for it, whatever came later |
| AttClient.EncodeOne | src/att.cc:51-85 | the encoder leaves exactly the single-handle packet at the front of its buffer |
| AttClient.EncodeMany | src/att.cc:87-136 | the encoder leaves exactly the range packet at the front of its buffer |
| AttClient.ParseAttributeList | src/att.cc:635-654 | the loop reads what the format says, and fails exactly where it would leave the buffer |
| AttClient.ParseHandlesInformationList | src/att.cc:656-669 | the same for handle and group end pairs |
| AttClient.ParseAttributeDataList | src/att.cc:671-686 | the same for records of one announced length |
| AttClient.ParseGroupAttributeDataList | src/att.cc:688-705 | the same for group records of one announced length |
| AttClient.Att.SetCurrentRequest | src/att.cc:166-207 | the pending request is set if and only if there was none |
| AttClient.Att.RequestList | src/att.cc:214-225 | issuing a list request does what the state machine does |
| AttClient.Att.ReadAttribute | src/att.cc:460-474 | issuing a Read does what the state machine does; an idle client sends 0x0A and the handle of the call |
| AttClient.Att.WriteCommand | src/att.cc:523-531 | a write command sends one packet, 0x52 with the handle and the first 20 bytes of the value, and leaves the client as it was |
| AttClient.Att.ListenForNotifications | src/att.cc:491-505 | a listener is added, and the first one for a handle stays |
| AttClient.Att.HandleFindInfo | src/att.cc:243-269 | the handler does what the state machine does with a chunk, a not-found and any other error |
| AttClient.Att.HandleFindByType | src/att.cc:309-340 | the same; a not-found on an empty list becomes an error text |
| AttClient.Att.HandleReadByType | src/att.cc:375-387 | the same for the procedure without a loop |
| AttClient.Att.HandleReadByGroupType | src/att.cc:425-451 | the same for groups |
| AttClient.Att.CallbackCurrentRequest | src/att.cc:711-717 | the pending request's own handler gets the packet |
| AttClient.Att.HandleError | src/att.cc:566-570 | a transport error goes to the pending callback with status 0 |
| AttClient.Att.HandleRead | src/att.cc:566-633 | the dispatcher does what the state machine does with any packet |
| AttServer.AttributeServer.SetHandle | lib/att.js:85-101 | a handle in use is refused; agreement survives exactly when no held handle is given up for none |
| AttServer.AttributeServer.CreateAttribute | lib/att.js:202-208 | a new attribute with its defaults, listed and indexed, or a refusal that changes nothing |
| AttServer.AttributeServer.FindAttributes | lib/att.js:214-224 | the loop finds exactly the attributes of the range that have the type, where one is given, and the value, where one is given, in order |
| AttServer.AttributeServer.SendError | lib/att.js:227-234 | one error packet of five bytes |
| AttServer.AttributeServer.FindInfoResponse | lib/att.js:285-302 | the buffer loop writes exactly the packed response |
| AttServer.AttributeServer.FindByTypeResponse | lib/att.js:326-339 | the same for Find By Type Value, whose second comparison of the type writes nothing at all for a type 0x0000 |
| AttServer.AttributeServer.ReadByTypeResponse | lib/att.js:358-373 | the same for Read By Type |
| AttServer.AttributeServer.ReadByGroupResponse | lib/att.js:427-440 | the same for Read By Group Type, with and without the size stop |
| AttServer.AttributeServer.HandleFindInfo | lib/att.js:267-303 | the handler sends exactly the reply of the state machine, nothing if it throws |
| AttServer.AttributeServer.HandleFindByType | lib/att.js:305-340 | the same, with the empty response to a type 0x0000 |
| AttServer.AttributeServer.HandleReadByType | lib/att.js:342-374 | the same |
| AttServer.AttributeServer.HandleReadByGroup | lib/att.js:412-441 | the same |
| AttServer.AttributeServer.HandleMtu | lib/att.js:249-265 | the reply carries the MTU before the request; both MTUs follow |
| AttServer.AttributeServer.HandleReadRequest | lib/att.js:376-394 | the value up to the MTU, or an error |
| AttServer.AttributeServer.Call | lib/att.js:143-156 | one listener sends its packet, an indication only when none is unconfirmed |
| AttServer.AttributeServer.SetValue | lib/att.js:107-135 | the value is stored, then every listener is called in order |
| AttServer.AttributeServer.DoWrite | lib/att.js:443-467 | stored and answered, or refused with the error the code names |
| AttServer.AttributeServer.Enable | lib/att.js:139-160 | refused while the other kind is enabled, otherwise a listener more and the first value sent |
| AttServer.AttributeServer.Disable | lib/att.js:162-167 | only the listener that the field names is removed |
| AttServer.AttributeServer.Receive | lib/att.js:515-526 | the dispatcher does what the state machine does with any packet, and keeps the registry in agreement |
| ServerRuns.MtuIsFold | lib/att.js:249-265 | over any run the stored MTU is the least of its first value and all values asked for, but at least 23 |
| ServerRuns.LeastNeverRises | lib/att.js:258-264 | that fold is a true minimum: no larger than any value, and one of them |
| ServerRuns.MtuReplies | lib/att.js:249-265 | after any run an MTU request is answered with the MTU that the requests before it have left; its own comes into force after that |
| ServerRuns.MtusAgreeIff | lib/att.js:249-265 | the two MTUs agree after a run exactly when they did before it or one was asked for |
| ServerRuns.OnlyStoredValuesChange | lib/att.js:443-467 | over any run no handle, type, end or property changes, and a value is the last one stored by the application, by a Write Request where flag 0x08 is set, or by a Write Command where flag 0x04 is |
| ServerRuns.ReadReturnsLastStored | lib/att.js:376-394 | after any run a Read returns the first min(length, MTU - 1) bytes of the last stored value |
| ServerRuns.RequestIsAnsweredOnceIff | lib/att.js:515-526 | every implemented request gets exactly one reply, its response or an error that names it, if and only if its fields are all there |
| ServerRuns.OtherPackets | lib/att.js:499-526 | an opcode without a handler is refused in its own name; a confirmation ends the wait; what else is not a request sends and changes nothing |
| ServerRuns.WriteReplies | lib/att.js:443-481 | a Write Request or Command changes just the value it names, if and only if the attribute is there with flag 0x08 or 0x04; it is answered by the missing handle, the missing property, or success; only a successful command gets nothing |
| ServerRuns.RunFits | lib/att.js:515-526 | no packet of a run is longer than the larger of the two MTUs at its start |
| Pushes.IndicationFlowControl | lib/att.js:169-193 | over any interleaving, indications sent minus confirmations accepted is 0 or 1 and is what waitingForConfirmation says |
| Pushes.PushesCarryValues | lib/att.js:143-156 | every notification and indication carries the first min(length, MTU - 3) bytes of its attribute's current value |
| Pushes.NeverBothEnabled | lib/att.js:139-200 | over any run no attribute has both listener fields set |
| Pushes.CleanIff | lib/att.js:139-200 | over any run an attribute keeps just the listener its fields name if and only if no enable found its own kind enabled |
| Pushes.BothKindsFire | lib/att.js:139-200 | otherwise one change of value can send both a notification and an indication |
| Pushes.FireInTurn | lib/att.js:143-156 | listeners are called one after the other, and an indication sent by an earlier one holds back the later ones |
| Pushes.OneFires | lib/att.js:169-193 | a notification is sent whether or not an indication is unconfirmed, an indication only if none is |
| Pushes.ChangePushes | lib/att.js:107-135 | a change of value, by the application or a permitted write, is stored and sent under the kind that is enabled, and nothing else changes |
| Pushes.EnablePushes | lib/att.js:139-200 | enabling a kind sends the current value at once and names the listener |
| Pushes.DisableStops | lib/att.js:139-200 | while one kind is enabled the other is refused; disabling it leaves no listener |
| Conversation.ServerAnswersWell | lib/att.js:267-303 | a reply is the right error or a readable, non-empty stretch of the filter whenever its packet is good |
| Conversation.GoodAnswerAbsorbed | src/att.cc:243-269 | a good reply that the client passes extends the gathered list to the filter of a longer range, or ends the request with its verdict; under both ways of going on |
| Conversation.RequestIsAnswered | lib/att.js:515-526 | a settled list request gets exactly its list reply and changes nothing on the server |
| Conversation.EndToEnd | src/att.cc:243-269 | for any table, MTU, range, reading and way of going on, a list that gets across packet by packet is delivered whole, in order, within end - start + 1 requests, and the client is as before |
| Delivery.DeliversIff | src/att.cc:425-451 | for every settled request and both ways of going on: the conversation ends with the filter of the table if and only if every packet of the list is good and passed |
| Delivery.FindInformationDelivers | src/att.cc:243-269 | Find Information delivers, without a condition |
| Delivery.FindByTypeValueDeliversIff | lib/att.js:305-340 | Find By Type Value delivers if and only if the type is not 0x0000, the range is refused, or no value in it matches |
| Delivery.StopDeliversIff | lib/att.js:357-373 | with the size stop, or in a procedure other than Read By Group Type, that means: each value, alone, fits the MTU and the length byte |
| Delivery.ApartIsChunked | lib/att.js:426-440 | without it, it is enough that neighbours of different size do not fit one packet |
| Delivery.ServicesGetAcrossIff | lib/att.js:426-440 | so all lists of 16-bit and 128-bit services get across if and only if the MTU is below 28 |
| Delivery.BoundsAgreeIff | lib/att.js:214-224 | the exclusive and the inclusive range bound give the same verdict exactly when the end handle holds no match |
| Delivery.OneHandleFindsNothing | lib/att.js:216 | as written a request for one handle finds nothing |
| Delivery.SingleDeliversIff | src/att.cc:375-387 | a Read By Type is reported truly if and only if nothing matches or the first value fits |
| Delivery.LongTypeFindsAnother | lib/att.js:346 | a Read By Type for a 128-bit type reports, under the same condition, the attributes of the 16-bit type in its first two bytes, or all of them when those are 0; that is the search meant for one type only |
| Results.ScanInTable | lib/att.js:214-224 | a scan, in terms of the table: an entry is in it exactly when its handle is in the range, the attribute has the type and the value asked for, and the entry tells that attribute's own fields |
| Results.FindInformationResult | lib/att.js:267-303 | Find Information by an idle client: Info(h, k) is reported exactly when h is in the range and in the table with type k, in ascending order; refused for a start of 0 or above the end; no list exactly when no handle of the range is in the table |
| Results.FindByTypeValueResult | lib/att.js:305-340 | Find By Type Value, for every request that does not depend on the buffer: Range(h, g) is reported exactly when h is in the range with the type, the value and the end g; for the type 0 and a match the client reads outside its list |
| Results.ReadByTypeResult | lib/att.js:342-374 | Read By Type, for every type: the values of the attributes of that type in the range; the one answer reports a first part of them if the first fits, and not-found when there are none |
| Results.ReadByGroupTypeResult | lib/att.js:412-441 | Read By Group Type, for every type: handle, end and value of the attributes of that type in the range, reported in full if and only if they get across packet by packet |
| Results.ReadResult | src/att.cc:460-474 | a Read by an idle client asks for the handle of the call and reports the first min(length, MTU - 1) bytes of that attribute's value, or a not-found that names the handle |
| Results.WriteCommandResult | src/att.cc:523-531 | a Write Command stores the first 20 bytes of its value if and only if the attribute allows it; a refusal never ends a pending request but reaches the error handler |
| Composed.MoveKeepsFlight | src/att.cc:566-633 | for every table, value and write: every defined move of client, server, application or channel keeps one packet of the pending request in flight, and none when nothing is pending |
| Composed.ReachableIsInFlight | src/att.cc:566-633 | so it is in every state that a run reaches |
| Composed.OneRequestAtATime | src/att.cc:166-207 | in every reachable state what reaches the client is background, the expected response or an error that names the pending request |
| Composed.MoveKeepsSound | src/att.cc:566-633 | every calm move is defined and keeps the client on course, and a packet either leaves the pending request alone or ends it with the filter of the table as it stands |
| Composed.CalmRunsAreSound | src/att.cc:566-633 | every run of calm moves is defined throughout and ends on course |
| Composed.StoreIsSteadyIff | lib/att.js:443-467 | a stored value leaves a pending search alone if and only if its attribute lies outside the range or keeps its part in the result; Find Information is left alone by every store |
| Composed.IndicationHarmlessIff | src/att.cc:621-629 | an indication does no harm if and only if nothing is pending |
| Composed.ErrorEndsNamedRequestIff | src/att.cc:577-600 | an error packet ends the pending request if and only if it names it |
| Progress.MoveAdvances | src/att.cc:566-633 | under any interleaving of calm moves: delivering the pending request's own packet ends it or uses up one of a bounded number of deliveries, any other packet taken from its channel brings it one place forward, no other move sets it back |
| Progress.DeliveriesAreBounded | src/att.cc:247-256 | over any run in which the request stays pending, the deliveries of its packets and those still left are no more than those left at the start |
| Progress.PendingIsOver | src/att.cc:243-269 | so a request is over after at most 2 * (end - start + 1) deliveries of its own packets, a Read and a Read By Type after two; and each comes when its channel has been served as often as there are packets in front |
| Reads.ReadReports | src/att.cc:460-474 | a Read in the composed system, with any other calls, packets and changes around it, reports the value that the handle of the call had when the server took the request, as far as it fits the MTU then, or that there was no such attribute |
| Registry.AlwaysAgreesIff | lib/att.js:85-101 | over any run of creations and assignments the index agrees with the attributes if and only if no held handle is dropped and, as written, only the highest entry moves |
| Registry.FoundAreTheHolders | lib/att.js:202-224 | under agreement the scan of the index is the attribute list filtered and sorted by handle |
| RegistryServer.SetHandle | lib/att.js:85-101 | the handle setter of the server is the assignment of the registry, in index, handles and refusal |
| RegistryServer.CreateAttribute | lib/att.js:202-208 | createAttribute is the creation of the registry |
| RegistryServer.AgreesIff | lib/att.js:85-101 | the server agrees with its index if and only if the registry that stands for it does |
| Layout.DeclarationValue | lib/characteristic.js:27-32 | the declaration holds the properties, the value's handle and the UUID, each where it is read |
| Layout.AssignHandles | lib/characteristic.js:97-99 | into a free range the loop succeeds and leaves consecutive handles |
| Layout.Characteristic.SetHandle | lib/characteristic.js:94-101 | the characteristic is laid out from its handle, the declaration names the value's handle, and nothing else of any attribute changes |
| Layout.CreateCharacteristic | lib/characteristic.js:20-68 | a new characteristic with its declaration, value and descriptors; with a handle it is laid out from the start; its properties and UUID are those given |
| Layout.Service.Place | lib/service.js:35-38 | the characteristics are laid out one behind the other, and keep their properties, UUIDs and values |
| Layout.Service.SetHandle | lib/service.js:29-40 | into a free range the service is laid out from its handle to its end handle; UUID, properties and the contents of the characteristics stay |
| Layout.Service.GetAttributes | lib/service.js:42-53 | all attributes in order, with the handles up to the end handle and no gap |
| Layout.CreateService | lib/service.js:8-23 | the constructor lays out the same and leaves a service that setHandle can move, but its end handle is one too high; it throws when the first characteristic's place is taken, be it by that characteristic |
| Groups.ServicesAreDisjoint | lib/service.js:29-40 | laid-out services occupy disjoint ranges, because no two attributes share a handle |
| Groups.RulesAgreeIff | src/att.cc:433-434 | where the client delivers, going on behind the last group's end delivers the same if and only if no match lies in the last group of a packet behind its start |
| Groups.ConstructorLosesIff | lib/service.js:21 | where the groups found touch, going on behind the end loses one if and only if a single packet does not carry all |
| Groups.ServicesDiscovered | lib/service.js:29-40 | services that setHandle laid out are discovered, whichever way the client goes on: the list is the start, end and UUID of each of them in the range, in order |
| Hosting.LayOut | lib/service.js:29-40 | services laid out one after the other are what the server then hosts, each from its handle on, with its UUID; where there is room for all of them it succeeds |
| Hosting.Append | lib/service.js:8-23 | the constructor, called for the handle behind a row of constructed services, makes the row one longer |
| Hosting.RowAbuts | lib/service.js:21 | the groups found in such a row touch: each ends at the handle where the next one starts |
| Hosting.ConstructedLosesIff | lib/service.js:21 | of such a row a client that goes on behind the last handle finds every service; one that goes on behind the group end does if and only if there is none in the range or one packet carries all |
| Discovery.Discoverer.ProcessAttributes | lib/service.js:90-95 | the recursion ends in one callback with the selected characteristics, or throws without one; it computes the end handles |
| Discovery.Discoverer.CreateChars | lib/service.js:68-84 | the same from the item in hand |
| Discovery.Discoverer.GetChars | lib/service.js:99-127 | the first answer that is not a list ending below the group's end decides: an error is called back as it is, alone, and creates nothing; not-found or a list that reaches the end reports what was gathered, and no error; an empty list throws; without such an answer the callback is still to come |
| Discovery.Discoverer.FindCharacteristics | lib/service.js:59-64 | the same, starting from no declarations |
| Discovery.FirstOtherDecides | lib/service.js:99-127 | what the recursion collects is decided by that first answer, whatever comes behind it |
| Discovery.SelectIff | lib/service.js:68-84 | the callback comes if and only if each declaration can be read and each that passes can be created |
| Discovery.SelectYields | lib/service.js:68-84 | it reports exactly the declarations that pass the filter, in order |
| Discovery.PassesIff | lib/service.js:70-77 | a filter passes the declarations whose number is its own value, and as written only those whose number its spelling meets in one UUID object |
| Discovery.SmallNumberMissed | lib/uuid.js:103-116 | as written no spelling but the number itself meets a number below 0x1000 |
| Discovery.EndsPartition | lib/service.js:90-95 | the computed ranges partition the handles from the first declaration to the group's end |
| DiscoveryRuns.CollectsIff | lib/service.js:99-127 | asking the server again and again collects the declarations of the range if and only if each of them can be sent |
| DiscoveryRuns.DiscoveryOutcome | lib/service.js:59-127 | the whole discovery against the server, from the table to the callback |
| DiscoveryRuns.LongCharacteristicNeeds25 | lib/att.js:367 | a characteristic with a 128-bit UUID is answered with an empty list, on which discovery throws, exactly below an MTU of 25 |
| DiscoveryRuns.FindsOwnUuidIff | lib/service.js:70-77 | a characteristic is found by its own UUID if and only if that has 16 bits, or is the one its first two bytes stand for, and, as written, its spelling meets the number |
| OwnDiscovery.OwnDeclarations | lib/service.js:99-127 | what Read By Type finds in the range of a laid-out service is the declarations of its characteristics, each once and in order |
| OwnDiscovery.OwnEnds | lib/service.js:90-95 | the end handles that processAttributes computes are the characteristics' own |
| OwnDiscovery.OwnDiscoveryIff | lib/service.js:59-127 | discovering a laid-out service collects exactly its declarations if and only if each of them can be sent |
| OwnDiscovery.DescribedDiscoveryIff | lib/characteristic.js:20-68 | each characteristic is discovered with the properties, UUID, value handle and end handle it was made with, if and only if the MTU is at least 25 or all UUIDs have 16 bits |
| OwnDiscovery.CreateFound | lib/service.js:77 | creating a discovered characteristic succeeds if and only if its number is not 0 and its two handles are free, which it then takes |
| OwnDiscovery.DescribedCharsIff | lib/service.js:68-95 | discovering a laid-out service creates one characteristic for each of its own, with the same handle and the number of its UUID, if and only if none of the numbers is 0 and none of the handles is in use |
| Uuids.ReverseBuffer | lib/uuid.js:153-159 | the loop leaves the reversed bytes in a fresh buffer |
| Uuids.UnhexIff | lib/uuid.js:180-191 | a string is bytes in hex exactly when it has an even number of hex digits |
| Uuids.StringBufferRoundTrip | lib/uuid.js:162-191 | stringToBuffer inverts bufferToString on 16 bytes |
| Uuids.BufferStringRoundTrip | lib/uuid.js:162-191 | bufferToString gives back every well-formed string in lower case |
| Uuids.ShortLongRoundTripIff | lib/uuid.js:62-73 | longToShort inverts shortToLong on 0x and four characters and on nothing else, and shortToLong inverts longToShort |
| Interning.CanonicalKeysMeetIff | lib/uuid.js:119-128 | with one key per value two spellings share a key if and only if they denote the same 128-bit value |
| Interning.WrittenKeysMeetIff | lib/uuid.js:48-128 | as written, over all pairs of long strings, short strings, numbers and buffers: the condition on the spellings under which they share a key |
| Interning.WrittenKeysAreSound | lib/uuid.js:48-128 | as written a shared key is always shared by spellings of one value |
| Interning.AcceptedIff | lib/uuid.js:48-150 | what getUUID knows a UUID for: 36 characters with a dash and 32 digits in their places, 0x or 0X and four digits, a number from 1 to 0xFFFF, any buffer |
| UuidCache.SameObjectIff | lib/uuid.js:131-150 | across any call history two calls return the same object if and only if the keys are equal, and the object means what was spelled |
| UuidCache.CanonicalInterning | lib/uuid.js:131-150 | with one key per value: the same object if and only if the same value |
| UuidCache.WrittenInterning | lib/uuid.js:131-150 | as written: across any call history the same object if and only if the two spellings meet |
| UuidCache.FirstSpellingDecidesLength | lib/uuid.js:14-22 | a short string and its long form meet, and the first of them decides the length of the buffer |
| UuidCache.NewObjectForm | lib/uuid.js:14-22 | the object of a number, a short string or two bytes has a two-byte buffer with the number, low byte first; that of a long string its sixteen bytes; sixteen bytes that are the expansion of a number become two; a short string goes with a two-byte buffer and nothing else |
| UuidCache.UuidModule.ParseLongUuid | lib/uuid.js:48-59 | the cache does what the cache as a value does |
| UuidCache.UuidModule.ParseShortUuid | lib/uuid.js:76-89 | the same |
| UuidCache.UuidModule.ParseNumber | lib/uuid.js:103-116 | the same |
| UuidCache.UuidModule.ParseBuffer | lib/uuid.js:119-128 | the same |
| UuidCache.UuidModule.GetUuid | lib/uuid.js:131-150 | the same for any spelling |

## Left out

- Read Blob, Read Multiple, Prepare, Execute and Signed Write: the handlers send nothing (`lib/att.js:396-410`, `lib/att.js:483-487`).
- Receiving an error packet on the server only raises an event, with fields read as if the opcode were still there (`lib/att.js:236-247`).
- Write Requests sent by the client track no response and are not exported (`src/att.cc:542-550`).
- Sockets, HCI, libuv, V8 marshalling, locks and memory lifetime; the compare-and-swap of `src/att.cc:180` is one step.
- AttServer.AttributeServer.SendError: an error with handle 0 leaves two bytes of its buffer unset (`lib/att.js:231`); they are 0 here.
- AttServer.AttributeServer.SetValue: every value is a byte sequence; conversion by JavaScript type, attributes without a value and write callbacks are not modelled.
- AttServer.AttributeServer.FindAttributes: types are compared by value; that equal values are one object is the subject of `UuidCache`, and where they are not, of `Discovery.PassesIff`.
- AttServer.AttributeServer.Receive: one central is modelled; `mtuSize` is shared by all centrals in the source.
- Composed.MoveKeepsFlight: indications are kept out, since the client mistakes them for responses (`Composed.IndicationHarmlessIff`); MTU requests are, since this client never sends one; transport errors end a run and are in `ClientSafety`; a list request is settled.
- Progress.PendingIsOver: runs of calm moves only; a server whose values change under a search may keep it from ending well, as `Composed.MoveKeepsSound` leaves open.
- Composed.MoveKeepsSound: what a request reports while an attribute it searches is being changed is not stated; the invariant of `Composed.MoveKeepsFlight` holds throughout.
- Conversation.EndToEnd: a value behind a type wider than two bytes, whose packet depends on what the buffer held before; `Requests.SettledIff` says which these are, `Requests.RequestRoundTripIff` that the server misreads each of them.
- AttClient.Att.WriteCommand: the completion callback of the connection is not called.
- Layout.Service.SetHandle: included services, for which the repository has no class; a handle beyond 16 bits, which the source does not check.
- Layout.CreateService: included services, and an undefined handle, to which nothing can be added; a null one counts as 0, as it does in the source.
- Layout.Service.GetAttributes: included services.
- Hosting.LayOut: the order and the handles of the calls are the application's; the repository has no loop that makes them.
- Layout.CreateCharacteristic: descriptors that already have a handle, when the characteristic has none; the two bytes of a declaration without a handle are unset in the source and 0 here.
- Discovery.Discoverer.CreateChars: the local attributes of a discovered characteristic are modelled by the handles they take, which is what `OwnDiscovery.CreateFound` does to a local table; a create that throws over its second handle leaves the first attribute registered, and discovery ends there.
- UuidCache.UuidModule.ParseBuffer: buffers of other lengths than 2 and 16.
- UuidCache.UuidModule.GetUuid: passing a UUID object back, which returns it unchanged and may add its upper-case string as a key.
- Advertising data, the constant tables and the fixed-handle GAP and GATT services: nothing hard to state.
