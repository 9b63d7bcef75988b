# Verification of the iOS WebKit debug proxy

This project models the stateful parts of the proxy in Dafny and proves what they promise over
every input, every run and every interleaving. `dafny verify dfyconfig.toml` checks all of it.

## What is modelled

* **The proxy core** (`src/proxy.rs`). One device's state and each handler's effect on it are
  functions in `RuntimeModel.dfy`; the table of devices, the published device list, the listener
  calls and the event loop are in `ProxyModel.dfy`. The classes in `DeviceRuntime.dfy` and
  `ProxyBridge.dfy` update fields in place, as the handlers do, and each method is proved to have
  exactly the effect of its function. Everything that is handed to a device's write channel and
  every call to the listener is kept in a log, so protocols can be stated about runs. The theorems
  are in `RuntimeInvariants.dfy` (what every event keeps), `PageIdentity.dfy` (page numbers and
  their overflow), `PageListings.dfy` and `ListingLimits.dfy` (what a listing does to the page
  table, and exactly when), `PageTable.dfy` (which pages a device holds after any run), `DeviceSteps.dfy`
  (what each other event does to a device, field by field), `Sessions.dfy` and `SessionLimits.dfy` (the debug-session
  protocol, and exactly when it is kept), `PageCache.dfy` (how
  current the published page list is), `Applications.dfy` (which applications are known and
  when listings are requested), `Routing.dfy` (where payloads go), `ProxyInvariants.dfy` and
  `ProxyRuns.dfy` (ports, lists, notifications, shutdown), `PageNotices.dfy` (what the listener
  knows of a device's pages), and `ProxySteps.dfy` (what each event does to the table, and what the
  listener is told of it).
* **The channels around the core** (`src/proxy.rs`, `src/http_server.rs`). `HttpServer.dfy` is one
  WebSocket client's bridging loop, `Relays.dfy` the FIFO relays, `ProxySystem.dfy` the transition
  system in which clients, devices, relays and the event loop take steps in any order, and
  `EndToEnd.dfy` what that system guarantees from one end to the other.
* **The WebInspector codec** (`src/webinspector.rs`): framing, fragmentation, reassembly and the
  read loop, in `WebInspectorModel.dfy`, `WebInspectorLaws.dfy` and, imperatively, `WebInspector.dfy`; what the
  packets and bodies are in bytes and keys is in `WebInspectorPackets.dfy`.
* **The usbmuxd parser** (`src/device_listener.rs`): the whole-stream specification in
  `DeviceListenerModel.dfy`, its laws in `DeviceListenerLaws.dfy`, what is reported of which
  dictionaries in `DeviceReports.dfy`, the incremental parser in `DeviceListener.dfy`.
* **The port configuration** (`src/port_config.rs`): the segment grammar with its leftmost-first
  preference in `PortGrammar.dfy` and `PortGrammarLaws.dfy`, lines and look-up in
  `PortConfigModel.dfy` and `PortConfigLaws.dfy`, what every form of a segment is read as in
  `PortReadings.dfy`, the class in `PortConfig.dfy`.

Property lists are read and written by an abstract library (`Plist.dfy`). Where a theorem needs it,
the library is assumed to read back what it writes, for values whose dictionaries hold no key
twice, and never to write the empty string; and a wrapped fragment is assumed to stay below the
body limit. `PlistWitness.dfy` shows that a library with all of these properties exists.

## Where the code differs from what one might expect

* A close ends the session of the page it names, whoever opened it
  (`CloseSparesOthersIff`, `SupersededClientEndsNewSession`).
* A session can be open before its channel is registered; until then the device's data is dropped
  (`OpenSessionHeardIff`).
* Page numbers are 32 bits wide. The counter's wrap-around in a release build is modelled. An event
  keeps all numbers issued so far, live or not, exactly when the counter does not overflow in it
  (`StepKeepsNumbersIff`, and for runs `RunKeepsNumbersIff`), and theorems that relate page numbers
  over time assume just that (`PageIdentity.NeverWraps`). After an overflow a listed page still leaves
  the live numbers alone exactly when the next number is not in use (`ListOneKeepsLiveIff`), and a
  listing does to the page table what it should exactly when that holds for each number it issues
  (`ReconciledIff`). Both conditions have a closed form over the counter, the table and the ids listed
  that are not held yet (`FitsAllIff`, `FreeAllIff`). `WrapAroundReusesNumber` is a run from a freshly attached device in which a
  live number passes from one application's page to another's.
* A page can go while a session is open on it, and no close is sent. Once the counter has overflowed
  its number can come back for another page, not in use and yet with an open sender. The log keeps to
  the session protocol, and agrees with the pages' session fields, exactly when no event issues such a
  number (`StepInOrderIff`, `AlwaysInOrderIff`); `OverflowBreaksProtocol` is a run from a freshly
  attached device that does and breaks the protocol.
* The receive loop of the usbmuxd parser never ends once a packet declares the length zero, and
  ends in every other case (`LoopEndsIff`); whether it does cannot depend on how the stream was
  split (`EveryCallEndsIff`).
* In a port configuration `:-5` is the minimum minus five, not a range up to five
  (`LoneHyphenIsNegative`).
* The sender shown in the published page list is the one of the last listing or application
  removal, and so is out of date exactly when the openings and closings since then have changed it
  (`ShownSenderCurrentIff`, with a run in `StaleSenderIsShown`).

## Model

| member | source | states |
|---|---|---|
| RuntimeInvariants.RunCoherent | src/proxy.rs:566-964 | Whatever events a device gets, in any order: pages are stored under their own numbers, (application, page id) is unique, `sender_id` equals `ws_client_id`, the published list agrees with the pages, `connected` agrees with the shared flag, and the two client maps have the same keys; so every look-up by number or by id has one answer, whatever the hash-map order |
| RuntimeInvariants.ProjectionUnique | src/proxy.rs:1011-1027 | A list that is strictly sorted by number and shows exactly the pages is the published projection, and there is no other |
| PageCache.StaysCurrentIff | src/proxy.rs:814-964 | A client's message leaves a published list that is current, senders included, current if and only if the page it names is gone or its session is what it was |
| PageCache.ListIsOfLastSync | src/proxy.rs:705-788 | After any run the published list is the projection of the pages as they were after the last listing or application removal; only senders have moved since, by the openings and closings |
| PageCache.CurrentIff | src/proxy.rs:1011-1027 | After any run the published list is the projection of the pages as they are if and only if the openings and closings since the last publication leave every session as it was |
| PageCache.ShownSenderCurrentIff | src/proxy.rs:912-961 | The sender shown for a live page is the one at the last publication, and is the page's own if and only if the openings and closings since come to the same |
| PageCache.StaleSenderIsShown | src/proxy.rs:912-928 | A freshly attached device lists a page and a client opens it: the page has a sender and the list shows none |
| RuntimeInvariants.UpgradeCheckExact | src/http_server.rs:210-215 | The check before a WebSocket upgrade accepts a number exactly when a live page has it |
| DeviceRuntimes.DeviceRuntime.constructor | src/proxy.rs:455-472 | A device enters the table disconnected, with no pages, applications or clients, and only its identifier reported |
| DeviceRuntimes.DeviceRuntime.SyncPages | src/proxy.rs:1011-1027 | Collecting the pages in any order and sorting them publishes the unique sorted projection and changes nothing else |
| DeviceRuntimes.DeviceRuntime.AddAppId | src/proxy.rs:662-683 | A listing is requested for an application exactly when it was not known before |
| DeviceRuntimes.DeviceRuntime.RemoveAppId | src/proxy.rs:686-710 | Exactly the application's pages go, no close is sent for them, and the published list follows |
| DeviceRuntimes.DeviceRuntime.HandlePageListing | src/proxy.rs:732-793 | The in-place merge and pruning of a listing yield the specified page table, counter and published list |
| DeviceRuntimes.DeviceRuntime.HandleAppData | src/proxy.rs:796-811 | Data goes to the channel registered under its destination and nowhere else; without one it is dropped |
| DeviceRuntimes.DeviceRuntime.HandleWsRegistration | src/proxy.rs:862-880 | A registration replaces the client's entry and channel and touches nothing else |
| DeviceRuntimes.DeviceRuntime.StopDevtools | src/proxy.rs:931-964 | An open session of the page is closed towards the device and both session fields are cleared; with no session nothing happens |
| DeviceRuntimes.DeviceRuntime.SendForwardSocketSetup | src/proxy.rs:883-928 | Another client's session is closed first; then the session is opened for the new client if the page is live |
| DeviceRuntimes.DeviceRuntime.HandleWsMessage | src/proxy.rs:814-859 | Close, opening and data messages have the specified effect, chosen by the close flag and then by emptiness |
| DeviceRuntimes.DeviceRuntime.HandleRpc | src/proxy.rs:577-658 | Every kind of device message has its specified effect on the device's state |
| DeviceRuntimes.DeviceRuntime.PageExists | src/http_server.rs:210-215 | The scan of the shared list finds a number exactly when the page is live |
| PageIdentity.RunKeepsNumbers | src/proxy.rs:740-785 | Over a run without counter overflow live numbers lie between one and the counter; a number issued before keeps its application, page and type while live and never comes back once gone |
| PageIdentity.NumberDenotesOnePage | src/proxy.rs:755-771 | In a run without counter overflow, at any two moments at which a number is live it denotes the same page |
| PageIdentity.ListOneKeepsNumbersIff | src/proxy.rs:747-771 | A listed page keeps all numbers issued so far, live or not, if and only if it is already held or the counter is below its largest value |
| PageIdentity.StepKeepsNumbersIff | src/proxy.rs:740-785 | An event keeps all numbers issued so far if and only if the counter does not overflow in it |
| PageIdentity.RunKeepsNumbersIff | src/proxy.rs:740-785 | Along a run every step keeps the numbers issued so far if and only if the counter never overflows |
| PageIdentity.ListOneKeepsLiveIff | src/proxy.rs:747-771 | Also after an overflow, a listed page leaves all live numbers their meaning if and only if it is already held or the next number is not in use; numbers of pages that have gone are not covered |
| PageIdentity.WrapAroundReusesNumber | src/proxy.rs:755-771 | There is a run from a freshly attached device and one more listing after which the live number 1 denotes a page of another application |
| PageListings.ListingReconciles | src/proxy.rs:740-785 | If each number the merge issues is not in use, after a listing the application's pages are exactly those listed; duplicates collapse with the last title, address and connection; survivors keep number, type and session; other applications are untouched; new pages get unused numbers |
| ListingLimits.ReconciledIff | src/proxy.rs:740-785 | A listing does all that if and only if each number its merge issues is not in use when it is issued |
| ListingLimits.RunWordSized | src/proxy.rs:755-757 | Every run keeps what the equivalence asks for: a coherent state whose counter and live numbers are below 2^32 |
| PageListings.FitsAllIsFree | src/proxy.rs:755-757 | As long as the counter has not overflowed, the numbers issued are not in use |
| ListingLimits.FreeAllIff | src/proxy.rs:740-771 | Each number a merge issues is not in use if and only if there are at most 2^32 ids listed and not held, and the numbers after the counter, as many as those, are not in use |
| ListingLimits.FitsAllIff | src/proxy.rs:740-771 | The counter does not overflow in a merge if and only if counter plus number of ids listed and not held is below 2^32 |
| PageListings.ListingIdempotent | src/proxy.rs:732-793 | If every page listed is held after a listing, applying the same listing again changes nothing, the counter included, even if pages of other applications were lost |
| ListingLimits.IdempotentIff | src/proxy.rs:732-793 | After a listing every page listed is held if and only if the same listing again changes nothing and there are at most 2^32 ids listed |
| PageTables.DisconnectionTakesItsPages | src/proxy.rs:686-710 | An application that disconnects takes exactly the pages with its id out of the table; every other page keeps its number and all it holds; logs, counter and clients stay, and the published list shows exactly what is left |
| PageTables.PagesFollowListings | src/proxy.rs:686-788 | After any run without lack of numbers a device holds exactly the pages that the last listing of an application named, up to its disconnection, each with the last title, address and connection listed and the type it appeared with |
| PageTables.EachReconcilesIff | src/proxy.rs:732-788 | Over every run each listing reconciles the page table if and only if, at each, the numbers after the counter, as many as there are new ids, are not in use |
| PageTables.NoOverflowHasRoom | src/proxy.rs:755-757 | So it is in every run in which the counter does not overflow |
| DeviceSteps.CloseExact | src/proxy.rs:814-829 | A closing message clears the session of its page and no other, closes the sender it had towards the device, and forgets the client in both maps |
| DeviceSteps.OpenExact | src/proxy.rs:883-928 | An empty message gives a live page the client's session, after closing another client's towards the device; for a page that is gone it changes nothing |
| DeviceSteps.DataExact | src/proxy.rs:838-858 | Data for a live page is sent under the page's sender, or the client's id if it has none; otherwise nothing happens |
| DeviceSteps.RegistrationExact | src/proxy.rs:862-880 | A registration sets the client's entry and channel and leaves all others |
| DeviceSteps.MessageExact | src/proxy.rs:577-658 | The new state after each device message that concerns no pages: who is connected, known and current, what is requested, where data goes, and that unknown selectors change nothing |
| DeviceSteps.ConnectedIff | src/proxy.rs:578-617 | Over every run a device is connected, in its shared state too, if and only if it has reported its set-up or its application list |
| DeviceSteps.CurrentIsLastNamed | src/proxy.rs:619-634 | Over every run the current application is the one named last by an application list or a connection |
| SessionLimits.StepInOrderIff | src/proxy.rs:566-964 | From a state in order every event keeps the protocol (a setup finds no other sender open, a close names exactly the open sender, data carries the open sender), and it keeps the log in agreement with the live pages' `sender_id` if and only if it issues no page number on which a sender is still open; counter overflow included |
| SessionLimits.AlwaysInOrderIff | src/proxy.rs:566-964 | Over every run, protocol and agreement hold after each event if and only if no event issues a page number on which a sender is still open |
| SessionLimits.SessionProtocolIff | src/proxy.rs:814-964 | The same for every run of a freshly attached device, and always `ws_client_id` equals `sender_id` |
| SessionLimits.OverflowBreaksProtocol | src/proxy.rs:701-703 | A run from a freshly attached device in which a page goes with its session open, its number comes back, and another client's setup finds the old sender open |
| SessionLimits.NoOverflowIsSafe | src/proxy.rs:755-756 | As long as the counter has not overflowed no number with an open sender is issued |
| Sessions.SessionProtocol | src/proxy.rs:814-964 | Over every run of a freshly attached device in which the counter does not overflow: protocol and agreement hold, all messages about a number name the same page (the live one, if it is live), and `ws_client_id` equals `sender_id` |
| SessionLimits.SessionFollowsControls | src/proxy.rs:883-964 | While a page is live and its number is not issued anew, counter overflow or not, its session is decided by the clients' openings and closings alone |
| SessionLimits.NoOverflowNeverIssues | src/proxy.rs:755-756 | A live number is not issued anew as long as the counter does not overflow |
| Sessions.CloseSparesOthersIff | src/proxy.rs:820-829 | A close leaves other clients' sessions alone if and only if its page is gone, has no session, or has the closing client's own |
| Sessions.SupersededClientEndsNewSession | src/proxy.rs:820-829 | A client whose session was taken over ends the newer session when it closes, and the log shows it |
| Applications.ListingsFollowAnnouncements | src/proxy.rs:597-710 | Over every run an application is known exactly if the device announced it and has not disconnected it since, and its listing has been requested once for every time it became known |
| Routing.DeliveriesFollowRegistrations | src/proxy.rs:796-880 | Device data reaches exactly the channels registered at that moment, in the order it came, computed from the events alone |
| Routing.ChannelReceivesItsOwn | src/proxy.rs:796-811 | A channel used by one client alone receives all the data addressed to that client while registered, in order, and nothing else |
| Routing.OpenSessionHeardIff | src/proxy.rs:831-836 | After a setup the session is open, and data for it is heard if and only if the registration was handled before |
| Routing.FramesAreForwarded | src/proxy.rs:838-858 | Over a run each non-empty frame that finds its page live is forwarded once, unchanged and in order, and no other |
| ProxyInvariants.FirstFreeIsLeast | src/proxy.rs:267-276 | The port search returns the least unused port and fails only if all are used |
| ProxyInvariants.PortSearchFailsIffFull | src/proxy.rs:265-284 | In every sound state the search fails exactly when there are as many devices as configured ports |
| ProxyInvariants.StepSound | src/proxy.rs:173-227 | Every event keeps the invariant: keyed and coherent runtimes, distinct ports in range, the exact device list, the notification language |
| ProxyRuns.PortsInRangeAndDistinct | src/proxy.rs:265-293 | In every reachable state the devices' ports lie in the configured range and differ |
| ProxyRuns.AttachOutcome | src/proxy.rs:238-475 | With a configured port range, a new device whose port can be bound and which answers is attached exactly when a port is left, and gets the least unused one |
| ProxySteps.AttachExact | src/proxy.rs:238-476 | In every reachable state, for every attempt: an attached device stays as it is; another is attached if and only if a port is found, can be bound, and the device is reached; else nothing changes; it gets the least unused port of the range or the one assigned, the simulator's or its own name and version, and an empty state |
| ProxySteps.DetachExact | src/proxy.rs:479-508 | Detaching takes out that device alone; the listener is told, with its description, exactly if it was connected |
| ProxySteps.MessageHeard | src/proxy.rs:566-659 | For every message in every reachable state, the one call made to the listener, if any: connected after a set-up report or the first application list, the pages now held after a listing or a disconnection, with number, type and title; nothing for unknown devices; other devices stay as they are |
| ProxySteps.EveryDeviceHoldsItsListings | src/proxy.rs:173-227 | In every reachable state of the proxy each attached device holds exactly the pages its own listings and disconnections since its attachment come to, if none of those listings lacked a number, as none does while no page counter overflows |
| ProxyRuns.DeviceListExact | src/proxy.rs:511-529 | In every reachable state a description is listed once if its id, name, version and port are those of a connected device, and otherwise not at all |
| ProxyRuns.SharedStateAgrees | src/proxy.rs:578-617 | For every attached device in every reachable state the shared flag and the shared page list agree with the runtime, and its own id is its key |
| ProxyRuns.PublishedListExact | src/proxy.rs:1011-1027 | For every attached device in every reachable state the published list is that of the last publication, senders included, and is current if and only if every session is as it was then |
| ProxyRuns.NotificationLanguage | src/proxy.rs:479-507 | For each device the listener's connection calls are a prefix of (connected+ disconnected)*, open exactly while the device is connected |
| PageNotices.ListenerSeesCurrentPages | src/proxy.rs:981-1008 | Between any two events the listener's last notice about an attached device shows exactly its current pages, each with number, type and title (empty without one); before the first notice since its attachment it has none |
| ProxyRuns.ShutdownLeavesNothing | src/proxy.rs:229-234 | After the clean-up, in whatever order, no device and no list entry is left and every connected call has been answered by a disconnected call |
| ProxyRuns.DeviceIsItsOwnRun | src/proxy.rs:173-227 | Every attached device is what its own events since its attachment make of a fresh one: no other device and no earlier attachment leaves a trace |
| ProxyRuns.EveryDeviceInOrderIff | src/proxy.rs:173-227 | For every attached device in every reachable state of the proxy, counter overflow included: since its attachment its log has kept to the protocol and agreed with the live pages after each event if and only if none of its events issued a number with an open sender |
| ProxyRuns.EveryDeviceKeepsProtocol | src/proxy.rs:173-227 | In runs of the proxy in which no page counter overflows, the whole protocol, with all messages about a number naming one page, holds for every attached device |
| ProxyBridges.ProxyBridge.UpdateDeviceList | src/proxy.rs:511-529 | Walking the table in any order publishes the descriptions of exactly the connected devices |
| ProxyBridges.ProxyBridge.FindPort | src/proxy.rs:267-276 | The loop over the range finds what the specified search finds |
| ProxyBridges.ProxyBridge.ConnectDevice | src/proxy.rs:238-476 | Attaching a device has the specified effect on table and list, including every way to fail |
| ProxyBridges.ProxyBridge.DisconnectDevice | src/proxy.rs:479-508 | Detaching removes the device, tells the listener if it was connected, and republishes the list |
| ProxyBridges.ProxyBridge.HandleRpcMessage | src/proxy.rs:566-659 | A device's message updates its runtime, the list and the listener as specified, also for unknown devices |
| ProxyBridges.ProxyBridge.Run | src/proxy.rs:155-236 | From start to shutdown the loop computes the specified run and ends with nothing left |
| HttpServer.HandleWsConnection | src/http_server.rs:221-340 | A client registers, asks for a session, and bridges up to the first turn that is a close, an end, an error, a gone core or an answer that could not be sent: before it every text and binary, empty ones too, goes to the core and every ping and message from the core is answered, in order; it adds the closing message or reply, and nothing follows |
| HttpServer.BridgesUntilStopped | src/http_server.rs:262-334 | The same of the specified conversation, for every sequence of turns |
| HttpServer.NothingIsLost | src/http_server.rs:262-334 | If no turn is of those kinds, the core gets every payload, the client every message of the core, and every ping is answered with its own data |
| HttpServer.ConversationShape | src/http_server.rs:243-334 | A client opens with the empty message, always carries its page and id, closes at most once, last, and exactly when the socket was closed or ended (not after an error); its non-empty frames are its payloads |
| Relays.TakenIsPrefix | src/proxy.rs:373-398 | What was taken from a relay is the beginning of what was put in: nothing lost, swapped or doubled |
| ProxySystem.StepExact | src/proxy.rs:173-227 | Attachments and detachments are handled at once, a relay is opened exactly for a device brought into the table, and what is put into a relay is handled when it is taken, for the relay's device |
| ProxySystem.RunFlows | src/proxy.rs:173-227 | Under any interleaving the three kinds of channels conserve and order their messages, and the loop handles exactly what it takes, for the device it is for |
| EndToEnd.FramesReachTheirDevice | src/proxy.rs:373-385 | Under any interleaving the payloads of a client in a device's log are an order-preserving, unchanged selection of its non-empty frames, and there are none in any other device's log |
| EndToEnd.SocketPayloadsReachTheDevice | src/http_server.rs:262-294 | The same from the socket on: what is forwarded for a client is a selection, in order, of the text and binary payloads read from its socket |
| EndToEnd.DataReachesItsClient | src/proxy.rs:312-324 | Under any interleaving a channel that one client alone registers receives an order-preserving, unchanged selection of the data addressed to it and taken for its device; each connection's data is taken in the order sent, and data of an earlier connection to the device may come in between |
| EndToEnd.DataOfOneConnection | src/proxy.rs:312-324 | If one connection carries all the client's data, the selection is in the order the device sent it |
| EndToEnd.SocketTextsComeFromTheDevice | src/http_server.rs:318-331 | The texts written to a client's socket are an order-preserving, unchanged selection of the data addressed to it |
| HttpServer.TextsAreFromChannel | src/http_server.rs:318-331 | The texts a client is sent are the beginning of what its channel held, in order |
| WebInspectorLaws.HeaderRoundTrip | src/webinspector.rs:44-126 | For lengths below 2^32 a built header gives its length back exactly when it is at most 2^26 |
| WebInspectorLaws.ChunksExact | src/webinspector.rs:73-107 | Chunks make up the message; all but the last have 7596 bytes; the last is not empty unless the message is; the count is max(1, ceil(n / 7596)) |
| WebInspectorLaws.StreamRoundTrip | src/webinspector.rs:57-311 | Whatever is written for a list of messages is read back as that list by a reader with the same flags, leaving no partial buffer |
| WebInspectorPackets.EncodedInFragments | src/webinspector.rs:73-107 | The specified encoding in fragments, packet by packet: header, key and stretch of the message |
| WebInspectorPackets.EncodedWhole | src/webinspector.rs:60-71 | The specified encoding in one packet, with the empty packet exactly for real devices |
| WebInspectorPackets.FragmentsNotEmpty | src/webinspector.rs:73-107 | No fragment's body is empty, so no reader passes over one |
| WebInspectorPackets.FragmentExact | src/webinspector.rs:129-172 | For every dictionary and buffer: the final key comes before the partial one, a final fragment empties the buffer whether or not its message is readable, a partial one is appended, and every other case leaves the buffer and fails with its own error |
| WebInspectorPackets.WholeBodyExact | src/webinspector.rs:129-140 | Without fragments a body is a message by itself and the buffer stays; unreadable bodies and, with fragments, other values than dictionaries are refused |
| WebInspectorPackets.ReadEndsExact | src/webinspector.rs:253-311 | Behind any whole packets the loop ends at less than a header, at a header announcing more than 2^26 bytes, or at a missing body, and the events before that stand |
| WebInspectorPackets.OneMoreBody | src/webinspector.rs:253-311 | A refused or partial body adds no event and does not end the loop; a completed one adds its message |
| WebInspectorLaws.BufferIsPending | src/webinspector.rs:154-168 | The partial buffer is always the data of the partial frames since the last well-formed final frame, whatever else came |
| WebInspectorLaws.FinalCompletesPending | src/webinspector.rs:154-172 | A final frame empties the buffer and yields the message of what was pending plus its own data, if that can be read |
| WebInspectorLaws.Resynchronises | src/webinspector.rs:129-172 | After any frames ending in a well-formed final one, even one whose message cannot be read, later messages are read as if nothing had come before |
| PlistWitness.LawfulLibraryExists | src/webinspector.rs:92-97 | The laws assumed of the property-list library are consistent: some library has them all |
| WebInspector.WebInspectorCodec.EncodePlist | src/webinspector.rs:57-110 | Whole: one packet with the message behind its big-endian length, and an empty packet of four zero bytes after it unless for a simulator. In fragments: max(1, ceil(n / 7596)) packets, the i-th carrying the i-th 7596 bytes under the partial key, the last under the final key; with a lawful library none has an empty body |
| WebInspector.WebInspectorCodec.ParsePlist | src/webinspector.rs:129-181 | The in-place reassembly yields the specified outcome and buffer, also when the inner message is malformed |
| WebInspector.WebInspectorHandle.SendPlist | src/webinspector.rs:195-208 | Exactly the packets of the message are appended to what is written, in order |
| WebInspector.ReadLoop | src/webinspector.rs:253-311 | The loop reads what the specification reads from the stream, and stops where it stops |
| DeviceListenerLaws.CutConserves | src/device_listener.rs:75-103 | Drained packets followed by the buffer are all bytes received |
| DeviceListenerLaws.CutNeverMismatches | src/device_listener.rs:107-119 | The length check inside a packet never fires for packets cut from the stream |
| DeviceListenerLaws.AfterRests | src/device_listener.rs:75-103 | On return the length is known exactly when four bytes are buffered, and then it is their little-endian value and exceeds the buffer |
| DeviceListenerLaws.ChunkingIndependence | src/device_listener.rs:75-204 | However a stream is split, events, table, buffer and cached length come out as from one piece |
| DeviceListenerLaws.EveryCallEndsIff | src/device_listener.rs:79-100 | Every call of a split stream gets bytes on which the loop ends if and only if the whole stream declares no length zero |
| DeviceListenerLaws.LoopEndsIff | src/device_listener.rs:79-100 | The loop ends if and only if no packet in the buffered bytes declares the length zero |
| DeviceListenerLaws.TableIsLatest | src/device_listener.rs:155-198 | The table maps a number to an id exactly when the last accepted message about the number attached that id |
| DeviceListenerLaws.DetachReportsLatest | src/device_listener.rs:181-194 | A detach is reported exactly for a number attached and not detached since, with its latest id |
| DeviceReports.AttachIsReported | src/device_listener.rs:160-179 | For every table and trace: a message that attaches an id under a number adds exactly one event, the attachment of that id with that number, and one entry of the table |
| DeviceReports.DetachIsReported | src/device_listener.rs:181-194 | A message that detaches a number adds one event, with the id the table had for it, if it had one, and removes that entry alone |
| DeviceReports.OthersAreSilent | src/device_listener.rs:86-96 | Ignored and unreadable packets add no event and leave the table |
| DeviceReports.ReportedNumber | src/device_listener.rs:173-178 | The number reported is the signed 32-bit one congruent to the one received |
| DeviceReports.DetachFollowsAttach | src/device_listener.rs:155-198 | In the events of any stream to a new parser, a device is reported as detached only after it was reported as attached with the same id and number |
| DeviceReports.AttachedSays | src/device_listener.rs:155-179 | An announcement with properties attaches the number given, or zero, and the serial number given; one of 24 characters becomes an id of 25 with a dash at index 8 that gives the serial number back without it |
| DeviceReports.OnlyAnnouncementsCount | src/device_listener.rs:145-203 | A dictionary attaches if and only if it is an announcement with properties, and detaches a number if and only if it is one of a device gone with that number |
| DeviceReports.RefusalsExact | src/device_listener.rs:147-198 | A dictionary is refused exactly as a result other than zero, an announcement without properties, or one of a device gone without an unsigned number |
| DeviceReports.UnreadableRefused | src/device_listener.rs:133-139 | Bytes that are no property list, and property lists that are no dictionary, are refused as that |
| DeviceReports.AcceptedExact | src/device_listener.rs:106-130 | A packet counts if and only if it has 16 bytes, the length it declares, version 1, type 8 and a message that attaches or detaches |
| DeviceReports.AnnouncementArrives | src/device_listener.rs:75-179 | A parser awaiting nothing that receives the packet of an announcement returns exactly the event of that attachment and holds it in its table |
| DeviceReports.StreamReports | src/device_listener.rs:75-204 | Any messages sent in built packets, split anywhere, are reported one after another as they say, with nothing left in the buffer |
| DeviceListenerLaws.BuiltPacketsCutApart | src/device_listener.rs:208-244 | Packets with built headers, each shorter than 2^32 bytes, sent one after another, are cut apart again with nothing left over |
| DeviceListenerLaws.BuiltPacketClassified | src/device_listener.rs:106-130 | A built packet shorter than 2^32 bytes passes the header checks and says what its property list says |
| DeviceListener.DeviceListenerParser.OnRecv | src/device_listener.rs:75-103 | The draining loop ends, and leaves the state and returns the events that the stream specification gives |
| DeviceListener.DeviceListenerParser.ParsePacket | src/device_listener.rs:106-130 | A packet's event, error and effect on the table are those of its classification; an unreadable packet changes nothing |
| DeviceListener.DeviceListenerParser.ParsePlistMessage | src/device_listener.rs:133-204 | The dictionary's event, error and effect on the table, for every message type and missing key: an attachment is returned with its id and number and entered, a detachment returned if its number was known and removed |
| DeviceListener.FeedAll | src/device_listener.rs:325-352 | Feeding a stream in pieces to one parser amounts to receiving it at once |
| DeviceListener.CreateListenPacket | src/device_listener.rs:208-244 | The request packet is cut off whole by a reader, passes its header checks and says what its XML says, for lengths below 2^32; in bytes, version 1, type 8 and tag 1 precede the XML |
| PortGrammarLaws.LeftmostFirst | src/port_config.rs:27-29 | The matcher accepts a segment if and only if the grammar derives it, and takes the derivation that leftmost-first greedy matching prefers to all others |
| PortGrammarLaws.PreferenceIsStrict | src/port_config.rs:27-29 | Two derivations of a text that are equally preferred are the same, so the captures are determined |
| PortGrammarLaws.ColonAndMinimumForce | src/port_config.rs:27-29 | With the colon and the minimum written, blanks anywhere, the derivation written is the one taken |
| PortGrammarLaws.LoneHyphenIsNegative | src/port_config.rs:27-29 | A lone hyphen and number is a negative minimum, never a range from zero |
| PortGrammarLaws.PlainUnambiguous | src/port_config.rs:27-29 | `id:min-max` has exactly one derivation, despite the optional colon and the signed minimum |
| PortConfigLaws.PrintReadRoundTrip | src/port_config.rs:52-112 | Printing entries whose id is absent, `*` or at least 25 hex digits or hyphens, whose minimum fits 32 bits and whose maximum is also not negative, and adding the line restores them all, in order |
| PortConfigLaws.SignedRoundTrip | src/port_config.rs:90-101 | Every 32-bit number is read back from its decimal notation |
| PortConfigLaws.PiecesJoin | src/port_config.rs:61-70 | The pieces of a line are the text between its commas |
| PortConfigLaws.AfterTerminatorIgnored | src/port_config.rs:62-70 | Text after a `#`, a newline or a NUL never matters |
| PortConfigLaws.AcceptedIff | src/port_config.rs:56-111 | A line is accepted if and only if each piece before its terminator is blank or derived by the grammar |
| PortConfigLaws.RefusedIff | src/port_config.rs:72-105 | A piece is refused if and only if it is neither blank nor derived, at its first character after blanks |
| PortConfigLaws.RejectedAtFirstInvalid | src/port_config.rs:103-111 | A rejected line returns the position of its first refused piece, and its entries are those of the text before it |
| PortReadings.PieceExact | src/port_config.rs:72-105 | Every piece: a blank one gives nothing; one that is read gives the entry its preferred derivation stands for: any device without an id, the device list for `null`, else the id; the minimum or zero; the maximum or the minimum |
| PortReadings.FormReads | src/port_config.rs:72-105 | Every form, with or without id, colon, minimum and maximum, over printed numbers of any size: it reads as the entry meant, and a number outside 32 bits counts as absent |
| PortReadings.RangeForAnyDevice | src/port_config.rs:77-101 | `:min-max` is an entry for any device |
| PortReadings.SinglePort | src/port_config.rs:90-101 | An id with one number, after a colon or a blank, has it as both ends |
| PortReadings.NoPorts | src/port_config.rs:90-101 | An id alone, and a colon alone, read as zero and zero |
| PortReadings.ParseExact | src/port_config.rs:90-101 | A decimal number is read exactly if it fits 32 bits with its sign |
| PortReadings.LineAddsAll | src/port_config.rs:52-112 | A line adds the entries of all its pieces in order, passing over blank ones, up to the first that cannot be read |
| PortReadings.FoundExact | src/port_config.rs:131-141 | A look-up gives the first entry that is for any device, is the device list's when there is no id, or has the same id up to the case of letters; it fails if and only if there is none |
| PortReadings.AnyDeviceServesAll | src/port_config.rs:85-141 | After an accepted line with a segment without an id every look-up succeeds |
| PortConfigLaws.FindsFirst | src/port_config.rs:131-141 | A look-up finds the first entry that covers the device, and fails exactly if none does |
| PortConfigLaws.AppendKeepsFinds | src/port_config.rs:131-141 | Entries added later never change a look-up that already succeeds |
| PortConfigs.PortConfig.AddLine | src/port_config.rs:52-112 | The nested loops append exactly the entries of the line's reading and return its first invalid position |
| PortConfigs.PortConfig.Find | src/port_config.rs:131-141 | The loop returns the first covering entry |
| PortConfigs.PortConfig.SelectPort | src/port_config.rs:144-165 | The range of the first covering entry is returned and a current port outside it is dropped; without one all three are -1 |

## Left out

- Sockets, TLS, the foreign-function layer, process start-up and signals (`src/idevice_ext.rs`, `src/main.rs`): whether a bind or a connection succeeds, and the port the system assigns, are parameters of an attempt.
- The property-list formats: an abstract library with the laws stated above. The usbmuxd parser's replacement of invalid UTF-8 before parsing is part of that library's reading; no theorem about the parser assumes anything of it.
- `src/rpc.rs`: messages arrive decoded, and outgoing messages are log entries that carry the application, page, sender and payload. UUID generation: client ids are given, and where they must be distinct a theorem says so.
- The connection id, the WebInspector handle and codec of a device: always present in the table, so the branches for their absence cannot be taken. A failed send is only logged by the source; the log records what is handed to the write channel.
- Back-pressure, liveness and lock waiting: channels are unbounded queues, shared state behind a lock is a field, and nothing is claimed about deadlock.
- Cancellation, and a receiver that has gone away, end the WebInspector read loop early; the events are then the beginning of what the model reads. Relays that end because the core has gone deliver no more.
- The order between the different logs: the messages to a device and the calls to the listener are separate logs, so it is not modelled that the listener hears of a newly connected device before listings are requested for its applications.
- Ports assigned by the system are not claimed to be distinct.
- Overflow of the page counter in a debug build, where it panics: the model wraps around as a release build does.
- HTML and JSON pages, CORS, the front-end proxy and static files in `src/http_server.rs`; the text sent to a client is the device's data before invalid UTF-8 is replaced.
- Operating-system versions are numbers; their packing and display are not modelled. WebSocket addresses in page notices are left out, being determined by the port and the page number.
- Serial numbers in usbmuxd messages are texts whose bytes are their characters; the source slices bytes, which agrees for ASCII.
- The regular-expression engine: the one pattern is a grammar with captures and the leftmost-first preference between derivations. A line is a sequence of bytes, so positions are byte positions; the pattern's classes hold only ASCII characters.
- `add_file` of the port configuration, the XML text of the request to listen (a parameter), and reconnecting to usbmuxd.
- DeviceListener.DeviceListenerParser.OnRecv: requires that no packet in the received bytes declares the length zero, because the source's loop does not end otherwise; `LoopEndsIff` is the exact condition.
- WebInspectorLaws.StreamRoundTrip: messages sent in one packet are assumed to fit the reader's body limit, because a longer one is refused by `parse_length`.
