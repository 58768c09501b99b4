# Verification of the warthog mesh firmware's protocol core

A Dafny model of the parts of the firmware that are hard to get right, with proofs. Run
`dafny verify dfyconfig.toml` here to check it.

**The BATMAN_V member engine** (`main/bat/`):

- `TtClients`, `TtRows`, `TtLocal`, `TtSync`: the translation table. A sender's clients are
  announced by versioned diffs; a receiver keeps one fixed table of rows for all originators.
  Over any run a receiver that is in sync stays so, and the row table keeps its invariants.
  `TtLoss` says what a diff makes of rows that are not what it starts from.
- `FragSplit`, `FragAssembly`, `FragSlots`: fragmentation, from the split through three
  reassembly slots back to the packet.
- `Tables`: originators, candidates, routers, neighbours and reference counts, linked across
  every operation that edits them. `Owners` joins them to the client rows and fragment slots.
- `UnicastChain`: every chain of transmissions one packet causes ends, whatever the routes.
  `UnicastSends` says when each goes out, to whom, and what it holds byte by byte.
- `BcastWindow`, `BcastCopies`: the duplicate window and the paced copies of broadcasts.
- `OgmFlood`, `OgmAgg`, `LinkEwma`: sequence rule, forwarding and metric of the OGM flood;
  aggregated records byte by byte; the link estimate.
- `Crc32c`, `SeqMargin`, `SeqKeep`, `SeqRuns`: the check, the record that carries sequence
  numbers over a reset, and what any run of resets leaves a peer to compare. `Serials` ties the
  32-bit words to unbounded numbers.
- `Paging`: listings rendered in pages with a cursor, up to the AT command's loop.

**Two concurrent protocols**, as state machines over every step that is atomic in the source
and every interleaving of them: `UsbQueue` (`main/usbnet_core.c`) and `RenderHandoff`
(`main/bat_port.c`).

**Two addressing machines**, as properties of every input trace: `Bat0` (`main/bat_mode.c`) and
`MeshAddr` (`main/mesh_addr.c`), with `Backoff` for what they share. `Words` and `Counting` hold
32-bit modular arithmetic and finite counting.

Where the source changes state in place the model is a class whose methods are proved against
functions and predicates on values; the properties are lemmas about those. Wrapped counters and
clocks are 32 bits wide and are tied to unbounded ghost numbers and true time. Time, randomness,
the link's answers and, in `UnicastChain`, the contents of all tables are arbitrary inputs.

Five things a reader might expect do not hold of the code; each is stated with the exact condition
under which it does:

- `known` does not mean in sync. A receiver whose rows went with the route takes the next diff and
  is known; it is right exactly when the diff named every client (`TtLoss.KnownIsNotSync`), and it
  may not even notice (`TtLoss.LossIsAsked`, `TtLoss.SilentLoss`).
- Numbers resumed after a reset are not always 256 or 257 past the last one given out, only after
  one start (`SeqRuns.WarmReset`); 256 starts without a number put it out of a peer's reach
  (`SeqRuns.RestartsTooMany`).
- The metric does not keep the order of two throughputs with the default settings
  (`OgmFlood.KeepsOrder`).
- A DHCP attempt can outlast its bound if one step takes about 49 days, since its 32-bit clock
  comes round (`EndsExactly` and `OutlastsItsTime` of `Bat0` and `MeshAddr`).
- The link estimate does not always reach a constant sample: it does exactly from empty or from
  above (`LinkEwma.ReachesSample`).

## Model

| member | source | states |
|---|---|---|
| `TtLocal.Own.constructor` | main/bat/bat_tt.c:358-363 | The engine starts announcing nothing, with its own soft address waiting to be announced. |
| `TtLocal.Own.QueueEvent` | main/bat/bat_tt.c:273-293 | An event meets the opposite one waiting for the same client and both go; else it is appended, and refused only by a full queue. |
| `TtLocal.Own.LocalAdd` | main/bat/bat_tt.c:420-449 | Succeeds exactly when the client is or can become an entry with those flags; the table to be announced next gains exactly it. A full change queue is never the reason for a refusal. |
| `TtLocal.UnicastIs` | main/bat/bat_internal.h:138-141 | The addresses of clients to announce: not zero, and no group's. |
| `TtLocal.Own.LocalDel` | main/bat/bat_tt.c:451-469 | Succeeds exactly for an entry; the table to be announced next loses exactly it. |
| `TtLocal.QueueNeverFull` | main/bat/bat_tt.c:273-293 | Waiting events match the NEW and DEL entries one to one, so the change queue never reaches its capacity. |
| `TtLocal.EventsAreTheDiff` | main/bat/bat_tt.c:365-418 | Applied to the table last announced, the waiting events give the table about to be announced. |
| `TtLocal.Cancels` | main/bat/bat_tt.c:273-293 | For an entry whose event waits, the opposite event always finds it and removes exactly it. |
| `TtLocal.Own.OgmBuild` | main/bat/bat_tt.c:365-418 | A new version exactly when something waits; its container holds the diff to it, the VLAN checks of the table announced, and is repeated unchanged for the re-sends. In the engine's room nothing is ever left out. |
| `TtLocal.Own.Announce` | main/bat/bat_tt.c:384-410 | A commit with its container: left out exactly if the checks do not fit, without the diff exactly if that does not fit with them, or not in the 256 bytes kept for re-sends. |
| `TtLocal.Own.Repeat` | main/bat/bat_tt.c:365-418 | Without a waiting event the last commit's container goes again while re-sends are left; then the checks alone, at the version announced. |
| `TtLocal.CommitFacts` | main/bat/bat_tt.c:365-418 | A commit leaves no event, keeps the clients to be announced, and its events take the old announced table to the new one. |
| `TtLocal.Own.Answer` | main/bat/bat_tt.c:547-573 | The entries of a full answer, applied to an empty table, give the table last announced. |
| `TtLocal.AnswerIsTable` | main/bat/bat_tt.c:547-573 | The same of any list of local entries. |
| `TtLocal.Own.PutVlans` | main/bat/bat_tt.c:296-348 | One VLAN record for each VLAN with an announced client and no other, each with the XOR of its clients' checks. |
| `TtLocal.Own.LocalCrc` | main/bat/bat_tt.c:315-325 | The check of one VLAN of the announced table. |
| `TtRows.RowTable.RowAdd` | main/bat/bat_tt.c:80-105 | An announced add fails only when every row is an announced row and none is that client's at that originator; otherwise that originator's table gains exactly the client, its temporary rows go, and at most the oldest temporary row makes room, if the table was full. |
| `TtRows.RowTable.RowOf` | main/bat/bat_tt.c:80-93 | The client's temporary rows and no others are freed; its announced row at the originator is found exactly when it is announced there. |
| `TtRows.RowTable.MakeRoom` | main/bat/bat_tt.c:94-99 | A full table gives up its oldest temporary row, and nothing else ever does. |
| `TtRows.RowTable.RowNew` | main/bat/bat_tt.c:33-49 | A free slot takes the client and is counted; none is found exactly when all rows are counted. |
| `TtRows.RowTable.TempOldest` | main/bat/bat_tt.c:51-69 | The oldest temporary row, and the exact number of temporary rows. |
| `TtRows.RowTable.RowsDelOrig` | main/bat/bat_tt.c:71-78 | Exactly the originator's rows go. |
| `TtRows.RowTable.OrigCrc` | main/bat/bat_tt.c:107-122 | The XOR over the originator's announced clients of one VLAN, whatever their order in the slots. |
| `TtRows.RowTable.Apply` | main/bat/bat_tt.c:155-183 | The originator's table becomes the changes applied to it, others keep theirs; a failure means every row is an announced row. |
| `TtRows.RowTable.LearnTemp` | main/bat/bat_tt.c:671-712 | An announced client is left alone; a temporary row moves to the originator and keeps its time; a new one takes a place without passing a quarter of the table, at the cost of at most the oldest temporary row. |
| `TtRows.RowTable.TempRoom` | main/bat/bat_tt.c:702-705 | At the cap, or in a full table, the oldest temporary row goes before a new one comes. |
| `TtRows.RowTable.PurgeTemps` | main/bat/bat_tt.c:647-661 | Exactly the temporary rows past their time go. |
| `TtRows.PutSound` | main/bat/bat_tt.c:14-105 | A row that clashes with no other keeps the table sound: one row per client, VLAN and originator, and a temporary row alone for its client and VLAN. |
| `TtRows.PutAnnounced` | main/bat/bat_tt.c:14-105 | What every originator announces after one slot is rewritten. |
| `TtRows.EntriesAll` | main/bat/bat_tt.c:107-122 | The slots scanned for a check are exactly the clients announced in that VLAN. |
| `TtClients.XorInsert` | main/bat/bat_tt.c:107-122 | The XOR of checks over a set of clients does not depend on the order they are taken in. |
| `TtClients.BatCrc32cTt` | main/bat/bat_crc32c.c:15-20 | The check of one client over its own nine-byte buffer. |
| `TtClients.CheckedBytes` | main/bat/bat_crc32c.c:15-20 | It is the register over any nine bytes of which the first two read as the VLAN id, high byte first, the third is the high half of the flags, and the last six are the address. |
| `TtClients.KnownChecks` | main/bat/bat_crc32c.c:15-20 | Three checks by value: the default soft address, a client of VLAN 1, and an isolated one whose low flags do not count. |
| `TtClients.LastDecides` | main/bat/bat_tt.c:155-183 | Of a list of change records the last that concerns a client decides: with those flags it is announced, or it is gone; records of the zero address concern nobody, nor in a full answer do departures and roaming clients. |
| `TtSync.Remote.CrcCheck` | main/bat/bat_tt.c:125-153 | Passes exactly when every announced VLAN has rows with that check and no announced row lies outside them; so it passes for a copy equal to the table described. |
| `TtSync.Remote.OgmRx` | main/bat/bat_tt.c:495-545 | Refuses repeated VLANs; applies the diff to the next version and nothing else, and fails to take it only in a full table; asks for the table exactly when the outcome is missing or fails its check. |
| `TtSync.Remote.Response` | main/bat/bat_tt.c:576-601 | A full answer replaces the copy; a diff is applied to it. |
| `TtSync.Remote.OrigGone` | main/bat/bat_tt.c:639-645 | The rows go and the version stays. |
| `TtSync.OgmKeepsSync` | main/bat/bat_tt.c:495-545 | A copy in sync with version v is in sync with v or v + 1 after a real OGM of either, and asks for nothing. |
| `TtSync.AnswerSyncs` | main/bat/bat_tt.c:576-601 | Whatever the receiver held, a full-table answer of version v puts it in sync with v. |
| `TtSync.StaysInSync` | main/bat/bat_tt.c:365-601 | Over any run of OGMs, re-sends and answers, none more than a turn of the version byte ahead, a receiver once in sync stays in sync with the version they add up to, and asks for nothing at a version it holds or a diff to the next one. |
| `TtSync.DiffIsNext` | main/bat/bat_tt.c:514-531 | Within a turn of the version byte the diff test and the same-version test mean what they say of true version numbers. |
| `TtLoss.DiffSyncs` | main/bat/bat_tt.c:518-531 | A genuine diff taken with room gives the owner's table exactly when the rows agreed with the version before it on every client the diff does not name. |
| `TtLoss.SameDiff` | main/bat/bat_tt.c:155-183 | One list of changes makes two tables equal exactly when they agree on every client it does not name. |
| `TtLoss.KnownIsNotSync` | main/bat/bat_tt.c:518-526 | A receiver in sync that loses its rows with the route takes the next diff and is marked known; it is in sync exactly when the diff named every client, and lacks exactly those it did not name. |
| `TtLoss.LossPasses` | main/bat/bat_tt.c:125-153 | The checks of a table with clients missing are right exactly when the CRCs of those missing cancel out in every VLAN. |
| `TtLoss.LossIsAsked` | main/bat/bat_tt.c:125-153 | So the receiver asks after the loss exactly when they do not cancel out, or a VLAN is left without a row. |
| `TtLoss.OneLost` | main/bat/bat_tt.c:125-153 | One missing client passes exactly when its own CRC is 0. |
| `TtLoss.SilentLoss` | main/bat/bat_tt.c:518-526 | Such a client exists: with it there is a run from in sync, over the lost route, to a wrong table marked known, and no such run asks or ends otherwise. |
| `Tables.Tables.constructor` | main/bat/bat_core.c:89-96 | The empty tables are linked. |
| `Tables.Tables.RoutedHasNextHop` | main/bat/bat_core.c:423-430 | An originator has a router exactly when it has a next hop. |
| `Tables.Tables.CandGet` | main/bat/bat_orig.c:133-170 | Never fails: it finds the neighbour's candidate, or puts a new one in a free place or that of the least recently heard candidate that is no router; all links and counts kept. |
| `Tables.RoutersAreTwo` | main/bat/bat_orig.c:133-170 | Two routers cannot be all four candidates. |
| `Tables.Tables.CandFree` | main/bat/bat_orig.c:24-34 | A candidate goes and its neighbour counts exactly one less. |
| `Tables.Tables.OrigFree` | main/bat/bat_orig.c:37-46 | An originator goes with its candidates, its client rows and its fragment slots. |
| `Tables.Tables.WorstRouted` | main/bat/bat_orig.c:59-77 | The originator with the lowest default throughput among those that are no neighbour's own, the longest unheard of several. |
| `Tables.Tables.OrigGet` | main/bat/bat_orig.c:80-121 | Finds the address, or takes a free slot, or displaces exactly an originator that may be displaced; fails only when all slots are used and none may be. |
| `Tables.Tables.Recompute` | main/bat/bat_orig.c:194-217 | Each router becomes the first best candidate valid in its table; a route lost gives up the client rows. |
| `Tables.Tables.Purge` | main/bat/bat_orig.c:219-261 | Exactly the originators and candidates not heard in time go, routers are chosen anew where one went, then exactly the neighbours nobody names; client rows stay with those who keep their routes, fragment slots with those who stay. |
| `Tables.Tables.PurgeCands` | main/bat/bat_orig.c:228-238 | Exactly the stale candidates go. |
| `Tables.Tables.PurgeNeighs` | main/bat/bat_orig.c:248-259 | Neighbours without a candidate go; very old clocks are pulled up so that their age cannot come round. |
| `Tables.Tables.NeighEvict` | main/bat/bat_elp.c:19-40 | Exactly the candidates through the neighbour go, then the neighbour; routers are chosen anew where one went. |
| `Tables.Tables.NeighGet` | main/bat/bat_elp.c:56-88 | Finds the neighbour, or takes a free entry or that of the one silent longest; fails exactly when the address is unknown and every entry was heard within 30 s. |
| `Tables.Tables.NeighRoom` | main/bat/bat_elp.c:42-54 | Says exactly whether that would fail. |
| `Tables.Tables.ElpRx` | main/bat/bat_elp.c:122-155 | An ELP is taken if and only if its originator is another, is known or can be placed, the neighbour table holds its sender or has room, and the number is not one seen. With room, whatever the number, exactly the sender's entry and its candidate for its originator are found or made, and the rest stays but for candidates through a neighbour that gave way; a second copy refreshes nothing. |
| `Tables.Tables.Store` | main/bat/bat_ogm.c:101-153 | The candidate holds what it was told for that table, nothing else of it changes, and it becomes the router exactly when the one there is invalid, five numbers behind, or slower. |
| `Tables.Tables.OgmRecord` | main/bat/bat_ogm.c:224-266 | One record of a known neighbour finds a place if and only if its originator is known, a slot is free, or one may be displaced; its candidate then holds what each table took, each table's route switches to it exactly when the one there is invalid, five numbers behind, or slower, and nothing else of any originator changes. |
| `Tables.HoldersUpdate` | main/bat/bat_orig.c:24-34 | The set behind a reference count after one originator is rewritten. |
| `Tables.CandCounted` | main/bat/bat_orig.c:24-34 | A candidate added or dropped with its neighbour's count keeps every count exact. |
| `Owners.Engine.OwnersUsed` | main/bat/bat_orig.c:36-46 | Every client row and every fragment slot in use names an originator in use. |
| `Owners.Engine.Settle` | main/bat/bat_tt.c:639-645 | Exactly the rows of the originators the tables gave up go, and their fragment slots; every other row, slot and announced table is as it was, and every used row and slot names an originator in use again. |
| `Owners.Engine.Free` | main/bat/bat_orig.c:36-46 | An originator freed takes exactly its rows and slots with it; every other announces what it did. |
| `Owners.Engine.Purge` | main/bat/bat_orig.c:219-261 | The purge empties exactly the rows of originators gone or cut off, the slots of those gone, and rows and slots past their time; every other originator announces what it did. |
| `Owners.Engine.ElpRx` | main/bat/bat_elp.c:122-155 | The same with its exact condition, in the joined engine: exactly the rows of the originators displaced or cut off go, and the slots of those displaced; every other announces what it did. |
| `Owners.Engine.OgmRecord` | main/bat/bat_ogm.c:224-266 | An OGM record likewise, with its exact condition and what it leaves of its originator. |
| `Owners.Engine.Apply` | main/bat/bat_tt.c:155-183 | Changes from an originator in use alter its table only, as applied; a failure leaves no room in the row table. |
| `Owners.Engine.TtOrigGone` | main/bat/bat_tt.c:639-645 | With the originator staying, exactly its rows go and it announces nothing; every other announces what it did. |
| `Owners.Engine.FullAnswer` | main/bat/bat_tt.c:576-601 | A full-table answer makes its originator announce exactly what it lists and alters no other table. |
| `Owners.SyncStays` | main/bat/bat_tt.c:80-183 | Over any run of these operations on other originators, a receiver in sync with one that stays is in sync after it. |
| `Owners.Engine.LearnTemp` | main/bat/bat_tt.c:671-712 | A client learned from data gets its row, or keeps or moves the one it has, as the row table alone would do it; no announced table changes. |
| `Owners.Engine.FragRx` | main/bat/bat_frag.c:124-208 | A fragment does to the slots what the receiver alone does, or is refused for the same reasons; every slot still names an originator in use. |
| `FragSplit.EqualSplit` | main/bat/bat_frag.c:29-38 | Rounding up twice leaves no empty piece and none too long, for any positive room. |
| `FragSplit.SplitAt` | main/bat/bat_frag.c:47-59 | Every piece is a non-empty range of the packet, cut from the tail, and fits the link. |
| `FragSplit.FragTx` | main/bat/bat_frag.c:26-66 | The fragments sent are the pieces, numbered from the tail; more than 16, or a packet over 65535 bytes, is dropped; the answer is the link's first failure. |
| `FragAssembly.AnyOrder` | main/bat/bat_frag.c:124-208 | Pieces in any order with any repetitions bring out the packet with the last missing one, and nothing before. |
| `FragAssembly.RoundTrip` | main/bat/bat_frag.c:26-208 | The sender's pieces, each at least once in any order, give back exactly the packet. |
| `FragAssembly.SentInTurn` | main/bat/bat_frag.c:26-208 | So do the pieces of any packet that needs at most 16, as they are sent. |
| `FragAssembly.PartOfPacket` | main/bat/bat_frag.c:124-208 | Some but not all pieces make less than the packet, all of them joined are it. |
| `FragSlots.StoreAddsPiece` | main/bat/bat_frag.c:197-205 | A new piece goes behind the others: the pieces still tile the bytes held, and those held before are unchanged. |
| `FragSlots.Reassembly.SlotGet` | main/bat/bat_frag.c:77-104 | The packet's own slot; else a free one, the oldest of the same originator, or another's idle for over a second; none exactly when all hold live packets of others. |
| `FragSlots.Reassembly.Reassemble` | main/bat/bat_frag.c:106-121 | The joined pieces, highest number first; the slot is empty after. |
| `FragSlots.Reassembly.Rx` | main/bat/bat_frag.c:160-207 | Any fragment at all leaves the three slots sound (pieces tile what is held, less than the total, at most 2048) and does to its slot what the value-level receiver does; a new piece stamps the slot with the time, a second copy does not. |
| `FragSlots.Reassembly.Purge` | main/bat/bat_frag.c:210-219 | Exactly the packets without a fragment for 10 s are given up. |
| `FragSlots.Reassembly.OrigGone` | main/bat/bat_frag.c:221-229 | Exactly the originator's packets are given up. |
| `FragSlots.Interleaved` | main/bat/bat_frag.c:124-229 | Among any other fragments, purges and departures of originators, a packet whose slot is not taken sees its own fragments only. |
| `FragSlots.DeliveredWhole` | main/bat/bat_frag.c:26-229 | End to end and over real time: among any other fragments, purges and departures that leave its slot alone, a packet comes out once and whole when its last piece lands, and its slot is free again. |
| `FragSlots.InTimeIsKept` | main/bat/bat_frag.c:77-219 | Over true time: within a second of a packet's last new piece no other originator's fragment takes its slot, and within ten no purge gives it up. |
| `FragSlots.DeliveredInTime` | main/bat/bat_frag.c:26-229 | So a packet split by its sender comes out once and whole with the last missing piece, in any order and with repetitions, from conditions on the traffic and its timing alone. |
| `FragSlots.GivenUp` | main/bat/bat_frag.c:210-219 | A purge gives a packet up exactly when over ten seconds of true time passed since its last new piece. |
| `UnicastChain.Falls` | main/bat/bat_core.c:189-255 | Every transmission a received frame causes is below it in (requests to answer, TTL of the packet, TTL of the fragment), fits the link, and there are at most 16. |
| `UnicastChain.ChainEnds` | main/bat/bat_core.c:189-255 | A chain of transmissions, each caused by the one before at any node in any state, is no longer than the first frame's measure. |
| `UnicastChain.ChainBounds` | main/bat/bat_core.c:189-255 | So at most 131072 frames from any frame, and 5202 from one with the TTLs nodes here start with. |
| `UnicastChain.UnicastFollows` | main/bat/bat_unicast.c:62-116 | A client packet is relayed or re-routed one TTL lower, or not sent on. |
| `UnicastChain.IcmpFollows` | main/bat/bat_icmp.c:22-64 | An echo request is turned around once, never again; anything else is relayed one TTL lower. |
| `UnicastChain.UtvlvFollows` | main/bat/bat_utvlv.c:19-54 | A table request is answered once by a packet that holds no request. |
| `UnicastChain.AnswerAsksNothing` | main/bat/bat_tt.c:547-573 | The answer's bytes, walked as a receiver walks them, hold no request. |
| `UnicastChain.SendFollows` | main/bat/bat_unicast.c:9-21 | Sent whole or in pieces, every frame carries the packet and fits the link. |
| `UnicastChain.TtlKeepsStage` | main/bat/bat_unicast.c:24-39 | Lowering the TTL changes nothing a receiver would answer. |
| `UnicastChain.BatRelay` | main/bat/bat_unicast.c:24-39 | The relay on the frame buffer sends what the value-level relay sends. |
| `UnicastChain.UnicastRx` | main/bat/bat_unicast.c:62-116 | Re-routing in the frame buffer: destination and version rewritten, then relayed. |
| `UnicastChain.SendBackRx` | main/bat/bat_icmp.c:5-20 | The packet turned around in place, as `UnicastSends.BackSends` says of its bytes. |
| `UnicastChain.IcmpRx` | main/bat/bat_icmp.c:22-64 | Route record extended in place, then answered, dropped or relayed. |
| `UnicastChain.UtvlvRx` | main/bat/bat_utvlv.c:19-54 | The container walk finds a request exactly when the bytes hold one. |
| `UnicastChain.RxDispatch` | main/bat/bat_core.c:189-255 | Every unicast-family packet goes to its own handler; a fragment inside a fragment is refused. |
| `UnicastSends.RelaySends` | main/bat/bat_unicast.c:24-39 | A packet is relayed if and only if its TTL is 2 or more, its destination is known and routed, and it needs at most 16 pieces; then toward its destination with its TTL one lower and every other byte as it was. |
| `UnicastSends.SendCarries` | main/bat/bat_unicast.c:9-21 | What is sent is the packet itself, or this node's pieces of it, numbered from the tail, that a receiver joins to it again. |
| `UnicastSends.UnicastSends` | main/bat/bat_unicast.c:62-116 | A client packet for others is relayed; one for this node is sent on exactly if it holds a single client that is not ours, its sender knew a table of ours 1 to 127 versions older, and the tables name an originator: to that one, with its version, every other byte as it was. |
| `UnicastSends.BackSends` | main/bat/bat_icmp.c:5-20 | An answer goes out if and only if the originator of the packet is known and has a route: addressed to it, from this node, with a fresh TTL, its type set and every other byte as it was. |
| `UnicastSends.IcmpSends` | main/bat/bat_icmp.c:22-64 | This node's address is entered in the next place of a route record; then a request to it draws a reply, a request at its last hop "TTL exceeded", and anything else for others is relayed. |
| `UnicastSends.AsksOf` | main/bat/bat_codec.c:4-20 | For every row of containers laid end to end, the walk meets a table request exactly if one of them is one. |
| `UnicastSends.EveryArea` | main/bat/bat_codec.c:4-20 | Every area of bytes is such a row, and a rest that is no container. |
| `UnicastSends.UtvlvSends` | main/bat/bat_utvlv.c:19-54 | A packet of containers for this node draws the answer if and only if one of them is a request, its source is known and routed, and was not just answered: to the source, from this node, one container with the version and the whole table. |
| `UnicastSends.DispatchSends` | main/bat/bat_core.c:189-255 | Every packet received is handled so, by its type. |
| `UnicastSends.PieceSends` | main/bat/bat_frag.c:124-208 | A piece for others goes on with its TTL one lower and otherwise untouched, exactly if its originator and destination are known, it is routed and fits; the last piece for this node is handled as the packet received whole. |
| `UnicastSends.RequestIsAnswered` | main/bat/bat_tt.c:217-246 | Between two nodes: the request one sends makes the other send its full table back to it. |
| `UnicastSends.EchoIsAnswered` | main/bat/bat_icmp.c:22-64 | And an echo request is answered to whom it came from. |
| `UsbQueue.EveryRun` | main/usbnet_core.c:12-145 | In every interleaving: frames leave in the order accepted, every finished call is sent, queued or in a drop counter, at most one kick is queued, no wakeup is lost, every buffer is in one place. |
| `UsbQueue.HeadIsLive` | main/usbnet_core.c:61-104 | The frame handed to the class outside the lock is the oldest waiting, in a live buffer. |
| `UsbQueue.FreedOnce` | main/usbnet_core.c:49-80 | A buffer about to be freed is live and nobody else's. |
| `UsbQueue.NothingLeaks` | main/usbnet_core.c:12-145 | With every task at rest and the queue empty no buffer is left. |
| `UsbQueue.WakeupComes` | main/usbnet_core.c:45-57 | Frames waiting for a resting consumer that has not met a full class: a kick is queued or its poster can post it. |
| `UsbQueue.KickKept` | main/usbnet_core.c:45-57 | Every step keeps the kick flag equal to one kick queued or one task about to queue it. |
| `UsbQueue.OwnedKept` | main/usbnet_core.c:12-145 | Every step keeps every buffer in exactly one place. |
| `UsbQueue.CallBegins` | main/usbnet_core.c:12-28 | A good frame over a link that is up meets a full queue and is dropped, or is copied; a bad one, or one with the link down, is not copied. |
| `UsbQueue.CallEnds` | main/usbnet_core.c:29-57 | Whatever ran between the regions: a copy joins the queue's end exactly if there is one and fewer than 16 wait, and else exactly the counter of the cause moves and the copy is freed. |
| `UsbQueue.LeavesAsJudged` | main/usbnet_core.c:61-104 | In every interleaving the frame that leaves is the oldest waiting, and it goes into the class exactly if the class was just found ready with room; one is dropped only by a class not ready or by a flush, and a flush asks no class. |
| `UsbQueue.RestsAsJudged` | main/usbnet_core.c:82-104 | The task rests on a class without room exactly if it just met one. |
| `UsbQueue.PumpTakes` | main/usbnet_core.c:82-145 | Undisturbed, the pump goes through the queue in order: a class ready with room takes every frame, one not ready or a flush drops every frame. |
| `UsbQueue.PumpStops` | main/usbnet_core.c:82-104 | It ends at an empty queue, or at a class without room with the frame still at the head. |
| `UsbQueue.UsbNet.Enqueue` | main/usbnet_core.c:29-48 | Queued if and only if the frame is good, the link up, a copy made and fewer than 16 wait: then at the end of the queue, with a kick exactly if none is pending. Otherwise the queue stays and exactly the counter of its cause moves. The ring's wrapped fields follow. |
| `UsbQueue.UsbNet.PopHead` | main/usbnet_core.c:62-80 | The head leaves the ring, counted as sent or dropped. |
| `UsbQueue.UsbNet.CheckFull` | main/usbnet_core.c:16-22 | The first locked region counts a full queue, of 16, before any copy is made, and changes nothing else. |
| `UsbQueue.UsbNet.Peek` | main/usbnet_core.c:86-92 | The head is read and left in place. |
| `UsbQueue.UsbNet.TakeKick` | main/usbnet_core.c:106-113 | The kick is taken as the step does; the queue stays. |
| `RenderHandoff.InvKept` | main/bat_port.c:316-357 | Every step of every task keeps: slots whole, the lock in one place, one caller inside, nothing lost. |
| `RenderHandoff.NothingFails` | main/bat_port.c:224-233 | In every interleaving with any timeouts the lock is given back once for each time it was taken, abandoned requests included; no send into a queue and no give of a semaphore ever fails; one render at most is outstanding. |
| `RenderHandoff.RoomToSend` | main/bat_port.c:259-268 | Whoever sends into the 11-entry work queue finds room. |
| `RenderHandoff.WritesAlone` | main/bat_port.c:316-337 | While the engine writes the buffer every AT task is outside, waiting, or deciding to leave. |
| `RenderHandoff.ReadsItsAnswer` | main/bat_port.c:672-720 | A reader has the answer to its own request, and no step but its own changes it before it is done. |
| `RenderHandoff.TextStays` | main/bat_port.c:672-720 | The same for any state that keeps the invariants. |
| `RenderHandoff.EngineAdvances` | main/bat_port.c:340-357 | Each engine step leaves fewer to do. |
| `RenderHandoff.EngineOwesNothing` | main/bat_port.c:316-337 | The engine can always go on, and once it has nothing left every abandoned lock is back and every waiting caller has its answer. |
| `RenderHandoff.LastWaitIsShort` | main/bat_port.c:695-708 | The wait without a timeout is for an answer the engine gives next. |
| `RenderHandoff.GiveSlotKeepsSlots` | main/bat_port.c:340-352 | A slot given back always finds room in its free queue. |
| `RenderHandoff.Port.WriteText` | main/bat_port.c:316-331 | The engine writes the text and moves the shared cursor. |
| `RenderHandoff.Port.GiveBack` | main/bat_port.c:335-337 | The engine gives the lock of an abandoned request, else done; neither is there already. |
| `RenderHandoff.Port.ConcludeRender` | main/bat_port.c:330-334 | The engine's critical section: a pending request is done, an abandoned one idle. |
| `RenderHandoff.Port.DecideExpired` | main/bat_port.c:696-705 | The caller's critical section: only a pending request is abandoned. |
| `RenderHandoff.Port.EndRequest` | main/bat_port.c:714-718 | The request ends idle and the lock is given, not being there already. |
| `BcastWindow.Window.Judge` | main/bat/bat_bcast.c:7-31 | A duplicate is exactly a number accepted since the last restart and inside the window; every fresh number above top - 64 and below top + 65536 is accepted; a jump starts over unless the last restart was under 30 s ago: of true time, and exactly then, as long as the stamp is of this turn of the clock. |
| `BcastWindow.Window.Record` | main/bat/bat_bcast.c:19-31 | Bit i stands for the number i below the newest after every accepted number. |
| `BcastWindow.Window.Purge` | main/bat/bat_orig.c:245-247 | The restart stamp is dropped exactly when over 60 s old by the clock, so that one purge a turn keeps it from looking young again; the history stays. |
| `BcastWindow.MirrorLate` | main/bat/bat_bcast.c:19-31 | A late number sets its own bit. |
| `BcastWindow.MirrorShift` | main/bat/bat_bcast.c:19-31 | A newer one shifts the history up to it. |
| `BcastWindow.MirrorAhead` | main/bat/bat_bcast.c:19-31 | One far ahead, or the first after a restart, has nothing below it. |
| `BcastWindow.LatelyWraps` | main/bat/bat_bcast.c:7-18 | A 32-bit clock never takes a restart of the last 30 s for an older one. |
| `BcastCopies.Pacer.Flood` | main/bat/bat_bcast.c:83-103 | A broadcast is refused exactly when the queue refuses it; else it waits, and its first copy goes at once when nothing waits and the spacing is kept. |
| `BcastCopies.Pacer.Tick` | main/bat/bat_bcast.c:105-117 | Exactly one copy goes if one waits and none is held back, none within 5 ms of the last group frame the link took, and its time is kept. |
| `BcastCopies.Pacer.NextCopy` | main/bat/bat_bcast.c:39-50 | The slot scan finds the waiting broadcast with most copies left, the oldest of several. |
| `BcastCopies.Pacer.SlotGet` | main/bat/bat_bcast.c:53-70 | The slot given up is the oldest broadcast's; refused exactly when none of the four has had a copy sent. |
| `BcastCopies.Pacer.SendCopy` | main/bat/bat_bcast.c:73-80 | A copy is spent whether the link takes it or not. |
| `BcastCopies.Pacer.CopiesConserved` | main/bat/bat_bcast.c:73-103 | Broadcasts taken times the copies each is due equal the copies handed to the link, those waiting and those given up. |
| `BcastCopies.Pacer.GroupSent` | main/bat/bat_core.c:370-384 | The time of the last group frame the link took moves with each one it takes, and only then. |
| `BcastCopies.Pacer.NotHeldIsSpaced` | main/bat/bat_core.c:311-314 | A group frame that is not held is 5 ms of true time past the last. |
| `BcastCopies.Pacer.HeldIs` | main/bat/bat_core.c:311-314 | A group frame is held back exactly while under 5 ms of true time have passed since the last one the link took, within a turn of the clock. |
| `BcastCopies.SendConserves` | main/bat/bat_bcast.c:73-80 | Broadcasts taken times copies stay equal to copies handed over, waiting and given up. |
| `BcastCopies.ArriveConserves` | main/bat/bat_bcast.c:83-103 | The same when a broadcast arrives. |
| `BcastCopies.SendKeepsOrder` | main/bat/bat_bcast.c:33-80 | An older broadcast never has more copies left than a younger one, and first copies leave in arrival order. |
| `BcastCopies.FirstCopiesInOrder` | main/bat/bat_bcast.c:39-50 | The next first copy is that of the oldest broadcast without one. |
| `BcastCopies.ReclaimedWasSent` | main/bat/bat_bcast.c:53-70 | A broadcast whose other copies are given up was sent at least once. |
| `BcastCopies.RefusalMeansAllUnsent` | main/bat/bat_bcast.c:53-70 | A refused broadcast finds four others of which no copy has left. |
| `BcastCopies.OlderIsEarlier` | main/bat/bat_bcast.c:33-37 | The order counter may wrap: of waiting broadcasts, older means earlier. |
| `OgmFlood.Numbers.TableUpdate` | main/bat/bat_ogm.c:118-153 | The same number again and any newer one within 65536 are taken; a slightly older one is not; a jump starts over unless the last restart was under 30 s ago, and does start over if it was 30 s or more, up to a turn of the clock, or there was none. |
| `OgmFlood.Numbers.Purge` | main/bat/bat_orig.c:239-244 | The restart stamp of a table likewise. |
| `OgmFlood.Numbers.Forward` | main/bat/bat_ogm.c:183-214 | A record of the router goes on if and only if its number is not the last considered, it has hops left, something to claim and fits; the TTL falls by one, and between restarts the numbers sent on strictly increase. |
| `OgmFlood.Numbers.Hear` | main/bat/bat_ogm.c:224-266 | A record heard goes on if and only if it claims something, is not suppressed, its number is taken, its sender is the router, the number is not the last considered, and it may be sent; then it is one hop from what came in. |
| `OgmFlood.NoRise` | main/bat/bat_ogm.c:216-222 | Along any path the claim never exceeds an estimate behind it, and strictly falls at a hop with a penalty. |
| `OgmFlood.TtlFalls` | main/bat/bat_ogm.c:191-211 | A record that set out with TTL 50 is sent on 49 times at most. |
| `OgmFlood.HalfDuplexHalves` | main/bat/bat_ogm.c:216-222 | After h half-duplex hops the claim is at most the default of 10, or the 2^h-th part of what set out. |
| `OgmFlood.KeepsOrder` | main/bat/bat_ogm.c:216-222 | The metric keeps the order of throughputs exactly when half-duplex is off or the penalty is over 102. |
| `OgmFlood.Penalised` | main/bat/bat_ogm.c:221-221 | The penalty never raises a throughput, and lowers every positive one unless it is zero. |
| `LinkEwma.Link.Mixed` | main/bat/bat_elp.c:113-119 | The accumulator stays between the least and greatest sample since it was last empty, and nothing overflows 64 bits. |
| `LinkEwma.Link.Tput` | main/bat/bat_elp.c:4-7 | So does the reading. |
| `LinkEwma.Converges` | main/bat/bat_elp.c:113-119 | Under a constant sample the gap never widens, and what exceeds 7/1024 of a unit falls to at most (7/8)^n of itself. |
| `LinkEwma.Settled` | main/bat/bat_elp.c:4-7 | From then on the reading is the sample or one unit under it. |
| `LinkEwma.ReachesSample` | main/bat/bat_elp.c:113-119 | The reading gets to a constant sample exactly when the accumulator is empty or at least the sample; then with one sample, or with as many as the gap has units. |
| `LinkEwma.ClosesFromAbove` | main/bat/bat_elp.c:113-119 | From above the gap closes wholly, by an eighth and at least one unit with each sample. |
| `LinkEwma.StaysBelow` | main/bat/bat_elp.c:113-119 | From below the reading stays under the sample for ever. |
| `LinkEwma.SettledWhere` | main/bat/bat_elp.c:113-119 | After n samples with 7^n times the gap under 8^n it is at the sample from above, one unit under it from below, for good. |
| `LinkEwma.SevenUnderStays` | main/bat/bat_elp.c:113-119 | An accumulator seven units under the sample never moves. |
| `OgmAgg.OwnReadsBack` | main/bat/bat_ogm.c:43-71 | An own record's bytes read back as its number, originator, TTL, throughput and containers. |
| `OgmAgg.OnwardReadsBack` | main/bat/bat_ogm.c:183-214 | A record sent on differs in its TTL and throughput only. |
| `OgmAgg.RoundTrip` | main/bat/bat_ogm.c:268-288 | Records laid end to end are taken apart into exactly those records, with no bad record and no overrun. |
| `OgmAgg.ParsedIsPrefix` | main/bat/bat_ogm.c:268-288 | From any frame the records taken are its beginning, and a clean walk leaves less than a header. |
| `OgmAgg.OgmRx` | main/bat/bat_ogm.c:268-288 | The receiver's loop takes exactly those records and ends the same way. |
| `OgmAgg.Queue.Add` | main/bat/bat_ogm.c:21-41 | A record joins the waiting ones, after a flush if it would pass the cap; only one over the buffer is refused. |
| `OgmAgg.Queue.Flush` | main/bat/bat_ogm.c:11-19 | The frame is the waiting records end to end; none waits after. |
| `OgmAgg.Queue.FramesPart` | main/bat/bat_ogm.c:11-41 | Every frame handed over is taken apart into the records queued since the last one, all records in order; two or more keep to min(MTU, 512). |
| `Crc32c.BatCrc32c` | main/bat/bat_crc32c.c:4-13 | The masked bit loop computes the CRC-32C register step (section 12.1 of RFC 3720, no final xor). |
| `Crc32c.CheckDigits` | main/bat/bat_crc32c.c:4-13 | The nine digits make 0x58E3FA20 from an empty register. |
| `Crc32c.CrcInjective` | main/bat/bat_crc32c.c:4-13 | Different registers stay different whatever common bytes follow. |
| `Crc32c.OneWordDiffers` | main/bat/bat_core.c:48-55 | Messages that differ in exactly one 32-bit word have different checks. |
| `SeqKeep.Record.Note` | main/bat/bat_core.c:71-87 | The record after each of its seven writes. |
| `SeqKeep.TornIsRejected` | main/bat/bat_core.c:63-69 | A note that takes one number, torn anywhere, leaves the old record or one that is rejected. |
| `SeqKeep.CounterChangesCrc` | main/bat/bat_core.c:48-55 | Taking a number of any counter changes the check. |
| `SeqKeep.TornStartIsRejected` | main/bat/bat_core.c:118-129 | So does the note of a start, which moves all three counters by 256 at once. |
| `SeqMargin.MarginChangesCheck` | main/bat/bat_core.c:48-55 | The first, the first two or all three counter words 256 further on always change the CRC, though three words differ: the differences are few and none cancels. |
| `SeqRuns.InvKept` | main/bat/bat_core.c:71-129 | Every start, number given out and reset at any word of a note keeps: an intact record names the next numbers, each 256 past the last one given out for every start since, or one more. |
| `SeqRuns.WarmReset` | main/bat/bat_core.c:118-129 | After any run from any memory content, the next number of a counter lies 256 past the last one it gave out for each start completed since, or one more: 256 or 257 exactly when there was one start. |
| `SeqRuns.PeerTakesResumed` | main/bat/bat_bcast.c:7-18 | A peer that has fallen lag numbers behind reads that number off the air and takes it as new, and not as a restart, exactly when it lies under 65536 past its own newest: lag and 256 for each start decide. |
| `SeqRuns.TooManyStarts` | main/bat/bat_core.c:118-129 | Whatever the run, after 256 or more starts without a number no peer, however little behind, takes the next one as new. |
| `SeqRuns.RestartsTooMany` | main/bat/bat_core.c:118-129 | 256 resets with no number given out between are a run the code allows, and take the next number out of every peer's reach. |
| `SeqRuns.NextIsNamed` | main/bat/bat_core.c:71-87 | The word the record names is the 32-bit word of the unbounded number. |
| `SeqRuns.Engine.Init` | main/bat/bat_core.c:108-129 | A start over any memory content resumes or draws, and its note passes through exactly the records a reset can find. |
| `SeqRuns.Engine.Give` | main/bat/bat_core.c:71-87 | One number and its note, likewise. |
| `Serials.ValueOfWord` | main/bat/bat_core.c:71-87 | A word incremented k times from 0 reads as k modulo 2^32. |
| `Serials.WordPast256` | main/bat/bat_core.c:118-129 | 256 increments are the margin added at once. |
| `Paging.Writer.Put` | main/bat/bat_render.c:8-38 | An entry written piece by piece is kept whole or not at all; the first one missing is where the next page starts. |
| `Paging.RenderSlots` | main/bat/bat_render.c:70-92 | A listing with one entry a slot, resumed at any cursor, offers exactly the entries at or past it. |
| `Paging.RenderGlobal` | main/bat/bat_tt.c:797-844 | So does the nested walk over originators, phases and rows with its computed cursor. |
| `Paging.Render` | main/bat/bat_render.c:253-297 | One page: whole entries up to the limit, then the next cursor, DONE, or the truncation marker for an entry longer than the page. |
| `Paging.Advances` | main/bat/bat_render.c:253-297 | Whatever the state it is rendered from, a page leaves DONE or a cursor further on. |
| `Paging.PagesJoin` | main/bat/bat_render.c:253-297 | If every entry fits, a page and what is left after it are what was left before it. |
| `Paging.PortPagesJoin` | main/bat_port.c:316-331 | The same with the port's own line after the last page or alone. |
| `Paging.PageFits` | main/bat/bat_render.c:253-290 | A page, with the port's line behind it, always leaves the buffer's last byte to the terminating zero. |
| `Paging.PortRender` | main/bat_port.c:316-331 | The port's part of one page. |
| `Paging.CmdBatRender` | main/at.c:3224-3250 | The loop ends whatever happens to the engine meanwhile and never stalls; left alone, it prints the full listing, each entry whole and once. |
| `Backoff.DoubledWait` | main/bat_mode.c:166-174 | The doubling loop gives min(first * 2^n, 600000) without overflow. |
| `Bat0.Machine.Advance` | main/bat_mode.c:198-300 | The machine takes the step the trace lemmas are about, and keeps probing within its candidates. |
| `Bat0.ProbingEnds` | main/bat_mode.c:255-269 | From any probing step the static address is taken within 16, with nothing but probes before it. |
| `Bat0.ProbeAdvances` | main/bat_mode.c:255-269 | Every probing step leaves fewer. |
| `Bat0.StaticIsFree` | main/bat_mode.c:255-269 | The static address taken is the first candidate's that was asked about twice in a row and free both times, every one before it having been found taken; or the ninth's if all eight were. |
| `Bat0.HeldOrLeased` | main/bat_mode.c:198-300 | Between a STATIC and any later PROBE or STATIC there is a LEASED. |
| `Bat0.SourceIs` | main/bat_mode.c:189-300 | The machine knows in every run whether the address it holds is a lost router's lease or a static one. |
| `Bat0.HoldsExactly` | main/bat_mode.c:219-295 | The address is set up again exactly when the interface has none in an attempt that goes on; a lease is taken exactly when there is one; one dropped is asked for anew. |
| `Bat0.RouterLostExactly` | main/bat_mode.c:231-254 | A lease is asked for anew exactly when its router was not found good for 60 s, doubled for each time before, at most 600 s. |
| `Bat0.LevelsAre` | main/bat_mode.c:198-300 | The waits start over when a gateway more or a first route comes, and double with each use. |
| `Bat0.CountersAre` | main/bat_mode.c:198-300 | The counters count the attempts beside an address and the lost routers of the whole run. |
| `Bat0.StartsOnce` | main/bat_mode.c:212-220 | START_DHCP is emitted at most once. |
| `Bat0.StartsExactly` | main/bat_mode.c:210-218 | The start waits for a route, then asks DHCP, or probes if it is off. |
| `Bat0.AttemptEnds` | main/bat_mode.c:182-187 | From the step it starts in, an attempt still running has lasted under 55 s in all, if no step of it is longer than 2^32 - 55000 ms. |
| `Bat0.GoesOnExactly` | main/bat_mode.c:182-187 | An attempt goes on exactly while no lease came, the client runs, and it has lasted under 45 s, or under 55 s with an offer being taken. |
| `Bat0.EndsExactly` | main/bat_mode.c:182-187 | A step is bound to end an attempt exactly when its time is up and the 32-bit clock has not come round to a small number. |
| `Bat0.OutlastsItsTime` | main/bat_mode.c:182-187 | One that is not: 1 ms old, after a step of 2^32 - 1 ms an attempt is 0 ms old. |
| `Bat0.WaitEnds` | main/bat_mode.c:267-281 | With a route and DHCP on, a wait beside the node's address still running has lasted under 600 s in all. |
| `Bat0.RetriesExactly` | main/bat_mode.c:267-281 | DHCP is asked beside the address exactly when there is a route and the wait has lasted 30 s doubled for each attempt since a gateway or route came, at most 600 s. |
| `Bat0.CandidatesDiffer` | main/bat_mode.c:123-131 | The nine candidates of one node are nine addresses in .2 to .253. |
| `Bat0.NextSlot` | main/bat_mode.c:123-131 | The next candidate is the next slot along, from .253 on to .2, and so is the first of the next chip of a batch. |
| `Bat0.BatchDiffers` | main/bat_mode.c:123-131 | 252 chips of one batch ask for 252 addresses. |
| `MeshAddr.Machine.Advance` | main/mesh_addr.c:30-105 | The machine takes the step the trace lemmas are about. |
| `MeshAddr.StartsOnce` | main/mesh_addr.c:39-58 | START_DHCP and STATIC are each emitted at most once, and the first never after the second. |
| `MeshAddr.AddressFollows` | main/mesh_addr.c:30-105 | In every run the interface has no address up to the first, the lease while it lasts, and else the static one: a dropped lease's place is taken at once. |
| `MeshAddr.HoldsExactly` | main/mesh_addr.c:59-101 | The static address is set up again exactly when a lease is dropped or the interface has none in an attempt that goes on. |
| `MeshAddr.CountersAre` | main/mesh_addr.c:30-105 | The counter counts the attempts after the first of the whole run. |
| `MeshAddr.StartsExactly` | main/mesh_addr.c:39-46 | The start waits for a peer, then asks DHCP, or takes the static address if it is off. |
| `MeshAddr.AttemptEnds` | main/mesh_addr.c:83-101 | From the step it starts in, an attempt beside the static address still running has lasted under 44 s in all, however peers come and go, if no step of it is longer than 2^32 - 22000 ms. |
| `MeshAddr.GoesOnExactly` | main/mesh_addr.c:16-101 | An attempt goes on exactly while no lease came, the client runs, and its clock is under 6 s, or 12 s beside the static address, or 10 s more with an offer being taken; a peer that joins starts the clock over once. |
| `MeshAddr.EndsExactly` | main/mesh_addr.c:16-20 | A step is bound to end an attempt exactly when its time is up, the 32-bit clock has not come round to a small number, and no peer joining can start it over short of a whole attempt. |
| `MeshAddr.OutlastsItsTime` | main/mesh_addr.c:16-20 | One that is not: 1 ms old, after a step of 2^32 - 1 ms an attempt is 0 ms old. |
| `MeshAddr.WaitIs` | main/mesh_addr.c:65-82 | Without a peer joining, the next attempt starts exactly when the doubled wait is over. |
| `MeshAddr.WaitEnds` | main/mesh_addr.c:65-82 | With a peer and DHCP on, a wait still running has lasted under 600 s in all. |
| `MeshAddr.RetriesExactly` | main/mesh_addr.c:65-82 | DHCP is asked again exactly when it is on, a peer is there, and one just joined, or did during the first attempt, or the wait has lasted 30 s doubled for each attempt since, at most 600 s. |
| `MeshAddr.JoinedIs` | main/mesh_addr.c:30-82 | A peer that joins during the first attempt is remembered until a lease comes or it is asked. |
| `MeshAddr.JoinIsAsked` | main/mesh_addr.c:65-82 | A peer that joins is asked at once. |
| `Words.SDiffExact` | main/bat/bat_internal.h:146-153 | A signed 32-bit difference of wrapped counters is the true one exactly within its range. |
| `Words.AgeExact` | main/bat/bat_internal.h:146-149 | An age is the true elapsed time exactly while less than one turn has passed. |

## Left out

- UnicastChain.ChainEnds: a fragment carries the packet it was cut from, so fragments of two packets under one originator and sequence number are not mixed; the next hop's address is not modelled, any node may receive a frame.
- UnicastChain.UtvlvRx: the pacing of answers is one arbitrary predicate per source; the second request of one packet is never answered.
- OgmFlood.Numbers.Hear: covers the interface table; the default table has the same rule, and which candidate is the router comes from `Tables`.
- Tables.Tables.OgmRecord: the sequence rule's verdict for each table is an input (it is proved in `OgmFlood`); originators' restart stamps are not in `Tables`.
- BcastCopies.Pacer.Flood: for two or three copies; with one copy a broadcast is handed to the link directly.
- RenderHandoff.Port.WriteText: the answers for bat0 addressing under the port's other lock are left out.
- FragSplit.FragTx: the priority bits of the fragment header and the choice of the packet's number are not modelled.
- Tables.Tables.Purge: originators' restart stamps are cleared in `BcastWindow` and `OgmFlood`.
- UnicastChain.RxDispatch: a unicast frame is taken to be addressed to the node that receives it, as the link-destination check demands.
- Owners.Engine.Settle: rows and slots of a departed originator go after the operation on the tables rather than inside it.
- SeqRuns.WarmReset: a number counts as given out when it is drawn, whether or not a frame with it reached the air.
- TtSync.StaysInSync: events more than one turn of the version byte apart are not ordered; the pacing and backing off of table requests is left out.
- TtLocal.Own.OgmBuild: containers are records, not bytes; a container's length is computed from them.
- TtRows.RowTable.LearnTemp: the checks on the frame's source address before the row table are left out.
- Paging.Render: `bat_render` without a cursor, and a listing kind out of range, are left out; the text of each line is an arbitrary string.
- UsbQueue.EveryRun: ages, high-water marks and the receive side (`usbnet_rx`) are left out.
- Bat0.Machine.Advance: each branch of the source's switch with a wait or a probe is a method of its own.
- Choosing an originator for a client (`bat_tt_resolve`), delivering frames to the soft interface, gateway containers, and the gateway and watch answers of `main/bat_port.c`.
- Counters other than those named, and random jitter of timers.
- `bat_tick`'s order of due work and its returned wait.
- AT command parsing and reply formatting, stored configuration, network and USB drivers, and the host tools.
