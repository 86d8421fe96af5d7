# Five Linux drivers, modelled in Dafny

The project models the five parts of the repository that hold real logic and proves
what they promise. Each driver object is a class (or a method over an array) whose
methods are proved against functions on values; what the driver is for is proved about
those functions, for every input, every run or every interleaving.

* **NAT2.5 bridge** (`rtw_br_ext.c`). `NatSpec` says what the address table means as
  sixteen buckets and as a plain map, `NatRuns` is about whole runs, and `NatTable`
  relinks entries through `next_hash` and `pprev_hash` and refines both. `NatShortcut`
  adds the sender remembered beside the table, and `NatBridge` runs both. `VlanTag`,
  `PppoeRelay` and `DhcpChecksum` edit a frame in an `SkBuff` in place, and `PppoeBytes`
  has the relay tag byte by byte.
* **M_CAN driver** (`m_can_platform.c`). `CanCodec` writes and reads an element,
  `CanLayout` numbers its bits, `CanMessageRam` has the RAM regions, `CanTransmit` the
  transmit protocol as interleaved steps of driver, hardware and interrupt.
* **USB PD port controller** (`fusb302.c`). `PdPort` is one run of the work function as a
  transition (`PdFrame` says what handlers leave alone). `PdMessages` and `PdExits` say
  what messages, timers, resets and the lines make a port do, and `PdExchange` puts two
  ports on one cable. `PdRoleTrial`, `PdHardReset`,
  `PdSourceCaps` and `PdAttach` bound what any run of one port does, and `PdAttained`
  shows a bound to be exact. `PdSystem` is any number of ports that share the static
  variable of the interrupt handler, and `PdRoles` says for which configurations the
  bound of two holds. `PdDriver` has the objects: a `Port` whose handlers
  assign to its fields, and the `Driver` with its port table, to which every bound is
  carried over.
* **Wi-Fi access point** (`rtw_ap.c`, `rtw_xmit.c`). `BeaconElements` and `BeaconTim` edit
  the element list of a beacon, `BeaconPlace` says what that does to the other elements,
  `StationCounters` keeps BSS-wide counters and the HT operation mode, `AclPool` is the
  address list, `BroadcastDrain` buffers and sends group frames.
* **Serial EEPROM** (`rtw_eeprom.c`). `Eeprom` composes the bit-banged bus master with a
  93C46-style device that is stepped on clock edges.

`Common` and `Powers` hold what several modules share.

## Where the code does less than it might seem to

Each of these is proved as a condition that is necessary and sufficient.

* A silent sink is held to two hard resets per attach only while the driver has a single
  port: the flag that remembers an uncounted one is a static variable of the interrupt
  handler (line 795 of `fusb302.c`), so any other port can clear it
  (`PdRoles.TwoExactlyWhen`, with the run in `PdRoles.ThreeAreSent`).
* A sink that hears a hard reset in the run in which its state timer runs out, with VBUS
  still up, starts up again at once instead of waiting for VBUS to go; exactly then
  (`PdExits.HardResetHeard`).
* The receive shortcut of the bridge can serve a client whose entry has been freed,
  because it does not ask whether an entry is remembered (`NatShortcut.GuardDecides`,
  with the run in `NatShortcut.StaleServed`).
* The PPPoE relay tag survives its round trip only on a big-endian host: line 112 of
  `rtw_br_ext.c` adds a length in network order. A little-endian host takes 8 for 2048
  and refuses every frame with less tailroom than that and the tag header; with more it
  sends a frame that does not come back (`PppoeRelay.RoundTrip`,
  `PppoeRelay.LittleEndianFails`).
* The incremental UDP checksum stays valid only for a flags field of zero, because the
  old flags word is never taken off (`DhcpChecksum.ChecksumKeptExactly`, with an input in
  `DhcpChecksum.ReservedBitBreaks`).
* The TIM element reads back wrongly when ids 8 to 15 are set and none of 1 to 7
  (`BeaconTim.DecodesExactly`), and a second update repeats the insertion when an empty
  TIM element stands in front (`BeaconTim.UpdateTwice`, with an input in
  `BeaconTim.TwiceAddsTwo`).
* A first TIM element destroys another element when nothing of three bytes follows SSID
  and rates, as in a list without a parameter set (`BeaconPlace.KeptExactly`, with the
  lists in `BeaconPlace.InsideBreaks`).
* Old contents of a message RAM element show through in FD frames whose length is rounded
  up past a word (`CanCodec.OldDataExactly`).
* Reading zero bytes at an odd EEPROM offset fills 256 bytes (`Eeprom.WindowIsSize`).
* Expiry is judged rightly only in half of the jiffies range (`NatSpec.ExpiredExactly`).
* The transmit protocol needs an event FIFO no smaller than the echo slots
  (`CanTransmit.LossExactly`, with the steps in `CanTransmit.EventDropped`).

## Model

| member | source | states |
|---|---|---|
| `NatSpec.Hash` | Linux_Driver/29_WIFI/rtl8723ds/core/rtw_br_ext.c:329-378 | every address falls into one of the sixteen buckets, whatever its type |
| `NatSpec.HashFolds` | Linux_Driver/29_WIFI/rtl8723ds/core/rtw_br_ext.c:329-378 | changing one byte of an address moves it to another bucket if and only if the byte is one its type folds and one of its low four bits changes |
| `NatSpec.Ipv4Layout` | Linux_Driver/29_WIFI/rtl8723ds/core/rtw_br_ext.c:167-174 | an IPv4 address becomes a key with its type first, the address in bytes 7 to 10 and zeros elsewhere, and only the address chooses the bucket |
| `NatSpec.ExpiredExactly` | Linux_Driver/29_WIFI/rtl8723ds/core/rtw_br_ext.c:147-164 | the wrapped jiffies comparison says "expired" rightly if and only if the entry is younger than the age or its excess over the age lies in the first half of the counter range; in particular always while less than half the range plus the age has passed |
| `NatSpec.FindFirst` | Linux_Driver/29_WIFI/rtl8723ds/core/rtw_br_ext.c:420-423 | a walk that has seen no entry with the address finds the first one, or none at the end of the chain |
| `NatSpec.FindIsMember` | Linux_Driver/29_WIFI/rtl8723ds/core/rtw_br_ext.c:414-485 | a one-bucket search finds an entry exactly when the map has the address, and it is the map's entry |
| `NatSpec.AgeMembers` | Linux_Driver/29_WIFI/rtl8723ds/core/rtw_br_ext.c:642-727 | the entries a sweep leaves in a bucket are exactly the aged forms of the entries that were there |
| `NatSpec.AgeWellFormed` | Linux_Driver/29_WIFI/rtl8723ds/core/rtw_br_ext.c:642-727 | a sweep keeps every use count positive, every entry in its own bucket and every address unique |
| `NatSpec.PassFate` | Linux_Driver/29_WIFI/rtl8723ds/core/rtw_br_ext.c:642-727 | one pass leaves what has not expired as it is, takes one use from what has, and drops exactly what was on its last use; nothing new appears |
| `NatSpec.InsertSets` | Linux_Driver/29_WIFI/rtl8723ds/core/rtw_br_ext.c:488-523 | an insert gives a known address the new MAC and time with its uses kept, a new one starts with one use if memory can be had, and no other address is touched |
| `NatSpec.LookupAndTouch` | Linux_Driver/29_WIFI/rtl8723ds/core/rtw_br_ext.c:414-485 | a lookup adds one use to an entry that has not expired, a refresh sets its time, and neither changes anything else |
| `NatSpec.InsertHolds` | Linux_Driver/29_WIFI/rtl8723ds/core/rtw_br_ext.c:488-523 | inserting into the buckets is inserting into the map, with memory or without |
| `NatSpec.LookupHolds` | Linux_Driver/29_WIFI/rtl8723ds/core/rtw_br_ext.c:414-485 | the use a lookup adds to a bucket entry is the use it adds to the map entry |
| `NatSpec.TouchHolds` | Linux_Driver/29_WIFI/rtl8723ds/core/rtw_xmit.c:3608-3621 | refreshing an entry in its bucket is refreshing it in the map |
| `NatSpec.ExpireHolds` | Linux_Driver/29_WIFI/rtl8723ds/core/rtw_br_ext.c:642-727 | one sweep drops exactly the expired entries with one use, lowers the other expired ones by one use and leaves the rest alone |
| `NatSpec.StepRepresents` | Linux_Driver/29_WIFI/rtl8723ds/core/rtw_br_ext.c:414-727 | every operation on sixteen buckets is the same operation on the plain map |
| `NatRuns.RunRepresents` | Linux_Driver/29_WIFI/rtl8723ds/core/rtw_br_ext.c:414-727 | after any sequence of insert, lookup, refresh, expire and cleanup, with any allocation failures, the buckets stand for the map |
| `NatRuns.LookupGivesLatestInsert` | Linux_Driver/29_WIFI/rtl8723ds/core/rtw_br_ext.c:488-523 | an address in the table carries the MAC of its latest insert that took effect, and at least one use |
| `NatRuns.GoneAfterUseCountPasses` | Linux_Driver/29_WIFI/rtl8723ds/core/rtw_br_ext.c:642-727 | an expired entry with use count k that nothing refreshes is in the table before the k-th pass, counting down, and gone from then on |
| `NatRuns.FreshStays` | Linux_Driver/29_WIFI/rtl8723ds/core/rtw_br_ext.c:414-727 | over any run without clean-up in which every pass comes while the entry is fresh it stays, with its latest MAC and time and exactly one use more for each hit |
| `NatRuns.InsertedStays` | Linux_Driver/29_WIFI/rtl8723ds/core/rtw_br_ext.c:488-727 | from start-up on, an address whose insert took effect is found with the MAC of its client as long as it is refreshed in time |
| `NatTable.HashLink` | Linux_Driver/29_WIFI/rtl8723ds/core/rtw_br_ext.c:381-395 | linking puts the entry in front of a null-ended chain whose back links are the links that point at their entries |
| `NatTable.CutLinks` | Linux_Driver/29_WIFI/rtl8723ds/core/rtw_br_ext.c:398-411 | what each write through a back link changes, and that no other link changes |
| `NatTable.HashUnlink` | Linux_Driver/29_WIFI/rtl8723ds/core/rtw_br_ext.c:398-411 | unlinking the k-th entry leaves a well-linked chain of all the others in order |
| `NatTable.NatTable.FindEntry` | Linux_Driver/29_WIFI/rtl8723ds/core/rtw_br_ext.c:1570-1579 | the search loop returns the entry of the first match in its bucket, or null exactly when there is none |
| `NatTable.NatTable.Lookup` | Linux_Driver/29_WIFI/rtl8723ds/core/rtw_br_ext.c:414-485 | the table becomes the table after a lookup; the first six bytes of the frame become the entry's MAC exactly when the entry exists and has not expired, and an expired one still counts as found |
| `NatTable.NatTable.Insert` | Linux_Driver/29_WIFI/rtl8723ds/core/rtw_br_ext.c:488-523 | the table becomes the table after the insert, new entries are freshly allocated, chains stay well linked |
| `NatTable.NatTable.FreeEntry` | Linux_Driver/29_WIFI/rtl8723ds/core/rtw_br_ext.c:711-717 | a freed entry is on no chain and is not the remembered entry; everything else is kept |
| `NatTable.NatTable.ExpireEntry` | Linux_Driver/29_WIFI/rtl8723ds/core/rtw_br_ext.c:656-721 | one entry of the walk: one that has not expired stays linked with all its data, an expired one loses one use and nothing else, or leaves the chain if that was its last; the other buckets are untouched |
| `NatTable.NatTable.ExpireBucket` | Linux_Driver/29_WIFI/rtl8723ds/core/rtw_br_ext.c:650-724 | the walk that deletes while it goes leaves exactly the aged bucket and touches no other |
| `NatTable.NatTable.Expire` | Linux_Driver/29_WIFI/rtl8723ds/core/rtw_br_ext.c:642-727 | after one pass exactly the entries are gone that had expired and were on their last use; every other one keeps its MAC and time, and its uses less one if it had expired; no entry is used after it was freed, and the remembered sender is forgotten exactly when its entry is |
| `NatTable.NatTable.Cleanup` | Linux_Driver/29_WIFI/rtl8723ds/core/rtw_br_ext.c:613-639 | all buckets are empty, no entry is live and none is remembered |
| `NatTable.NatTable.FastPath` | Linux_Driver/29_WIFI/rtl8723ds/core/rtw_xmit.c:3580-3588 | the shortcut is taken exactly for a unicast IPv4 frame of the remembered sender that is not the bridge; the frame then carries the station's own MAC and the entry is refreshed, else nothing changes |
| `NatTable.NatTable.ScdbUpdate` | Linux_Driver/29_WIFI/rtl8723ds/core/rtw_xmit.c:3608-3628 | a new source MAC is looked up and, if its address is in the table, remembered with the IP address of the frame, whose entry it is; a known one refreshes the remembered entry or forgets MAC and address; NAT2.5 is bypassed exactly while an entry is remembered |
| `NatTable.NatTable.RxShortcut` | Linux_Driver/29_WIFI/rtl8723ds/core/rtw_br_ext.c:1428-1431 | the shortcut is taken exactly for an IPv4 frame to the remembered address, and writes the remembered MAC |
| `NatTable.Run` | Linux_Driver/29_WIFI/rtl8723ds/core/rtw_br_ext.c:414-727 | a table of linked entries driven through any operations holds exactly the buckets they describe |
| `NatTable.LookupAfterRun` | Linux_Driver/29_WIFI/rtl8723ds/core/rtw_br_ext.c:414-523 | after any run a lookup succeeds exactly when the plain map has the address, and writes the MAC of the latest successful insert into the frame exactly when the entry has not expired |
| `NatShortcut.RememberedIsKnown` | Linux_Driver/29_WIFI/rtl8723ds/core/rtw_xmit.c:3608-3628 | in every run of table operations and sent frames the table has the remembered address while an entry is remembered |
| `NatShortcut.AgreesExactly` | Linux_Driver/29_WIFI/rtl8723ds/core/rtw_br_ext.c:1428-1431 | the remembered MAC is the one the table holds if and only if the address is still there and its latest insert was for that MAC |
| `NatShortcut.StaleServed` | Linux_Driver/29_WIFI/rtl8723ds/core/rtw_br_ext.c:1428-1431 | a run after which the shortcut serves a client whose entry has expired and been freed |
| `NatShortcut.GuardDecides` | Linux_Driver/29_WIFI/rtl8723ds/core/rtw_br_ext.c:1428-1431 | over all runs the shortcut serves only addresses the table knows if and only if it also asks for a remembered entry |
| `NatBridge.RunBridge` | Linux_Driver/29_WIFI/rtl8723ds/core/rtw_br_ext.c:414-727 | the linked table and the remembered sender do, over every run, what the events say |
| `NatBridge.RxAfterRun` | Linux_Driver/29_WIFI/rtl8723ds/core/rtw_br_ext.c:1428-1431 | after any run a frame that takes the shortcut gets the MAC the table holds exactly in those cases |
| `SkBuffs.SkBuff.Memmove` | Linux_Driver/29_WIFI/rtl8723ds/core/rtw_br_ext.c:117-119 | an overlapping move writes the old source bytes and nothing else |
| `VlanTag.TagRoundTrip` | Linux_Driver/29_WIFI/rtl8723ds/core/rtw_br_ext.c:1412-1455 | taking a tag out and putting it back, in either order, gives the same bytes |
| `VlanTag.TagBytes` | Linux_Driver/29_WIFI/rtl8723ds/core/rtw_br_ext.c:1412-1455 | a frame is tagged when 81 00 follows the addresses, and the tag is these and the next two bytes |
| `VlanTag.Strip` | Linux_Driver/29_WIFI/rtl8723ds/core/rtw_br_ext.c:1412-1418 | the in-place word loop leaves exactly the frame without its four tag bytes |
| `VlanTag.Restore` | Linux_Driver/29_WIFI/rtl8723ds/core/rtw_br_ext.c:1449-1455 | the loop back gives the inner frame with the tag in place |
| `VlanTag.HandleFrame` | Linux_Driver/29_WIFI/rtl8723ds/core/rtw_br_ext.c:1388-1464 | for any handler: group frames are untouched, untagged frames are handled as they are, tagged ones come back as the handled inner frame around their own tag |
| `VlanTag.HandleIdentity` | Linux_Driver/29_WIFI/rtl8723ds/core/rtw_br_ext.c:1388-1464 | a handler that changes nothing leaves every byte of any frame as it was |
| `PppoeRelay.FindsNothing` | Linux_Driver/29_WIFI/rtl8723ds/core/rtw_br_ext.c:89-104 | on a well-formed list without the type the search finds nothing, whatever lies around it |
| `PppoeRelay.FindsFirst` | Linux_Driver/29_WIFI/rtl8723ds/core/rtw_br_ext.c:89-104 | behind well-formed tags of other types the search finds the tag |
| `PppoeRelay.FindTag` | Linux_Driver/29_WIFI/rtl8723ds/core/rtw_br_ext.c:89-104 | the walk ends on every input, also when lengths lead it past the frame, and returns what the search means |
| `PppoeRelay.PullAndMerge` | Linux_Driver/29_WIFI/rtl8723ds/core/rtw_br_ext.c:126-145 | the bytes leave the frame, or the call fails exactly when they reach past its end and changes nothing |
| `PppoeRelay.AddTag` | Linux_Driver/29_WIFI/rtl8723ds/core/rtw_br_ext.c:107-124 | the tag goes in front of the tag area and the length grows by the size line 112 computes in the byte order of the host; it fails exactly without room |
| `PppoeRelay.TakeOld` | Linux_Driver/29_WIFI/rtl8723ds/core/rtw_br_ext.c:1140-1156 | an old relay tag leaves the frame and its data is kept; a tag that is too long for the 40-byte buffer or reaches past the frame is refused with the frame unchanged |
| `PppoeRelay.Insert` | Linux_Driver/29_WIFI/rtl8723ds/core/rtw_br_ext.c:1131-1169 | the whole result of a PADI or PADR insert, including that a call without room fails with the old tag already gone |
| `PppoeRelay.Lookup` | Linux_Driver/29_WIFI/rtl8723ds/core/rtw_br_ext.c:1202-1244 | the whole result of a PADO or PADS lookup on any frame, including every refusal and the destination written before the last one |
| `PppoeRelay.EchoFound` | Linux_Driver/29_WIFI/rtl8723ds/core/rtw_br_ext.c:1213-1232 | our tag echoed behind other tags is the one found, with its magic code |
| `PppoeRelay.EchoRestored` | Linux_Driver/29_WIFI/rtl8723ds/core/rtw_br_ext.c:1132-1243 | a reply that echoes our tag in any position reaches the client's MAC with tag list, PPPoE length and size as without the bridge |
| `PppoeRelay.ComesBackWhole` | Linux_Driver/29_WIFI/rtl8723ds/core/rtw_br_ext.c:1140-1243 | what comes back is the tag list as it was, except that a non-empty old relay tag is moved to the front and an empty one is dropped |
| `PppoeRelay.RoundTrip` | Linux_Driver/29_WIFI/rtl8723ds/core/rtw_br_ext.c:1132-1243 | exactly when a frame is sent: its old tag can be moved and the buffer has room for the tag as the host sizes it; and an immediately echoed tag list comes back to the client's MAC as it should if and only if the host is big-endian |
| `PppoeRelay.LittleEndianFails` | Linux_Driver/29_WIFI/rtl8723ds/core/rtw_br_ext.c:107-124 | a bare PADI on a little-endian host is sent exactly with 2052 bytes of tailroom or more, and then comes back wrong |
| `PppoeBytes.RelayTagBytes` | Linux_Driver/29_WIFI/rtl8723ds/core/rtw_br_ext.c:1158-1164 | the tag is 01 10, its length, 81 86, the MAC of the client and the old data |
| `PppoeBytes.MovableExactly` | Linux_Driver/29_WIFI/rtl8723ds/core/rtw_br_ext.c:1142-1153 | an old relay tag is refused if and only if it has more than 28 bytes of data or ends behind the frame |
| `PppoeBytes.WithoutOldBytes` | Linux_Driver/29_WIFI/rtl8723ds/core/rtw_br_ext.c:1148-1156 | taking the old tag out closes the gap, lowers the length by the size of the tag and keeps its data |
| `PppoeBytes.SentBytes` | Linux_Driver/29_WIFI/rtl8723ds/core/rtw_br_ext.c:107-124 | on a big-endian host the frame that leaves has the tag in front of the others and the length raised by its size |
| `PppoeBytes.LittleEndianSize` | Linux_Driver/29_WIFI/rtl8723ds/core/rtw_br_ext.c:112-113 | a little-endian host takes a tag of 8 + n bytes for one of 256 times that |
| `PppoeBytes.RelayedBytes` | Linux_Driver/29_WIFI/rtl8723ds/core/rtw_br_ext.c:1210-1230 | the bridge takes a tag for its own exactly when 01 10, a length of eight or more and 81 86 stand there |
| `PppoeBytes.UnrelayedBytes` | Linux_Driver/29_WIFI/rtl8723ds/core/rtw_br_ext.c:1232-1244 | a reply goes to the MAC in the tag; a tag of eight bytes leaves altogether, a longer one keeps its header with a length lowered by eight |
| `DhcpChecksum.ByteOrderIndependent` | Linux_Driver/29_WIFI/rtl8723ds/core/rtw_br_ext.c:1538-1551 | a checksum that is valid on a host of one byte order is valid on the other |
| `DhcpChecksum.SumUpdate` | Linux_Driver/29_WIFI/rtl8723ds/core/rtw_br_ext.c:1544-1550 | writing one word changes the sum by the difference of the words |
| `DhcpChecksum.Fold` | Linux_Driver/29_WIFI/rtl8723ds/core/rtw_br_ext.c:1548-1549 | the fold loop terminates with a 16-bit number congruent to the sum, zero only for zero |
| `DhcpChecksum.PatchedSum` | Linux_Driver/29_WIFI/rtl8723ds/core/rtw_br_ext.c:1544-1550 | the patch changes the ones'-complement sum of the datagram by exactly its old flags word |
| `DhcpChecksum.ChecksumKeptExactly` | Linux_Driver/29_WIFI/rtl8723ds/core/rtw_br_ext.c:1538-1551 | a valid datagram of any length stays valid if and only if its flags field was zero |
| `DhcpChecksum.ReservedBitBreaks` | Linux_Driver/29_WIFI/rtl8723ds/core/rtw_br_ext.c:1519-1557 | a well-formed request with one reserved flag bit checks before the patch and not after it, on either host |
| `DhcpChecksum.ZeroChecksum` | Linux_Driver/29_WIFI/rtl8723ds/core/rtw_br_ext.c:1546-1550 | exactly when the patched checksum is zero, which UDP reads as none; a request sent without one gets a nonzero one |
| `DhcpChecksum.PatchedPrefix` | Linux_Driver/29_WIFI/rtl8723ds/core/rtw_br_ext.c:1538-1551 | padding behind the datagram plays no part in the patch |
| `DhcpChecksum.FlagBcast` | Linux_Driver/29_WIFI/rtl8723ds/core/rtw_br_ext.c:1519-1557 | the frame changes if and only if the patch is enabled and its bytes are an IPv4 type, protocol 17, ports 68 and 67, the cookie 63 82 53 63 and a clear top flag bit; then only that bit and the checksum change, as the patch says |
| `DhcpChecksum.ForwardRequest` | Linux_Driver/29_WIFI/rtl8723ds/core/rtw_br_ext.c:1519-1557 | a whole frame with a valid request and a reserved flag bit comes out with the broadcast bit set and a checksum that no receiver accepts |
| `CanCodec.RoundedLength` | Linux_Driver/24_can/m_can_platform.c:1494-1498 | the length a receiver sees is the least length with a code that is not smaller |
| `CanCodec.MarkerRoundTrip` | Linux_Driver/24_can/m_can_platform.c:1494-1498 | the message marker read from an event is the put index the frame was written with |
| `CanCodec.IdRoundTrip` | Linux_Driver/24_can/m_can_platform.c:1421-1431 | identifier, extended and remote flags survive the element layout |
| `CanCodec.FrameRoundTrip` | Linux_Driver/24_can/m_can_platform.c:1478-1505 | any valid classical, remote or FD frame, in any slot over any old contents, is read back with its identifier, flags, rounded length and data |
| `CanCodec.OldDataExactly` | Linux_Driver/24_can/m_can_platform.c:461-499 | old element contents reach the receiver if and only if rounding the length up takes in a word the frame did not write |
| `CanLayout.SecondWordLayout` | Linux_Driver/24_can/m_can_platform.c:1481-1501 | marker, length code, the bit that asks for a TX event and the two FD bits stand where the manual has them, and every other bit is clear |
| `CanLayout.AsksForEvent` | Linux_Driver/24_can/m_can_platform.c:1498-1501 | every element the transmit path writes asks for a TX event, and names its slot in the marker |
| `CanLayout.ExtendedWord` | Linux_Driver/24_can/m_can_platform.c:1421-1431 | an extended identifier fills the low 29 bits under the extended and remote bits |
| `CanLayout.StandardWord` | Linux_Driver/24_can/m_can_platform.c:1421-1431 | a standard identifier stands in bits 28 to 18, all other identifier bits are clear |
| `CanLayout.DataLayout` | Linux_Driver/24_can/m_can_platform.c:1503-1505 | the data bytes lie low byte first in as many words as the length takes, and the words behind keep what they held |
| `CanLayout.DecodeLayout` | Linux_Driver/24_can/m_can_platform.c:464-493 | of any element, whatever wrote it: type, error state, bit rate switch and length, a classic frame capped at eight bytes |
| `CanLayout.DecodedMarks` | Linux_Driver/24_can/m_can_platform.c:478-490 | a received identifier is marked extended as the element says, and remote only on a classic frame |
| `CanLayout.DecodedId` | Linux_Driver/24_can/m_can_platform.c:478-482 | the identifier bits of a received extended or standard frame |
| `CanMessageRam.ElementsDisjoint` | Linux_Driver/24_can/m_can_platform.c:1553-1592 | elements of any two regions, or two elements of one, never share a word while the offsets do not overflow |
| `CanMessageRam.OffsetExact` | Linux_Driver/24_can/m_can_platform.c:1553-1592 | without overflow the 16-bit offsets are the true ones |
| `CanMessageRam.LaidOut` | Linux_Driver/24_can/m_can_platform.c:1553-1579 | each region starts where the one before ends; receive FIFOs take seven bits of their count, TX buffers six, the others eight |
| `CanMessageRam.MessageRam.OfParseMram` | Linux_Driver/24_can/m_can_platform.c:1553-1592 | the regions follow each other in order, with the masked element counts |
| `CanMessageRam.MessageRam.InitRam` | Linux_Driver/24_can/m_can_platform.c:1539-1551 | exactly the words from the first region to the end of the TX buffers are zeroed |
| `CanMessageRam.MessageRam.WriteTx` | Linux_Driver/24_can/m_can_platform.c:1478-1505 | a frame is written into its own element and no other word of the RAM changes |
| `CanMessageRam.MessageRam.ReadFifo` | Linux_Driver/24_can/m_can_platform.c:452-508 | what is read is the decoding of the element at the get index |
| `CanTransmit.TrackPut` | Linux_Driver/24_can/m_can_platform.c:1478-1512 | a frame put at the put index takes a free echo slot and becomes the newest of the window |
| `CanTransmit.TrackComplete` | Linux_Driver/24_can/m_can_platform.c:865-901 | a completion moves the oldest pending frame to the completed ones |
| `CanTransmit.TrackEcho` | Linux_Driver/24_can/m_can_platform.c:880-899 | the oldest unread event names the slot of the oldest frame in the window |
| `CanTransmit.MCan.StartXmit` | Linux_Driver/24_can/m_can_platform.c:1466-1519 | on an active queue a valid frame always goes out: the branch for a full FIFO is unreachable; the queue stops exactly when every slot is taken |
| `CanTransmit.MCan.PutElement` | Linux_Driver/24_can/m_can_platform.c:1478-1512 | the slot a frame goes into was free, and the next slot is taken exactly when the window is full |
| `CanTransmit.MCan.HwComplete` | Linux_Driver/24_can/m_can_platform.c:865-901 | the hardware moves the oldest frame to the event FIFO, since its element asks for an event, or loses the event exactly when that FIFO is full |
| `CanTransmit.MCan.EchoOldest` | Linux_Driver/24_can/m_can_platform.c:884-899 | one event is acknowledged and its own frame echoed and counted |
| `CanTransmit.MCan.EchoTxEvents` | Linux_Driver/24_can/m_can_platform.c:865-901 | everything completed is echoed in send order |
| `CanTransmit.MCan.Isr` | Linux_Driver/24_can/m_can_platform.c:937-946 | one interrupt echoes all completed frames, once each, and reopens the queue when there is room |
| `CanTransmit.StepKeepsOrder` | Linux_Driver/24_can/m_can_platform.c:865-1519 | one step keeps the frames on their way in order, takes in exactly the valid frame offered while a slot is free, and loses nothing |
| `CanTransmit.RunKeepsOrder` | Linux_Driver/24_can/m_can_platform.c:865-1519 | over every run of steps with an event FIFO no smaller than the TX FIFO the echoed, completed and waiting frames are exactly the frames taken in, once each and in order |
| `CanTransmit.Run` | Linux_Driver/24_can/m_can_platform.c:865-1519 | after any interleaving of transmit, completion and interrupt the controller holds exactly the waiting, completed and echoed frames these steps leave, up to the first lost event, which never comes when the event FIFO is no smaller than the TX FIFO |
| `CanTransmit.LossExactly` | Linux_Driver/24_can/m_can_platform.c:865-901 | no run loses an event if and only if the event FIFO is no smaller than the TX FIFO |
| `CanTransmit.Drain` | Linux_Driver/24_can/m_can_platform.c:865-1519 | once everything is completed, one interrupt leaves every sent frame echoed |
| `CanTransmit.EventDropped` | Linux_Driver/24_can/m_can_platform.c:865-901 | on every smaller event FIFO the stated steps, one frame more than it holds and all completed before any is read back, lose an event |
| `PdRoleTrial.StepKeepsTrials` | Linux_Driver/25_fusb302/fusb302.c:1570-1758 | one run of the work function keeps the role-trial invariant |
| `PdRoleTrial.AtMostTwoTrials` | Linux_Driver/25_fusb302/fusb302.c:1570-1758 | over every run from probe at most two role trials are started between entries to the unattached state |
| `PdHardReset.CollectBound` | Linux_Driver/25_fusb302/fusb302.c:791-877 | interrupt collection keeps the bound for every order of HARDSENT and timers |
| `PdHardReset.DispatchBound` | Linux_Driver/25_fusb302/fusb302.c:2403-2635 | every handler keeps the bound on a sink whose partner is silent |
| `PdHardReset.SendHardrstBound` | Linux_Driver/25_fusb302/fusb302.c:2617-2635 | a hard reset is counted at the latest when its end is seen, unless its HARDSENT resynchronised the controller |
| `PdHardReset.StepBound` | Linux_Driver/25_fusb302/fusb302.c:2888-3115 | one run of the work function keeps the hard-reset invariant |
| `PdHardReset.ForeignBound` | Linux_Driver/25_fusb302/fusb302.c:791-858 | a HARDSENT of another port, which flips the shared flag, can cost one reset more and no more |
| `PdHardReset.HardResetsBounded` | Linux_Driver/25_fusb302/fusb302.c:781-2851 | over every run from probe a sink that hears nothing sends at most two hard resets per attach and one more for each HARDSENT other ports handle meanwhile |
| `PdAttained.FirstSentIsNotCounted` | Linux_Driver/25_fusb302/fusb302.c:842-858 | a HARDSENT with the flag clear resynchronises and leaves the reset counter alone |
| `PdAttained.SecondSentIsCounted` | Linux_Driver/25_fusb302/fusb302.c:842-858 | a HARDSENT with the flag set clears it and the reset is counted |
| `PdAttained.BoundAttained` | Linux_Driver/25_fusb302/fusb302.c:781-2851 | the bound is exact: for every k there is a run from probe with k foreign interrupts in which a silent sink sends 2 + k hard resets |
| `PdSystem.StepFlips` | Linux_Driver/25_fusb302/fusb302.c:791-858 | the shared flag changes exactly when the port that runs handles a HARDSENT |
| `PdSystem.Projection` | Linux_Driver/25_fusb302/fusb302.c:3161-3233 | in every run of any number of ports each port sees a run of its own, in which the others appear only by their HARDSENT interrupts |
| `PdSystem.EveryPortBounded` | Linux_Driver/25_fusb302/fusb302.c:3161-3233 | in every run of any number of ports every port keeps the trial bound and the hard-reset bound |
| `PdRoles.AttachesAny` | Linux_Driver/25_fusb302/fusb302.c:1547-1758 | every port that toggling finds to be a sink attaches as one, after 35 equal readings or a trial, whatever its roles |
| `PdRoles.Clears` | Linux_Driver/25_fusb302/fusb302.c:842-858 | a port set to any role can send a hard reset that clears the shared flag |
| `PdRoles.ThreeAreSent` | Linux_Driver/25_fusb302/fusb302.c:795-858 | the failing run, for any two ports of any configuration: one that hears nothing sends three hard resets because the other clears the flag |
| `PdRoles.ThreeRunReal` | Linux_Driver/25_fusb302/fusb302.c:545-577 | the failing run takes only toggle results the ports' roles allow, when the first can be a sink |
| `PdRoles.SourceIsNeverSilent` | Linux_Driver/25_fusb302/fusb302.c:545-577 | a port set to be a source only never attaches as a sink |
| `PdRoles.TwoExactlyWhen` | Linux_Driver/25_fusb302/fusb302.c:791-858 | a configuration holds every silent sink to two hard resets in all its runs if and only if it has at most one port or none that can be a sink |
| `PdRoles.TwoOnlyAlone` | Linux_Driver/25_fusb302/fusb302.c:791-858 | over all configurations of n ports that is if and only if n is at most one |
| `PdMessages.SourceHears` | Linux_Driver/25_fusb302/fusb302.c:1846-1851 | a source that offers its capabilities negotiates when it hears a Request and answers anything else with a soft reset |
| `PdMessages.SinkHears` | Linux_Driver/25_fusb302/fusb302.c:2411-2420 | a sink waiting for capabilities evaluates Source_Capabilities, noting PD support and stopping its timer, and ignores everything else |
| `PdMessages.AcceptHeard` | Linux_Driver/25_fusb302/fusb302.c:2376-2381 | Accept after a soft reset leads a source back to its capabilities and a sink to its wait, anything else to nothing |
| `PdMessages.SoftResetHeard` | Linux_Driver/25_fusb302/fusb302.c:2901-2909 | a soft reset reaches a port in any state, and in the same run it begins to answer in its own role |
| `PdMessages.SoftResetAnswered` | Linux_Driver/25_fusb302/fusb302.c:2331-2351 | once its answer is out the port starts over with the capabilities; if it cannot be sent a hard reset is next |
| `PdMessages.SoftResetSent` | Linux_Driver/25_fusb302/fusb302.c:2353-2375 | the way of the soft reset from idle over the wire to the wait for Accept, or after a failure to a hard reset |
| `PdMessages.CapsOut` | Linux_Driver/25_fusb302/fusb302.c:1820-1845 | the way of the capabilities over the wire to the wait for a Request, with the counters cleared, or after a failure to discovery |
| `PdMessages.HardResetOut` | Linux_Driver/25_fusb302/fusb302.c:2309-2329 | a hard reset goes out once, is counted when it ends by an event or the timer, and fails into error recovery |
| `PdMessages.SourceTimesOut` | Linux_Driver/25_fusb302/fusb302.c:1852-1865 | no Request in time is a hard reset the first time and the end afterwards; silence ends as the PD support seen so far says |
| `PdMessages.Discovery` | Linux_Driver/25_fusb302/fusb302.c:1786-1814 | a source nobody acknowledges offers again after 100 ms, and is disabled at the fiftieth count |
| `PdMessages.SinkTimesOut` | Linux_Driver/25_fusb302/fusb302.c:2420-2441 | no capabilities in time is a soft reset when VBUS was there from the start, else a hard reset, and the end once one has been counted |
| `PdMessages.AcceptTimesOut` | Linux_Driver/25_fusb302/fusb302.c:2382-2385 | no Accept in time is a hard reset |
| `PdMessages.DefaultsRestored` | Linux_Driver/25_fusb302/fusb302.c:1953-1987 | after a hard reset a source starts again after 830 ms, a sink when VBUS has gone and come back, or when either takes too long |
| `PdMessages.LeadsOn` | Linux_Driver/25_fusb302/fusb302.c:1771-1784 | the start-up states lead to the capabilities and to the wait for them, error recovery to unattached, disabled nowhere |
| `PdExits.HardResetHeard` | Linux_Driver/25_fusb302/fusb302.c:831-835 | a hard reset received sends a port in any state to restore its defaults in its own role, and begins that in the same run |
| `PdExits.HardSentRaised` | Linux_Driver/25_fusb302/fusb302.c:842-858 | a HARDSENT with the shared flag clear does the same without counting, with the flag set a port that was sending counts it; the flag flips |
| `PdExits.Probed` | Linux_Driver/25_fusb302/fusb302.c:3186-3284 | a port after probe is unattached with no timer set and nothing to do |
| `PdExits.Detaches` | Linux_Driver/25_fusb302/fusb302.c:2853-2886 | an attached sink is gone when VBUS is, an attached source when its line reads open, outside the states that expect this; then nothing of the attach remains, and otherwise the handler of its state runs |
| `PdExits.Finds` | Linux_Driver/25_fusb302/fusb302.c:1547-1568 | a toggle result that found something begins the wait of the role it found with a first reading, and nothing else does |
| `PdExits.SinkWait` | Linux_Driver/25_fusb302/fusb302.c:1586-1637 | how the wait of a sink goes on or ends: a trial, an attach after one, 34 equal readings of Rp, or unattached |
| `PdExits.SourceWait` | Linux_Driver/25_fusb302/fusb302.c:1639-1675 | how the wait of a source goes on or ends: 34 equal readings of Rd, a trial first if it prefers that, or unattached |
| `PdExits.TrialEnds` | Linux_Driver/25_fusb302/fusb302.c:1728-1758 | a trial that finds its role waits for it, one that finds the other fails, and one that finds nothing tries the other role once |
| `PdExits.Attaches` | Linux_Driver/25_fusb302/fusb302.c:1677-1726 | an attached source starts up as source and DFP, an attached sink on VBUS as sink and UFP, after the trial it prefers, and without VBUS not at all |
| `PdExchange.Negotiates` | Linux_Driver/25_fusb302/fusb302.c:1816-2420 | from the capabilities on, the sink evaluates what the source says and the Request takes the source to negotiation, with no reset on either side |
| `PdExchange.AttachedNegotiate` | Linux_Driver/25_fusb302/fusb302.c:1677-2420 | the same from the moment both are attached |
| `PdExchange.SoftResetSync` | Linux_Driver/25_fusb302/fusb302.c:2331-2387 | a soft reset started by either side, with the other in any state, leaves both where the exchange begins, without a hard reset |
| `PdExchange.Recovers` | Linux_Driver/25_fusb302/fusb302.c:1846-2420 | a source that hears what it did not ask for resets softly, whatever its partner was doing, and the two then negotiate |
| `PdSystem.LateProbe` | Linux_Driver/25_fusb302/fusb302.c:3217-3233 | a port probed later is in the same state as one probed first, but for the shared flag |
| `PdAttach.StepKeeps` | Linux_Driver/25_fusb302/fusb302.c:1547-1758 | one run of the work function keeps attach states awake and debounced |
| `PdAttach.NeverAsleep` | Linux_Driver/25_fusb302/fusb302.c:1547-1758 | in every run from probe a port in an attach state has a timer running or work queued, so it is never left waiting for nothing |
| `PdAttach.AttachIsDebounced` | Linux_Driver/25_fusb302/fusb302.c:1586-1675 | a port attaches as a source only after 35 equal readings of the CC lines in a row with Rd on one of them, and as a sink with Rp, unless the sink comes from a role trial |
| `PdAttach.WaitEnds` | Linux_Driver/25_fusb302/fusb302.c:1639-1675 | lines that stay still end the wait of a source at exactly the 34th repetition, attached, in a trial or unattached as the reading and the roles say |
| `PdSourceCaps.StepGivesUp` | Linux_Driver/25_fusb302/fusb302.c:1786-1867 | no run of the work function leads away from giving up, and each awaited event leads nearer |
| `PdSourceCaps.SourceGivesUp` | Linux_Driver/25_fusb302/fusb302.c:1760-1867 | a source whose transmissions all fail sends its capabilities at most 50 times, exactly 50 before it is disabled, and is disabled after a bounded number of awaited events |
| `PdDriver.Driver.TimerHandler` | Linux_Driver/25_fusb302/fusb302.c:3161-3184 | the search marks the timer of the one port it belongs to, unless that is disabled, and changes no other port |
| `PdDriver.Driver.Probe` | Linux_Driver/25_fusb302/fusb302.c:3217-3233 | a new port joins unless 255 are there, and the ports probed before are where they were |
| `PdDriver.Driver.Work` | Linux_Driver/25_fusb302/fusb302.c:3161-3206 | after every work item of any port, all port objects are where a run of the system leads, with every bound and every wake-up kept, and two hard resets at most for a port that is alone |
| `BeaconElements.First` | Linux_Driver/29_WIFI/rtl8723ds/core/rtw_ieee80211.c:271-295 | the search means the first element with the id |
| `BeaconElements.AddedSorted` | Linux_Driver/29_WIFI/rtl8723ds/core/rtw_ap.c:167-231 | on a sorted list with a usable anchor exactly one element is replaced or inserted, the list stays sorted and the element is the first of its id |
| `BeaconElements.AddedElsewhere` | Linux_Driver/29_WIFI/rtl8723ds/core/rtw_ap.c:167-231 | on any list the elements in front of the place and behind it stay as they are; nothing is added in front of the first element or behind an empty one |
| `BeaconElements.AddThenRemove` | Linux_Driver/29_WIFI/rtl8723ds/core/rtw_ap.c:167-268 | adding an absent element and removing it restores the list if and only if the element has a body, as with every caller, or finds no anchor that has one |
| `BeaconElements.EditedBytes` | Linux_Driver/29_WIFI/rtl8723ds/core/rtw_ap.c:205-230 | exchanging the bytes of some elements is exchanging the elements |
| `BeaconElements.Network.GetIe` | Linux_Driver/29_WIFI/rtl8723ds/core/rtw_ieee80211.c:271-295 | position and length of the first element with the id in the buffer |
| `BeaconElements.Network.FindAnchor` | Linux_Driver/29_WIFI/rtl8723ds/core/rtw_ap.c:175-192 | the walk stops at the match or behind the last smaller element |
| `BeaconElements.Network.Edit` | Linux_Driver/29_WIFI/rtl8723ds/core/rtw_ap.c:205-230 | the shared backup, write and copy-back changes exactly the named bytes and sets the length |
| `BeaconElements.Network.AddIe` | Linux_Driver/29_WIFI/rtl8723ds/core/rtw_ap.c:167-231 | the buffer holds the list with the element replaced, inserted, or unchanged without an anchor that has a body |
| `BeaconElements.Network.RemoveIe` | Linux_Driver/29_WIFI/rtl8723ds/core/rtw_ap.c:233-268 | the buffer holds the list without its first element of the id, unless that is empty or absent |
| `BeaconElements.Network.AddAndRemove` | Linux_Driver/29_WIFI/rtl8723ds/core/rtw_ap.c:2421-2440 | adding an absent non-empty element and removing it restores every byte |
| `BeaconTim.DecodesExactly` | Linux_Driver/29_WIFI/rtl8723ds/core/rtw_ap.c:118-149 | stations read back the bitmap if and only if one of the ids 1 to 7 is set or none of the ids 8 to 15 is |
| `BeaconTim.TimOctets` | Linux_Driver/29_WIFI/rtl8723ds/core/rtw_ap.c:114-149 | the element octet by octet: 5, the length, 0, 1, the group bit, and one or both octets of the bitmap |
| `BeaconTim.StandardOrder` | Linux_Driver/29_WIFI/rtl8723ds/core/rtw_ap.c:85-110 | behind SSID, rates and DS parameter set the new element goes in fourth place |
| `BeaconTim.UpdateTwice` | Linux_Driver/29_WIFI/rtl8723ds/core/rtw_ap.c:53-165 | a second update with the same bitmap changes nothing if and only if no empty TIM element stands in front of the insertion place |
| `BeaconTim.TwiceAddsTwo` | Linux_Driver/29_WIFI/rtl8723ds/core/rtw_ap.c:53-165 | a list with an empty TIM element in front on which the second update inserts the element again |
| `BeaconTim.StationReads` | Linux_Driver/29_WIFI/rtl8723ds/core/rtw_ap.c:53-165 | after an update the new element is the first TIM, all others are unchanged and in order, and it decodes exactly in the cases above |
| `BeaconTim.FindPlace` | Linux_Driver/29_WIFI/rtl8723ds/core/rtw_ap.c:74-112 | the old element with a body, or the place behind SSID, rates and three more bytes |
| `BeaconTim.UpdateTim` | Linux_Driver/29_WIFI/rtl8723ds/core/rtw_ap.c:53-165 | the bytes at the computed place give way to the element wherever that falls inside the list; between two elements the result is the list with its TIM element replaced or inserted |
| `BeaconPlace.Commutes` | Linux_Driver/29_WIFI/rtl8723ds/core/rtw_ap.c:114-157 | only copies of the element commute with its bytes |
| `BeaconPlace.SurviveExactly` | Linux_Driver/29_WIFI/rtl8723ds/core/rtw_ap.c:87-162 | after the element is put in at any offset the others are intact if and only if the offset is the start of one, or only copies of the element lie between it and the next start |
| `BeaconPlace.KeptExactly` | Linux_Driver/29_WIFI/rtl8723ds/core/rtw_ap.c:87-162 | at the place the driver computes the others survive if and only if it lies between two of them, unless a copy of the element stands there already |
| `BeaconPlace.UpdateKeeps` | Linux_Driver/29_WIFI/rtl8723ds/core/rtw_ap.c:53-165 | the same for the bytes in the buffer |
| `BeaconPlace.InsideBreaks` | Linux_Driver/29_WIFI/rtl8723ds/core/rtw_ap.c:87-112 | on a list without a parameter set the place is inside the next element, which does not survive unless a copy of the new one starts there |
| `StationCounters.UpdatedMode` | Linux_Driver/29_WIFI/rtl8723ds/core/rtw_ap.c:2893-2946 | the mode is mixed exactly with a station without HT, 20 MHz exactly with none of these but a narrow one, may-be-legacy exactly with neither but a legacy network, pure else; the two presence bits follow, other bits are kept, and zero is returned exactly when nothing changed |
| `StationCounters.Ap.constructor` | Linux_Driver/29_WIFI/rtl8723ds/core/rtw_ap.c:3527-3549 | all counters start at zero and the mode agrees with them |
| `StationCounters.Ap.SetMark` | Linux_Driver/29_WIFI/rtl8723ds/core/rtw_ap.c:2999-3011 | setting a mark counts the station once, and tells the first |
| `StationCounters.Ap.ClearMark` | Linux_Driver/29_WIFI/rtl8723ds/core/rtw_ap.c:3012-3024 | clearing a mark uncounts the station, tells the last, and never takes a counter below zero |
| `StationCounters.Ap.HtOperationUpdate` | Linux_Driver/29_WIFI/rtl8723ds/core/rtw_ap.c:2877-2946 | the same in the counters: mixed exactly when some station has no HT, and so on, unless HT is off, when nothing changes |
| `StationCounters.Ap.StaJoin` | Linux_Driver/29_WIFI/rtl8723ds/core/rtw_ap.c:2980-3162 | counters stay exact through a join or re-join; the ERP element is refreshed exactly when non-ERP stations appear or vanish, the whole beacon exactly when that happens for preamble or slot time beyond 802.11b, the HT elements exactly when the mode changes |
| `StationCounters.Ap.StaLeave` | Linux_Driver/29_WIFI/rtl8723ds/core/rtw_ap.c:3164-3237 | the same for a leave, after which the station has no mark |
| `StationCounters.Run` | Linux_Driver/29_WIFI/rtl8723ds/core/rtw_ap.c:2877-3549 | over every run each of the six counters is the number of stations whose own joins and leaves give them the mark, and the mode is the one that these stations and the legacy networks seen up to the last join or leave call for |
| `AclPool.FreeNode` | Linux_Driver/29_WIFI/rtl8723ds/core/rtw_ap.c:2072-2086 | fewer listed nodes than the pool has leave a free one: the search never misses |
| `AclPool.MembershipStep` | Linux_Driver/29_WIFI/rtl8723ds/core/rtw_ap.c:1980-2143 | exactly when an address is listed after each operation |
| `AclPool.RunBounded` | Linux_Driver/29_WIFI/rtl8723ds/core/rtw_ap.c:1980-2143 | over every run the list is a set of at most sixteen addresses |
| `AclPool.WithoutMembers` | Linux_Driver/29_WIFI/rtl8723ds/core/rtw_ap.c:2104-2143 | removal takes away exactly the address, and the broadcast address takes away all |
| `AclPool.OrderKept` | Linux_Driver/29_WIFI/rtl8723ds/core/rtw_ap.c:2040-2143 | a new address goes to the end, a removed one leaves a gap that closes, and removing an absent one changes nothing |
| `AclPool.Pool.Init` | Linux_Driver/29_WIFI/rtl8723ds/core/rtw_ap.c:1980-1997 | an empty list with every node free, no count and the mode disabled |
| `AclPool.Pool.AddSta` | Linux_Driver/29_WIFI/rtl8723ds/core/rtw_ap.c:2040-2102 | the address joins the list behind the others; the call fails exactly when it is absent and the pool is full |
| `AclPool.Pool.Delete` | Linux_Driver/29_WIFI/rtl8723ds/core/rtw_ap.c:2126-2131 | one node leaves the list and is free, the order of the others is kept |
| `AclPool.Pool.RemoveSta` | Linux_Driver/29_WIFI/rtl8723ds/core/rtw_ap.c:2104-2143 | deleting while walking leaves exactly the other addresses, and reports a match exactly when the list changed |
| `AclPool.Pool.Deinit` | Linux_Driver/29_WIFI/rtl8723ds/core/rtw_ap.c:1999-2025 | the list is empty and the count zero |
| `AclPool.Run` | Linux_Driver/29_WIFI/rtl8723ds/core/rtw_ap.c:1980-2143 | after any run a node is listed exactly when it is valid, valid addresses are distinct, the count is right, and the list is the one the operations describe |
| `BroadcastDrain.BatchesAt` | Linux_Driver/29_WIFI/rtl8723ds/core/rtw_ap.c:2308-2336 | every frame is sent once and in order, and the more-data bit is clear exactly on the last frame of each batch of six |
| `BroadcastDrain.Ap.SendBatch` | Linux_Driver/29_WIFI/rtl8723ds/core/rtw_ap.c:2308-2336 | one call takes at most six frames from the front of the queue |
| `BroadcastDrain.Ap.BmcFramesHdl` | Linux_Driver/29_WIFI/rtl8723ds/core/rtw_ap.c:2275-2353 | what a call does in every case: a batch, clearing bit 0 on an empty queue, or nothing |
| `BroadcastDrain.Ap.Offer` | Linux_Driver/29_WIFI/rtl8723ds/core/rtw_xmit.c:4235-4271 | a group frame waits behind the others while anybody sleeps or frames wait, with both bits set and the TIM refreshed once; else it goes out at once with more-data clear, nothing was waiting and no bit changes |
| `BroadcastDrain.Ap.Wake` | Linux_Driver/29_WIFI/rtl8723ds/core/rtw_xmit.c:4554-4603 | when the last station wakes every waiting frame goes out in order, more-data on all but the last, and both bits are cleared |
| `BroadcastDrain.Run` | Linux_Driver/29_WIFI/rtl8723ds/core/rtw_xmit.c:4235-4603 | over every interleaving of frames, beacons, stations falling asleep and waking up, the frames given to the hardware and then those waiting are exactly the frames offered, once each and in order |
| `BroadcastDrain.DrainAll` | Linux_Driver/29_WIFI/rtl8723ds/core/rtw_ap.c:2298-2353 | n waiting frames take exactly ceil(n/6) calls, and the next one clears bit 0 of the bitmap |
| `Eeprom.BitsAt` | Linux_Driver/29_WIFI/rtl8723ds/core/rtw_eeprom.c:48-68 | bit i of the sequence sent is bit count-1-i of the data |
| `Eeprom.FeedRead` | Linux_Driver/29_WIFI/rtl8723ds/core/rtw_eeprom.c:274-275 | start bit, opcode and address leave the device ready to put out the addressed word |
| `Eeprom.Bus.ShiftOutBits` | Linux_Driver/29_WIFI/rtl8723ds/core/rtw_eeprom.c:42-74 | the device sees exactly the low bits of the data, most significant first, one on each rising edge |
| `Eeprom.Bus.ShiftInBits` | Linux_Driver/29_WIFI/rtl8723ds/core/rtw_eeprom.c:76-104 | sixteen edges collect exactly the word the device puts out |
| `Eeprom.Bus.Clean` | Linux_Driver/29_WIFI/rtl8723ds/core/rtw_eeprom.c:137-159 | the device is idle and deselected |
| `Eeprom.Bus.Read16` | Linux_Driver/29_WIFI/rtl8723ds/core/rtw_eeprom.c:239-292 | the addressed word is returned, whatever the register held before |
| `Eeprom.Bus.Read` | Linux_Driver/29_WIFI/rtl8723ds/core/rtw_eeprom.c:336-365 | exactly the byte window from any odd or even offset, and no other byte of the buffer changes |
| `Eeprom.WindowIsSize` | Linux_Driver/29_WIFI/rtl8723ds/core/rtw_eeprom.c:342-351 | the window is the size asked for if and only if the offset is even or the size is not zero; else it is 256 bytes |
| `Eeprom.Halves` | Linux_Driver/29_WIFI/rtl8723ds/core/rtw_eeprom.c:350-362 | the two halves of a word read through a 16-bit register number are the bytes of the memory at that offset |

## Left out

- NatTable.NatTable.Lookup: `unsigned long` is taken as 32 bits wide and the ageing time (300 seconds times HZ) is a parameter; the requirement that the frame and the bucket array are different objects only states what their types already mean.
- NatSpec.Hash: how IPv6, IPX and AppleTalk headers become network addresses is not modelled; an address is any 17-byte key, and only the IPv4 generator is written out.
- VlanTag.HandleFrame: a frame whose type says 802.1Q but that ends before its tag is not modelled, because the source reads past it; the NAT handling in between is any function from frames to frames.
- PppoeRelay.Insert: a PPPoE length that reaches past the frame, or an old relay tag inside the frame but outside the length, is not modelled, because the source then moves bytes beyond the buffer; frame bytes behind the tag list (Ethernet padding) are overwritten by the source and only their number is stated.
- PppoeRelay.RoundTrip: the server is taken to echo the tag list as it got it; `PppoeRelay.EchoRestored` covers other tags around the echo.
- NatTable.NatTable.ScdbUpdate: the copy of the bridge's own IP address is not modelled.
- NatBridge.RxAfterRun: the shortcut's disable flag is off; a frame that ends before its destination address is not modelled.
- DhcpChecksum.FlagBcast: a frame that ends before the fields it claims to have is not modelled, because the source reads past it.
- CanTransmit.MCan.Isr: an interrupt runs as one step, so a completion between the last event read and the wake-up test, or a transmit on another processor at that moment, is not modelled; neither are the version 3.0 transmit path, NAPI scheduling and the error states.
- CanMessageRam.MessageRam.WriteTx: the configured regions are taken to lie inside the mapped RAM on word boundaries; nothing in the source checks it.
- PdDriver.Driver.Work: one work item runs at a time, so two ports inside the interrupt handler at once on two processors are not modelled; the states that only react to partner messages (negotiation, ready, swaps, VDM) are one over-approximated step that may leave behind any field values except the role-trial configuration and the count of what was sent; the request object, power-role swaps and DisplayPort discovery are not modelled; a 32-bit counter is an integer.
- PdExchange.Negotiates: the run is one in which every transmission is acknowledged and no timer runs out; that the sink, having evaluated the capabilities, sends the Request is not part of this model.
- PdMessages.SourceHears: a message that arrives together with a reset or a change on the lines is covered by `PdExits`, not here.
- PdHardReset.HardResetsBounded: the controller is taken to raise HARDSENT at most once for each hard reset it was told to send, and not at all for one sent before a software reset (`tcpm_init`).
- PdRoles.TwoExactlyWhen: the configuration is one probe can read (role DRP, DFP or UFP; role to try none, DFP or UFP).
- PdDriver.Driver.Probe: the 256-entry array is a sequence of the ports probed so far; memory, GPIO and interrupt setup succeed.
- BeaconElements.Network.AddIe: `rtw_malloc` succeeds and the new list fits the 768-byte buffer, which the source does not check; bytes that are not a list of elements are not modelled.
- BeaconTim.UpdateTim: a little-endian host whose allocations succeed; a computed offset behind the end of the list is not modelled, because the source then takes a wrapped-around length for the bytes to back up; the new length fits the buffer, which the source does not check.
- StationCounters.Run: `num_sta_40mhz_intolerant`, the reset of `num_sta_no_ht` after a channel scan, and the contents of the refreshed beacon parts are not modelled; mask bits are taken as disjoint fields.
- AclPool.Run: the intrusive list is a sequence of node numbers, so the pointers of its nodes are not modelled.
- BroadcastDrain.Run: queueing, a beacon's work and a wake-up are single steps, although the source takes different locks for them; group frames already on a hardware queue when a station falls asleep are not pulled back; which frames go to the high queue is a parameter.
- Eeprom.Bus.Read: nothing is promised about the bytes read once a surprise removal has been reported; the register's bit positions are not part of this model, and neither are `eeprom_read_sz`, `eeprom_write16` and the waits between edges.
- Register access, GPIO, delays, logging, locks, remove, sysfs and character devices: plumbing over kernel calls.
- The lock, key and touch demos, the ramdisks and the user-space programs: not modelled.
- `rtw_beamforming.c`, `rtw_io.c`, `rtw_iol.c`, channel decision and security setup in `rtw_ap.c`: they depend on code that is not part of this model.
