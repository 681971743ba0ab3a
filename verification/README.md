# MLVPN in Dafny

MLVPN bonds several UDP links into one tunnel. This project models the parts of it that carry state
from packet to packet, and proves what holds over whole runs of them.

Each part has two layers. One is a set of functions on values, with the lemmas about them. The other
keeps the form of the C source: classes with arrays and fields, loops with invariants, each method
proved equal to the function it implements.

| part | values and lemmas | source form |
|---|---|---|
| Reorder buffer | `Words`, `Ring`, `Window`, `Reorder`, `ReorderHeld`, `ReorderRuns`, `ReorderLoss`, `ReorderRefusal` | `ReorderBuffer` |
| Packet pool and receive path | `Pool`, `Receive`, `ReceiveOrder`, `ReceiveExact`, `ReceivePlayout`, `ReceiveStall` | `Receiver` |
| Weighted round robin | `Wrr`, `WrrDefault`, `WrrLong`, `WrrServed` | `WrrTable` |
| Tunnel sessions | `Session`, `SessionRuns`, `SessionServed`, `SessionTable`, `SessionScripts`, `Handshake` | `SessionObject` |
| Link measurement | `LossWindow`, `Timing` | `LossWindow`, `Timing` |
| Send queues | `PacketRing` | `PacketRing` |
| Wire format | `Wire` | |
| Privilege separation | `Privsep` | `Privsep` |
| Configuration | `Config`, `Reload` | `ConfigReader` |
| Process title encoding | `Vis` | `Vis` |

The reorder proofs about order go in two steps. `Window` describes the buffer with its rings
unrolled, without masks; the `...Views` lemmas of `Reorder` show that the masked rings do the same when
the size is a power of two; and `ReorderRuns` shows that any other size puts packets out of order. What
the buffer holds is followed in `ReorderHeld` for every size, so that no packet is lost by any of them.
`ReceivePlayout` then says which packets come out when: the receive path releases what an ideal play-out
buffer plays, one that keeps a map from stream positions to packets and knows nothing of rings.

`dafny verify dfyconfig.toml` checks everything.

## Findings

Where the code does less than it promises, the exact condition is proved.

- The reorder buffer delivers in order if and only if its size is a power of two. The configuration
  accepts any size (`ReorderRuns.InOrderIffPowerOfTwo` for the buffer,
  `ReceiveOrder.TunOrderIffPowerOfTwo` for the receive path). With any other size the program injects
  0, 1+p, 1 in just that order, p being the lowest bit missing from the mask
  (`ReceiveOrder.OvertakenInjects`). No size loses a packet (`Receive.NothingLost`).
- A drained buffer refuses a packet if and only if that is one window ahead or more but less than two,
  and either the masked indices reach a single place, as with every odd size, or every place they reach
  but the head's is taken and more positions than those have to be passed
  (`ReorderRefusal.RefusedIff`, for every size; reached for every odd size in
  `ReorderRefusal.OddSizeRefuses`). For a power of two this means only size 1 with one number skipped
  (`ReorderLoss.InsertTakes`).
- Tunnels with the default weight rotate evenly if and only if there are at most 101 of them. Beyond
  that the first 101 rotate and the others are never chosen, although the table holds 128
  (`WrrDefault.RotatesIffFew`, `WrrDefault.StarvesIffBeyond`).
- Links with small weights do not share the traffic. The scan starts from 100 and takes the first entry
  if no value is below that (`Wrr.FirstByDefault`), so that with periods long enough, after one round of
  a new table, the first link takes all packets in a row exactly as long as no other value has come
  below 100 (`WrrLong.FirstTakesAll`).
- Bandwidths whose sum exceeds 32 bits can starve a tunnel for ever (`WrrServed.WrappedStarves`). Every
  tunnel is served within a bound while the others load the table below one, a tunnel of bandwidth b
  counting 1/(ceil(t/b)+1) with t the 32-bit total (`WrrServed.LoadServes`); inside 32 bits they always
  do (`WrrServed.BandwidthServes`), and in the starving example the load is exactly one.
- Packets out of range take pool entries without starting the drain timer. A full pool with the timer
  stopped is never left by packets alone, so that reordering is off until a tunnel changes status;
  from any other state packets and the timer recover (`ReceiveStall.RecoversIff`). A packet brings that
  state about if and only if it is out of range and takes the last entry while the timer is stopped
  (`ReceiveStall.StallsIff`), and 512 late packets after start-up do (`ReceiveStall.LateStall`).
- A reload that turns an authenticated fallback link into an ordinary one rebuilds neither the table
  nor the fallback mode; `SessionServed.ConfigureFitsIff` says exactly when that does no harm, and
  `SessionServed.ReloadMisfits` reaches the harm from start-up.
- A link whose `fallback_only` is 2 or more is never in the round robin, since the mode is only ever 0
  or 1 (`SessionTable.ExactMeans`).
- The loss window records a packet faithfully if and only if `LossWindow.InDomain` holds: shifts of
  64, shifts of an `int` by 31 or more, and the underflow of `seq_last - 63` fall outside
  (`LossWindow.ExactIffInDomain`). On a new tunnel 2 followed by 1 is enough
  (`LossWindow.SecondPacketLate`).
- A payload survives the wire if and only if `Wire.Carried` holds. An empty cleartext payload is
  rejected, and a cleartext one of more than 1472 bytes loses its end unless that is all zeros
  (`Wire.RoundTripIff`).
- `strnvis` returns the needed length if and only if the buffer has not exactly one byte or the string
  is empty (`Vis.StrNVis`).
- With nothing saved, a timestamp reply goes out if and only if the clock is in its first second
  (`Timing.FirstSecondReplies`).
- The child of the privilege separation exits on a device name of 15 bytes, which its parent accepts
  (`Privsep.GetAnswerPut`).
- A setting whose name is made of `Config.NameChar`s reads back from a file as it was written if and only
  if `Config.Kept` holds of its value (`Config.SettingReadsIff`). No double quote and no carriage return
  ever gets into a value. An unquoted value loses its blanks, so that the filter
  `sdsl = udp port 5060` of `man/mlvpn.conf.5.ronn` reads as `udpport5060`
  (`Config.FilterLosesBlanks`), and a value whose first bracket is '[' and whose next is ']', quoted or
  not, is taken for a section header.

Where code and documentation disagree the code is followed: the packet header has 28 bytes, not the
20 of the comment in `src/pkt.h`, a drain may return `max_pkts` packets, not only fewer, and a reload
with a `reorder_buffer_size` of 0 leaves the reorder buffer in use although the manual says that 0
disables it.

## Model

| member | source | states |
|---|---|---|
| `Words.MaskWraps` | src/reorder.c:79 | `& (size - 1)` wraps once around the ring when the size is a power of two |
| `Reorder.SlideViews` | src/reorder.c:119-168 | the masked rings slide exactly as the unrolled window, touching no other field |
| `Reorder.PlaceViews` | src/reorder.c:211-222 | a packet lands in the slot at its distance from the lowest sequence number, and no other slot changes |
| `Reorder.DrainViews` | src/reorder.c:231-258 | the masked rings drain exactly as the unrolled window, and min_seqn moves by the packets that did not come from the ready ring |
| `Window.SlideShifts` | src/reorder.c:119-168 | sliding shifts the window by exactly the count it reports, at most one window, and what it makes ready continues the stream in order |
| `Window.SlideConserves` | src/reorder.c:119-168 | with fewer packets than slots, sliding past a gap loses none of them and passes all the positions asked for |
| `Window.DrainFlows` | src/reorder.c:231-258 | a full or partial drain takes a front piece of one rising stream and leaves the rest rising |
| `Window.DrainConserves` | src/reorder.c:231-258 | what is held before is what came out followed by what is held after; with enough room nothing deliverable stays |
| `ReorderRuns.StepFlows` | src/reorder.c:119-258 | every insertion and every drain keeps slot head+i empty or holding min_seqn+i, and ready packets sorted below min_seqn |
| `ReorderRuns.DeliversInOrder` | src/reorder.c:119-258 | any interleaving of insertions and partial drains delivers at strictly increasing unwrapped positions, across 64-bit wraps |
| `ReorderRuns.InOrderIffPowerOfTwo` | src/reorder.c:78-79 | all runs are in order if and only if the size is a power of two |
| `ReorderHeld.InsertKeeps` | src/reorder.c:119-229 | for every size, after an insertion nothing is held but what was and the packet inserted, and the answer is -2 exactly two windows or more ahead |
| `ReorderHeld.DrainSplits` | src/reorder.c:231-258 | for every size, what is held is what comes out plus what stays, and every pointer that comes out is set |
| `ReorderHeld.InsideIsHeld` | src/reorder.c:78-81 | for a power of two the masked rings hold what the unrolled window holds |
| `ReorderLoss.InsertTakes` | src/reorder.c:170-229 | into a drained buffer whose size is a power of two an insertion answers -1 if and only if the size is 1 and the offset 1, and a stored packet displaces at most one with its own sequence number |
| `ReorderLoss.DrainDrains` | src/reorder.c:231-258 | a drain that may take more than is held leaves the lowest number missing and nothing ready, and every pointer returned is set |
| `ReorderRefusal.SlideCount` | src/reorder.c:139-163 | a drained window stops short of the positions asked for if and only if it has one slot, or all but its head are taken and more positions than slots are asked for |
| `ReorderRefusal.RefusedIff` | src/reorder.c:211-219 | for every size, the exact condition under which a drained buffer answers -1 |
| `ReorderRefusal.OddSizeRefuses` | src/reorder.c:139-140 | with every odd size the first packet a window ahead is answered -1, reached from a new buffer |
| `ReorderBuffer.Buffer.constructor` | src/reorder.c:60-101 | a new buffer has both rings empty and no initial sequence number |
| `ReorderBuffer.Buffer.Reset` | src/reorder.c:103-107 | a reset leaves the state of a new buffer of the same size |
| `ReorderBuffer.Buffer.MoveAllReady` | src/reorder.c:148-162 | the inner loop equals its recursive specification, including the packet dropped on a full ready ring |
| `ReorderBuffer.Buffer.SlideWindow` | src/reorder.c:119-168 | the nested loops equal their specification, min_seqn included |
| `ReorderBuffer.Buffer.Put` | src/reorder.c:170-229 | insertion equals its specification in all four branches |
| `ReorderBuffer.Buffer.Take` | src/reorder.c:231-258 | draining equals its specification, ready packets first |
| `Pool.ValidDistinct` | src/buffer.c:153-234 | when free and used partition the entries, no entry is used twice and the two lengths add up to the pool |
| `Pool.InitValid` | src/buffer.c:154-175 | a new pool has all its entries free, each once |
| `Pool.GetValid` | src/buffer.c:189-201 | taking an entry keeps the partition and the counter |
| `Pool.FreeValid` | src/buffer.c:218-234 | freeing a packet in use never reaches the fatal exit, removes exactly that packet and keeps the partition |
| `Pool.FreeKeepsOrder` | src/buffer.c:218-234 | freeing leaves the used list in arrival order |
| `Pool.ResetValid` | src/buffer.c:177-187 | a reset gives back every entry, whatever was in use |
| `ReceiverObjects.FreeBuffer.Get` | src/buffer.c:189-201 | the first free entry joins the end of the used list, or nothing changes |
| `ReceiverObjects.FreeBuffer.Free` | src/buffer.c:218-234 | the search finds the pointer if and only if it is in use, and removes only it |
| `ReceiverObjects.FreeBuffer.DrainUsed` | src/buffer.c:203-216 | the oldest used entry goes back to the head of the free list |
| `ReceiverObjects.FreeBuffer.Reset` | src/buffer.c:177-187 | all used entries go back and the counter is 0 |
| `Receive.DrainOrderedKeeps` | src/mlvpn.c:236-263 | the 1024-entry array never fills, every drained packet is freed without a fatal exit, and the invariant holds again |
| `Receive.RecvKeeps` | src/mlvpn.c:297-334 | each arrival is injected or in the used list exactly once, twice in the out-of-range branch, and the cross-module invariant is kept |
| `Receive.ForcedEmpties` | src/mlvpn.c:251-261 | a forced drain injects the used list in its order and leaves pool and reorder buffer empty together with the timer stopped |
| `Receive.RefusedKeeps` | src/mlvpn.c:314-317 | after a refused insertion everything in use is injected, the refused packet last, and the invariant holds |
| `Receive.ResizedKeeps` | src/config.c:165-190 | a reload that replaces the buffer keeps the pool, the account and the invariant |
| `Receive.NothingLost` | src/mlvpn.c:236-334 | for every size up to 2^28-16 and every run of packets, forced drains and reloads: no exit, injected plus used equals arrived plus strays as multisets, the used list is a subsequence of the arrivals, held packets are used entries with a running timer, and a power-of-two buffer is drained between events |
| `ReceiveOrder.InjectedInOrder` | src/mlvpn.c:236-334 | in every run, strays, unordered packets, full pools, forced drains and reloads included, what a power-of-two buffer released to the tun since it was last emptied is in strictly increasing stream order |
| `ReceiveOrder.TunOrderIffPowerOfTwo` | src/mlvpn.c:297-334 | that holds of all runs if and only if the size is a power of two |
| `ReceiveOrder.OvertakenReleases` | src/mlvpn.c:319-327 | with any other size a run of three packets, each drained at once, releases out of order |
| `ReceiveOrder.OvertakenInjects` | src/mlvpn.c:297-334 | and another injects 0, 1+p, 1 in just that order |
| `ReceiveExact.ExactRecovery` | src/mlvpn.c:297-334 | a power-of-two size and a stream whose packets, from the first arrival's position a on, come less than d ahead of any missing one, d at most a window and a plus d at most 512: exactly the stream from a on is released in order, the packets before a are injected as they come, each packet is injected once, nothing stays held, and for a = 0 the tun gets the stream itself |
| `ReceivePlayout.GivesUpLeast` | src/reorder.c:119-229 | the ideal play-out buffer gives up no position it need not: from the least window that reaches the new packet on, it passes only positions whose packets it plays, and keeps all packets behind them |
| `ReceivePlayout.SlideTo` | src/reorder.c:139-163 | a slide past a gap ends at the first gap at or after the positions asked for, and no later |
| `ReceivePlayout.AnswerIs` | src/reorder.c:176-229 | the answer told from stream positions: -2 exactly outside the two windows, -1 exactly for size 1 with one number skipped |
| `ReceivePlayout.StorePlays` | src/reorder.c:170-258 | an insertion followed by a drain releases exactly what the play-out buffer plays and leaves exactly what it keeps |
| `ReceivePlayout.RefinesPlayout` | src/mlvpn.c:236-334 | in every run, strays, full pools, forced drains and reloads included, a power-of-two buffer has released exactly what the play-out buffer played, in that order |
| `ReceiveStall.RecoversIff` | src/mlvpn.c:306-330 | from every sound state, packets and a running timer can lead to a free pool entry again if and only if the pool is not full with the timer stopped |
| `ReceiveStall.StallStays` | src/mlvpn.c:302-311 | in that state every run of packets leaves rings, pool and timer as they are |
| `ReceiveStall.StallsIff` | src/mlvpn.c:318-330 | a packet leads there if and only if it is out of range and takes the last entry with the timer stopped |
| `ReceiveStall.LateStall` | src/mlvpn.c:318-324 | for every size, one packet and 512 late ones after start-up lead there |
| `ReceiverObjects.Receiver.RecvData` | src/mlvpn.c:297-334 | the handler equals its specification in every branch, exits included |
| `ReceiverObjects.Receiver.DrainOrdered` | src/mlvpn.c:244-250 | the loop over the drained array equals its specification |
| `ReceiverObjects.Receiver.DrainForced` | src/mlvpn.c:251-258 | the forced drain equals its specification |
| `ReceiverObjects.Receiver.Reload` | src/config.c:169-190 | a new size gets a new buffer, the old size and 0 keep the one there is |
| `Wrr.MinIndexIsFirstLeast` | src/wrr.c:18-33 | if some value is below 100 the first of the least values is chosen |
| `Wrr.FirstByDefault` | src/wrr.c:18-33 | if no value is below 100 the first entry is chosen, whatever the values |
| `Wrr.AfterBounded` | src/wrr.c:60-80 | every value stays above -1 and at most 100/weight |
| `Wrr.PotentialGrows` | src/wrr.c:60-80 | the value rounded up plus time never falls, and grows by 100/weight rounded up, plus 1, for each choice of an entry while another waits |
| `Wrr.BoundedWait` | src/wrr.c:60-80 | an entry at or below zero waits k choices only if k(1-rho) < n-1, rho adding up 1/(ceil(100/weight)+1) over the others |
| `Wrr.GapBounded` | src/wrr.c:60-80 | from every reachable state an entry goes unchosen for fewer than T+1+(n-1)/(1-rho) choices |
| `WrrServed.LoadServes` | src/mlvpn.c:738-769 | weights computed from bandwidths over the whole list, the eligible tunnels in the table: while the load rho of the others, 1/(ceil(t/b)+1) each, is below one, from any number of choices after a reset each waits fewer than T+1+(n-1)/(1-rho) choices |
| `WrrServed.BandwidthServes` | src/mlvpn.c:738-769 | in particular for all bandwidths that add up inside 32 bits |
| `WrrServed.WrappedStarves` | src/mlvpn.c:742-751 | with 2^31, 2^31 and 1 the 32-bit total is 1, the load of the first two is exactly one, and the third tunnel is never chosen |
| `WrrDefault.DefaultChoice` | src/wrr.c:60-80 | with default weights the k-th choice after a reset is entry k mod min(n, 101) |
| `WrrDefault.RotatesIffFew` | src/wrr.c:60-80 | plain rotation if and only if n is at most 101 |
| `WrrDefault.StarvesIffBeyond` | src/wrr.c:60-80 | an entry is ever chosen if and only if its index is below 101 |
| `WrrLong.FirstRound` | src/wrr.c:60-80 | with periods of 100 and more a new table is gone through once, entry by entry |
| `WrrLong.FirstTakesAll` | src/wrr.c:18-80 | from then on the first entry takes every packet exactly as long as no other value has come below 100 |
| `WrrTable.Table.Reset` | src/wrr.c:36-58 | the table holds the eligible tunnels in list order at value 0, and fails exactly beyond 128 |
| `WrrTable.Table.Least` | src/wrr.c:18-33 | the scan loop returns the specified index |
| `WrrTable.Table.Choose` | src/wrr.c:60-80 | the in-place update equals the specified one and returns the chosen entry, or none from an empty table |
| `WrrTable.RecalcWeights` | src/mlvpn.c:738-769 | weights are shares of the 32-bit total, unchanged when a bandwidth is missing or the total wraps to 0 |
| `SessionRuns.EligibleListed` | src/wrr.c:36-58 | a reset takes each eligible tunnel once and no other, and all of them are up |
| `SessionRuns.UpCountIs` | src/mlvpn.c:1033-1047 | the count of tunnels up is the number of places in the list whose tunnel is up |
| `SessionTable.ResetExact` | src/wrr.c:36-58 | a reset makes the table hold exactly the links of the present mode that are authenticated, lossy and slow ones among the fallback links only |
| `SessionTable.ExactMeans` | src/wrr.c:44-48 | such a table holds no ordinary link that is lossy or slow, in fallback mode every fallback link that is up, and never a link whose `fallback_only` is 2 or more |
| `SessionRuns.UpKeeps` | src/mlvpn.c:964-993 | going up re-establishes the whole invariant |
| `SessionRuns.DownKeeps` | src/mlvpn.c:995-1031 | going down keeps the whole invariant, whether the tunnel was up or not |
| `SessionTable.UpExact` | src/mlvpn.c:964-993 | going up leaves the table exact, and fallback mode on exactly if there are fallback links and no ordinary link is up |
| `SessionTable.DownExact` | src/mlvpn.c:995-1031 | going down from up does the same |
| `SessionTable.SwitchIs` | src/mlvpn.c:1169-1186 | the fallback switch: mode 0 and an exact table while an ordinary link is unmarked, else mode 1 and an exact table if there are fallback links, else no change |
| `SessionTable.TimerIs` | src/mlvpn.c:1188-1255 | the periodic check: an expired link goes down, a link that is up is lossy or slow exactly at its tolerances, a client that is not up tries to connect; no other link changes, and mode and table follow |
| `SessionTable.LinkAfter` | src/mlvpn.c:995-1131 | the status each packet, error and check leaves the link it names in, every other link being left alone |
| `SessionTable.OptionIs` | src/config.c:350-353 | in every run the fallback option is what its last change said |
| `SessionTable.RebuiltExact` | src/mlvpn.c:964-1255 | in every run, right after a link came up, went down, was dropped, or changed its mark with a fallback available, the table holds exactly the links that carry traffic in the present mode |
| `SessionScripts.EveryRunTold` | src/mlvpn.c:964-1031 | in every run the last status script run for a link said that it is up if and only if it is listed and up |
| `SessionRuns.FlipKeeps` | src/mlvpn.c:1188-1232 | lossy and slow marks keep every table entry up, also where the fallback switch rebuilds nothing |
| `SessionRuns.RemoveKeeps` | src/mlvpn.c:707-733 | a tunnel that is down is in no table entry, so removing it keeps the invariant |
| `SessionRuns.EveryRun` | src/mlvpn.c:964-1255 | in every run: connected counts the tunnels up, initialized holds exactly when that is positive, tuntap scripts alternate, table entries are distinct listed tunnels that are up, no server waits in AUTHSENT |
| `SessionServed.SwitchFits` | src/mlvpn.c:1169-1186 | after the fallback switch every ordinary link in perfect order is in the table, and fallback mode is on only if there is none |
| `SessionServed.ConfigureFitsIff` | src/config.c:384-389 | a changed fallback setting keeps that property if and only if it does not make an authenticated link ordinary that is not already in the table with fallback mode off |
| `SessionServed.ReloadMisfits` | src/config.c:384-389 | reached from start-up: a lone fallback link that is made ordinary while up leaves fallback mode on |
| `SessionServed.HealthyLinksServed` | src/mlvpn.c:964-1255 | in every run whose reloads keep roles, each ordinary link in perfect order is in the round robin and fallback mode is on only while there is none |
| `SessionServed.ServedSinceUp` | src/mlvpn.c:964-993 | whatever reloads came before, the same holds from the next link that comes up on |
| `SessionRuns.ChosenIsUp` | src/mlvpn.c:1133-1139 | the tunnel chosen for a packet is listed and up |
| `SessionRuns.RunLives` | src/wrr.c:49-50 | the fatal exit for too many tunnels is not reached while at most 128 were added |
| `SessionObject.Status.UpdateStatus` | src/mlvpn.c:1033-1047 | the loop counts the tunnels up and finds the fallback mode |
| `SessionObject.Status.StatusUp` | src/mlvpn.c:964-993 | the handler equals its specification |
| `SessionObject.Status.StatusDown` | src/mlvpn.c:995-1031 | the handler equals its specification |
| `SessionObject.Status.ReceiveAuth` | src/mlvpn.c:1067-1103 | the handler equals its specification on both sides |
| `SessionObject.Status.SwitchToFallback` | src/mlvpn.c:1169-1186 | the search for a healthy tunnel equals its specification in all three outcomes |
| `SessionObject.Status.Flip` | src/mlvpn.c:1188-1232 | marking and clearing equal their specification |
| `Handshake.SessionServer` | src/mlvpn.c:1067-1094 | the server of the two-party model changes status as the session does |
| `Handshake.SessionClient` | src/mlvpn.c:1095-1102 | the client of the two-party model changes status as the session does |
| `Handshake.ClientIsLink` | src/mlvpn.c:1049-1131 | every status change of the client side is the one the session makes of the same event |
| `Handshake.ServerIsLink` | src/mlvpn.c:1049-1103 | and so is every one of the server side |
| `Handshake.PushKeepsNewest` | src/buffer.c:86-94 | the queues of the two-party model are the bounded ring, which keeps the newest |
| `Handshake.ClientUpNeedsServer` | src/mlvpn.c:1049-1131 | over a network that loses, duplicates and reorders, a client is up only if the server was up by then and the client's AUTH had been on the wire |
| `Handshake.ServerAnswers` | src/mlvpn.c:1067-1094 | in every reachable state an arriving AUTH brings the server up and queues the answer last, in a queue of at most 1024 that is emptied first if full |
| `Handshake.ClientUpNeedsAttempt` | src/mlvpn.c:1105-1131 | a client that was down is connected again only after a connection attempt in between |
| `Handshake.ClientUpByAnswer` | src/mlvpn.c:1095-1102 | a client comes up only by an AUTH_OK that arrives while it waits for one |
| `Handshake.NothingStale` | src/mlvpn.c:995-1031 | in every reachable state a side that is down has no challenge or answer of an earlier connection left to send |
| `Handshake.CanConnect` | src/mlvpn.c:1049-1131 | from every reachable state in which the client is not up, some continuation brings both sides up |
| `LossWindow.ExactIffInDomain` | src/mlvpn.c:265-281 | the next packet keeps "bit i set iff received or older than the reset" for every outcome of undefined shifts if and only if it is in the domain |
| `LossWindow.SecondPacketLate` | src/mlvpn.c:278-280 | on a new tunnel 2 and then 1 leaves the bit of 1 clear |
| `LossWindow.WindowExact` | src/mlvpn.c:265-281 | from a new tunnel, every run inside the domain keeps the window exact |
| `LossWindow.NeverAllLost` | src/mlvpn.c:1188-1208 | in every run bit 0 is set, the ratio is at most 98, and a tolerance of 99 or 100 never marks the link lossy |
| `LossWindow.RatioIs` | src/mlvpn.c:283-295 | while the window is exact the ratio is, in percent of 64 and rounded down, how many of the last 64 numbers since the reset did not come |
| `LossWindow.Meter.Record` | src/mlvpn.c:265-281 | the update equals its specification |
| `LossWindow.Meter.LossRatio` | src/mlvpn.c:283-295 | the loop counts the clear bits and scales them to percent |
| `Timing.StampIsTime` | src/timestamp.c:10-18 | a stamp is the clock modulo 65536, one ahead once per cycle, and never the sentinel |
| `Timing.LastHeld` | src/mlvpn.c:486-489 | what is held is the last stamp received, whatever was held before |
| `Timing.EchoMeasures` | src/mlvpn.c:486-504 | for unrelated clocks, and whatever other packets came before it or without a stamp after it, the sample is round trip less hold time modulo 65536, off by the slip of the two stamps |
| `Timing.EchoedOnce` | src/mlvpn.c:539-548 | between two receptions a saved timestamp is sent back at most once, the clock being past its first second |
| `Timing.FirstSecondReplies` | src/mlvpn.c:539-548 | with nothing saved a reply goes out if and only if 0 < now < 1000 |
| `Timing.EstimateIs` | src/mlvpn.c:493-503 | the estimates in closed form: all samples weighted with gain 1/8, and with gain 1/4 their distances from the smoothed time before each, as in section 2 of RFC 6298 |
| `Timing.LargeIgnored` | src/mlvpn.c:491-492 | samples of five seconds or more leave no trace in the estimates |
| `Timing.EstimateBounded` | src/mlvpn.c:493-503 | the smoothed time stays between the least and the greatest accepted sample and the variation between 0 and the greatest |
| `Timing.TimeoutBounded` | src/mlvpn.c:1257-1287 | whatever was measured, the drain timeout is positive, below 55 seconds and covers every link counted |
| `Timing.TimeoutIs` | src/mlvpn.c:1257-1287 | the timeout is 2.2 times the greatest estimate among the ordinary links that are up and measured, and 0.8 seconds if none is above zero |
| `Timing.AdjustTimeout` | src/mlvpn.c:1257-1287 | the loop over the tunnels equals the specified timeout |
| `PacketRing.WritesKeepNewest` | src/buffer.c:86-94 | any number of writes leaves exactly the newest packets in order |
| `PacketRing.PacketRing.constructor` | src/buffer.c:33-41 | a new ring is empty with the capacity asked for |
| `PacketRing.PacketRing.IsFull` | src/buffer.c:58-62 | the index test says exactly when the capacity is reached |
| `PacketRing.PacketRing.Write` | src/buffer.c:86-94 | a write appends and drops the oldest beyond capacity; its slot holds no packet that stays queued |
| `PacketRing.PacketRing.Read` | src/buffer.c:74-80 | a read takes the oldest; on an empty ring it makes the ring look full |
| `PacketRing.PacketRing.SendDisconnect` | src/mlvpn.c:1155-1167 | the ring it reads is never empty |
| `PacketRing.SendReady` | src/mlvpn.c:612-623 | the write callback sends the oldest packet of each queue that has one and never reads an empty ring; a failing send empties both queues |
| `Wire.HeaderRoundTrip` | src/pkt.h:27-39 | every header field is recovered from its 28 bytes, whatever follows |
| `Wire.RoundTripIff` | src/mlvpn.c:425-609 | what is read from a sent packet is what was meant, data sequence and nonce included, if and only if the payload is carried |
| `Wire.TrafficRoundTrips` | src/mlvpn.c:425-609 | all control packets and all payloads up to the tun limit of 1444 bytes pass both length checks and come back |
| `Wire.ReadIff` | src/mlvpn.c:425-485 | a datagram is accepted if and only if its length field is from 1 to 1500 and it opens under the nonce in its header or is cleartext data; version 0 is never reorderable |
| `Wire.NoncesDistinct` | src/mlvpn.c:532-534 | among the first 2^64 packets of a tunnel no nonce repeats |
| `Wire.NumberedInOrder` | src/mlvpn.c:525-535 | over any interleaving of tunnels, what is read from the k-th packet sent is that packet with, if it is data, the shared counter advanced by the data packets before it, else 0, and with the nonce of its tunnel advanced by the packets that tunnel sent before |
| `Privsep.TransferCompletes` | src/privsep.c:825-869 | without a failing call a transfer completes exactly when the calls move its length in all, however they cut it |
| `Privsep.MustRead` | src/privsep.c:825-845 | whatever the short and interrupted reads, the buffer gets exactly the next bytes, and a stream that ends or fails before is the exit |
| `Privsep.MustWrite` | src/privsep.c:849-869 | whatever the short and interrupted writes, the wire gets exactly the buffer, or a front part of it and the exit |
| `Privsep.GetPut` | src/privsep.c:228-457 | the parent recovers every field sent and stops at the request's end, or exits exactly when a limit is exceeded |
| `Privsep.StreamAligned` | src/privsep.c:546-770 | of any sequence of requests the parent reads back, one for one, all before the first that exceeds a limit |
| `Privsep.GetAnswerPut` | src/privsep.c:592-606 | the child recovers every answer, except that a device name of 15 bytes or more makes it exit |
| `Privsep.RunningIsSealed` | src/privsep.c:228-457 | once running, no byte stream changes the config or script path, opens another tun, opens another file or runs another script, or leaves that state |
| `Privsep.RunsOnlyChecked` | src/privsep.c:296-437 | from the start and over any byte stream, every script the parent runs was named by a request whose permission check came out well |
| `Privsep.ParentIs` | src/privsep.c:228-457 | from the start and over any bytes the parent handles the requests in them up to the first on which it exits, and is then running, has opened, run and remembered exactly what those requests say |
| `Privsep.LockSettles` | src/privsep.c:444-445 | from the lock to the exit nothing that was settled before it changes |
| `Config.SettingReadsIff` | src/configlib.c:74-406 | a line setting a name, quoted or not, with any value, blanks and comment, read by the file loop inside a section, adds exactly that binding if and only if the value is kept |
| `Config.ReadTidy` | src/configlib.c:99-141 | over any text, no quote and no end of line gets into a value |
| `Config.FilterLosesBlanks` | src/configlib.c:342-348 | the manual's unquoted filter reads without its blanks |
| `Config.RoundTrip` | src/configlib.c:40-451 | a file of headers, kept settings, blank lines and comments reads back as its bindings in order |
| `Config.LookupFirst` | src/configlib.c:496-520 | a lookup returns the first binding of the name in the section, or none if there is none |
| `ConfigReader.StripComment` | src/configlib.c:154-206 | the character loop keeps what its specification keeps |
| `ConfigReader.GetSection` | src/configlib.c:212-263 | the bracket loop equals its specification, errors included |
| `ConfigReader.ParseVariable` | src/configlib.c:269-406 | the quote and space loop equals its specification, errors included |
| `ConfigReader.File.ReadFile` | src/configlib.c:40-149 | the file loop collects the specified bindings |
| `ConfigReader.File.GetValue` | src/configlib.c:496-520 | the search loop returns the specified value |
| `Reload.Reconciled` | src/config.c:76-460 | after a reading the tunnel names are unique and exactly the sections other than general and filters |
| `Reload.EveryReload` | src/config.c:76-460 | the same after any sequence of reloads, for the last file read |
| `Reload.EndsIff` | src/config.c:76-460 | a reading ends the program if and only if some section lacks mode or password, bind port, or remote host or port, as its kind and the mode known by then demand |
| `Reload.NewFirst` | src/config.c:76-460 | a reading puts new tunnels before the old ones, the section that comes last first, and leaves those that stay in their order |
| `Vis.RoundTrip` | src/vis.c:56-139 | with the title flags every byte string, NULs included, is recovered from its encoding |
| `Vis.Injective` | src/setproctitle.c:131-132 | no two byte strings share an encoding |
| `Vis.StrVis` | src/vis.c:155-225 | the loop of strvis and strvisx produces the specified encoding |
| `Vis.StrNVis` | src/vis.c:168-209 | the output encodes the longest prefix that fits in whole characters, and the return value is the full length if and only if the buffer has not one byte or the string is empty |

## Left out

- Cryptography: `Wire.Cipher` is any pair that opens what it sealed under the same nonce and adds 16 bytes.
- Sockets, timers, tun devices, signals, forking, descriptor passing and clocks: they appear as events, parameters or log entries.
- Floating-point rounding: weights, round robin values and round-trip estimates are reals.
- Allocation failure and memory leaks.
- `src/control.c`, `src/filters.c`, `src/log.c`, `src/tool.c` and the platform files: status output, packet filters and glue.
- InjectedInOrder: takes each stored packet to be less than 2^64 ahead of the window and more than two windows short of 2^64 behind it, which 64-bit numbers cannot tell apart otherwise.
- RefinesPlayout: takes each packet that reaches the buffer to be as near to the window as InjectedInOrder does.
- NothingLost: sizes above 2^28-16, which the configuration takes, are not modelled: the 32-bit size of the allocation wraps there (src/reorder.c:91-92).
- LoadServes: which loads of one or more starve a tunnel depends on fractions and ties of the periods and is not determined beyond WrappedStarves.
- EveryRun: keepalive pacing, send queues and statistics are not part of the session state; the reorder drain at a status change is the forced drain of the receive path.
- HealthyLinksServed: excludes reloads that change the role of an authenticated link, which ConfigureFitsIff and ReloadMisfits treat; ServedSinceUp takes up after them.
- Reconciled: of a tunnel only the name is followed through a reading; its other settings reach the session as `Configure` events, and a changed address as `SocketError`.
- GetPut: the address hints are one fixed block of eight bytes, and words are written with the high byte first where the source uses the order of the host, which both sides share.
- Injective: speaks of the flags the process title uses; `Vis.Encode1` models all flags.
- The drain timer before its interval is first set, one event loop turn after start.
- A guarantee that lossy links are a last resort: the fallback switch counts disconnected tunnels as healthy, so the code does not give it.
