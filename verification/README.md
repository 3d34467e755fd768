# A verified model of the hard parts of the rtl88x2bu driver

The driver runs an 802.11 station or access point on a Realtek USB chip. This project models, in
Dafny, the parts of it where correctness depends on more than one function: a command queue shared
by concurrent callers and a thread, the beamforming sounding scheduler, the NAT2.5 address table
and the frame rewriting of the bridge, the station accounting of the access point, the in-place
editing and parsing of information elements, and the expiry of silent stations.

Each part has two layers. The first is on values: what an operation does to a state, a list or a
string of bytes, and theorems about it over all inputs or all runs. The second, where the driver
works in place, is a class or a set of methods over arrays and linked entries that does what the C
code does step by step and is proved against the first layer.

| files | part of the driver |
|---|---|
| CmdMachine, CmdSafety, CmdTheorems, CmdOutcome | command queue, command thread, submit context handshake |
| Sounding, SoundingLists, SoundingTheorems, SoundingHandler | beamforming sounding periods |
| Nat25Spec, Nat25Table | NAT2.5 table: hash chains, ageing, sweeps |
| Skb, VlanTag, PppoeTags, PppoeRelay | socket buffers, 802.1Q tags, PPPoE relay tags |
| ApStations, ApMode | station flags, counters, HT operation mode, ERP bits |
| Elements, Tim, BeaconIes | element lists, TIM encoding, beacon editing |
| P2pSpec, P2pIes | deletion of P2P attributes |
| Chbw | merging of channel and bandwidth requests |
| Rsne, RsneParser | RSN element format and parser |
| Expiry, ExpiryLoops | expiry of associated stations |

`dafny verify dfyconfig.toml` checks everything.

## What is shown not to hold, and when it does

* Memory safety of the command handshake holds over all interleavings exactly if every waiting
  request fits the command buffer (`MemorySafeIffSized`); an oversized one is freed by
  `rtw_enqueue_cmd` while its caller still detaches it (`OversizedFaults` gives the schedule).
* After the thread's final drain a command can still be stranded exactly if some producer was
  already past the filter (`StrandedIffInFlight`), which does happen (`InFlightAtExit`); it then
  stays in the queue for good (`StrandedForever`).
* The wrapping age comparison is right for half a counter period after the ageing time and wrong
  for the rest of the period (`ExpiredExactly`).
* The relay tag goes out as a well-formed list only on a big-endian host, because its length is
  read without a byte swap. A little-endian host with tail room for 256 times the tag's data sends
  the tag followed by that many bytes from behind the driver's buffer, and with less room it drops
  the request (`MarkRequest`, `AddTag`). An empty original relay tag is not restored
  (`RelayRoundTrip`).
* Greenfield, 20 MHz and 40 MHz-intolerance flags survive a rejoin that no longer announces them
  (`JoinFlags`).
* `rtw_add_bcn_ie` does nothing unless the element it replaces, or the one it goes behind, exists
  and is not empty (`AddKeepsIff`), and an empty element that was added is not removed again
  (`AddUndone`).
* The TIM is the shortest encoding except with group traffic and no traffic in octets 0 and 1
  otherwise (`ShortestIff`), where starting further on would do.
* The scan for a P2P attribute ends exactly if it does not come to a foreign attribute whose length
  field is 0xFFFD (`ScanEndsIff`), and the deletion is the filter it should be exactly if the scan of
  what follows the last whole attribute ends without a match of positive length (`DeletedIff`,
  `NestedFilterIff`); `SpinExample` and `WrapExample` are the two ways to miss it.
* `update_BCNTIM` on a list too short for the offset it computes leaves bytes of the old buffer
  before the TIM and cuts as many from its end (`UpdateTim`).
* The RSN parser also accepts a list count without its list, and anything behind the last field
  (`ElementAcceptsIff` says exactly what).

## Model

| member | source | states |
|---|---|---|
| CmdTheorems.MemorySafeIffSized | core/rtw_cmd_queue.c:189-228 | over every interleaving of callers, thread and environment no freed command, dead stack frame or freed side buffer is touched, the command buffer is not overrun and no handler runs twice, if and only if every waiting request fits MAX_CMDSZ |
| CmdTheorems.OversizedFaults | core/rtw_cmd_queue.c:204-219 | a schedule in which an oversized waiting request makes its caller write to a freed command |
| CmdTheorems.CompletedXorDetached | core/rtw_cmd.c:261-274 | a returned waiting call was completed by the thread or detached by its caller, never both, detached exactly if its status was still submitted, and no live command points at its frame |
| CmdTheorems.OutcomeFinal | core/rtw_cmd_thread.c:280-287 | no later step of anybody changes the outcome of a settled handshake |
| CmdTheorems.MutexReleased | core/rtw_cmd_thread.c:280-301 | whoever holds an adapter's mutex is never blocked and lets go of it within five of its own steps |
| CmdTheorems.DisposedInOrder | core/rtw_cmd_thread.c:179-306 | commands are disposed of in acceptance order despite requeues to the head, none twice; the rest is in hand or queued; an accepted command is live until then and its side buffer does not outlive it |
| CmdTheorems.RefusedFreed | core/rtw_cmd_queue.c:204-219 | a command that was refused is freed with its side buffer and was neither run nor completed |
| CmdTheorems.NoLostWakeup | core/rtw_cmd_thread.c:151-206 | when the thread waits with a non-empty queue, the semaphore is up, or a producer is about to raise it, or the head was requeued for power save |
| CmdTheorems.ExitFinal | core/rtw_cmd_thread.c:308-345 | an empty queue with nobody past the filter stays empty after the thread's exit |
| CmdTheorems.StrandedIffInFlight | core/rtw_cmd_thread.c:308-345 | after the exit some continuation strands a command if and only if a producer was past the filter |
| CmdTheorems.InFlightAtExit | core/rtw_cmd_thread.c:308-345 | for every request that fits the buffer, a schedule that ends with the thread gone, the queue empty and the request past the filter |
| CmdTheorems.StrandedForever | core/rtw_cmd_thread.c:308-345 | a command in the queue of an exited thread is live, undisposed and not run in every continuation; its submit context is never completed, and a caller that waited for it has detached it |
| CmdTheorems.CleanExit | core/rtw_cmd_thread.c:308-345 | at exit with an empty queue every accepted command is disposed of and every waiting caller's context settled |
| CmdSafety.NextInv | core/rtw_cmd_thread.c:179-306 | every step of every party keeps the invariant that ties queue, thread, mutexes and calls together |
| CmdSafety.RunInv | core/rtw_cmd_thread.c:308-345 | the invariant holds in every reachable state |
| CmdSafety.CallerMoveOk | core/rtw_cmd.c:261-274 | every step of a caller keeps what relates its call to where its command is, and touches no dead memory |
| CmdSafety.HandleOk | core/rtw_cmd_thread.c:200-306 | every phase of the thread's work on a command keeps what relates the command to its call, and touches no dead memory |
| CmdOutcome.OutcomeTold | core/rtw_cmd_thread.c:208-345 | in every run of a memory-safe program: a handler runs only for a command that is in the table with one and fits the buffer, and never for one the drain took; a completed submit context says dropped exactly if the drain took the command, success exactly if its handler ran and succeeded, and error otherwise |
| CmdOutcome.ProcessDecides | core/rtw_cmd_thread.c:212-242 | a command the thread has taken goes on to be executed, after the power check if it needs I/O, exactly if it fits, has a handler and passes the filter; every other is acknowledged as an error and passed over |
| CmdOutcome.AliveDecides | core/rtw_cmd_thread.c:247-265 | the power check leads to the execution or puts the command back at the head of the queue |
| CmdOutcome.ExecuteRuns | core/rtw_cmd_thread.c:271-287 | the execution runs a command that has not been run, and its result is what is reported |
| CmdOutcome.PassedOverForever | core/rtw_cmd_thread.c:267-306 | a command that was passed over is not run in any continuation |
| CmdOutcome.DrainPassesOver | core/rtw_cmd_thread.c:308-345 | a command that the drain takes is passed over and acknowledged as dropped |
| CmdOutcome.NextOutcomes | core/rtw_cmd_thread.c:208-345 | every step of every party keeps status, history and place of every command in agreement |
| Sounding.ListUpToOk | core/rtw_beamforming.c:714-799 | listing keeps the sounding lists within bounds, ascending and so duplicate free |
| SoundingLists.WhoIsListed | core/rtw_beamforming.c:714-799 | an entry is listed for single-user sounding exactly if it is in use, added and due, has no multi-user capability but a single-user one, is to be deleted or applies and is not suspended, and fewer than two such entries precede it; for multi-user sounding exactly if it is due, capable and applies, and fewer than six precede it; a listed entry not being deleted restarts as a candidate, any other added one counts down |
| SoundingLists.ListUpToChooses | core/rtw_beamforming.c:727-785 | after any number of turns both lists hold exactly those entries, each at the position given by those before it, the rest of a list is empty, and the entries not ready are counted |
| SoundingLists.ListsFrom | core/rtw_beamforming.c:714-799 | the same for a whole pass, with the counts that decide the return code |
| SoundingTheorems.NextOk | core/rtw_beamforming.c:801-948 | every event (command, answer, both timers, reinitialisation, change of an entry) keeps the invariant of a period |
| SoundingTheorems.SoundedOnce | core/rtw_beamforming.c:801-948 | in every run from any entries and minimum period, within a period, each single-user entry is sounded at most once and only if listed, multi-user sounding starts at most once and last, after all listed single-user entries |
| SoundingTheorems.SoundAdvances | core/rtw_beamforming.c:850-948 | starting the next sounding leaves fewer to come, or ends the period |
| SoundingTheorems.DownAdvances | core/rtw_beamforming.c:1733-1792 | every answer, through the mutual recursion of handler and answer, leaves fewer soundings to come, or ends the period |
| SoundingTheorems.TimeoutAdvances | core/rtw_beamforming.c:1017-1047 | a sounding that times out leaves fewer soundings to come, or ends the period |
| SoundingTheorems.AheadStep | core/rtw_beamforming.c:801-1047 | every answer, timeout and handler turn after a timeout uses up some of what a period still has before it, or ends it |
| SoundingTheorems.OtherStep | core/rtw_beamforming.c:950-1014 | every other step, entry and minimum-period changes and both timers included, gives nothing back |
| SoundingTheorems.PeriodEnds | core/rtw_beamforming.c:801-1047 | in any run at all, the answers, timeouts and handler turns of a period are at most two for each sounding that remains and two for the one under way, and after that many the period is over |
| SoundingTheorems.SoundMarks | core/rtw_beamforming.c:850-948 | going on to the next sounding counts no failure, takes the delete mark off exactly the marked entries sounded on the way, and never waits for an entry being deleted |
| SoundingTheorems.AnswerCounts | core/rtw_beamforming.c:1733-1792 | success clears the fail count of the entry, failure takes off its delete mark or else counts in five bits; no other count changes |
| Sounding.MinPeriodDivides | core/rtw_beamforming.c:637-669 | with positive periods below 0xFFFF the recomputed minimum is attained, bounds all entries in use and is not zero, so restarting a count divides by no zero |
| SoundingHandler.Beamforming.UpdateMinPeriod | core/rtw_beamforming.c:637-669 | after a leave the minimum period is that of the entries in use, and a join only lowers it or sets it |
| SoundingHandler.Beamforming.ResetVars | core/rtw_beamforming.c:682-704 | the loop clears lists and marks as the specification says |
| SoundingHandler.Beamforming.GetList | core/rtw_beamforming.c:714-799 | the listing loop lists exactly the entries that are due, want it and find room, restarts or counts down every entry accordingly, and returns 0, -2 or -1 by whether some entry wants to be sounded or else is not ready |
| SoundingHandler.Beamforming.Handler | core/rtw_beamforming.c:801-948 | the handler, recursion included, terminates and takes the object to the specified state |
| SoundingHandler.Beamforming.SoundingDown | core/rtw_beamforming.c:1733-1792 | recording an answer and going on to the next sounding terminates and takes the object to the specified state |
| Nat25Spec.ExpiredExactly | core/rtw_br_ext.c:141-158 | when the wrapping comparison of ages is true, in terms of the time that really passed |
| Nat25Spec.InsertChainOk | core/rtw_br_ext.c:437-472 | insertion keeps a chain duplicate free and acts as a map update on it |
| Nat25Spec.LookupChainOk | core/rtw_br_ext.c:363-434 | a lookup only counts one more use, and only of an unexpired entry |
| Nat25Spec.SweepGet | core/rtw_br_ext.c:591-676 | a sweep takes one use from each expired entry, drops those without any left and keeps all others |
| Nat25Spec.Refines | core/rtw_br_ext.c:291-676 | every operation keeps the table well formed and acts on the map of addresses as specified |
| Nat25Spec.RunRefines | core/rtw_br_ext.c:291-676 | after any sequence of operations the table is the map those operations give |
| Nat25Spec.FreedOnNthSweep | core/rtw_br_ext.c:591-676 | an expired, untouched entry with use count n is freed on exactly the n-th sweep |
| Nat25Spec.UnexpiredSurvives | core/rtw_br_ext.c:591-676 | a sweep neither frees nor changes an unexpired entry |
| Nat25Table.HashLink | core/rtw_br_ext.c:330-344 | the entry becomes the head of a chain whose next and pprev links are consistent; other buckets are untouched |
| Nat25Table.HashUnlink | core/rtw_br_ext.c:347-360 | the entry leaves its chain at any position, links stay consistent, other buckets are untouched |
| Nat25Table.FindIn | core/rtw_br_ext.c:1289-1312 | the walk finds the entry with the key, or none exists in the chain |
| Nat25Table.Nat25.Insert | core/rtw_br_ext.c:437-472 | on the linked structure, insertion is the specified table operation and the shortcut stays null or live |
| Nat25Table.Nat25.LookupAndReplace | core/rtw_br_ext.c:363-434 | a lookup finds the key exactly if the map holds it, rewrites the destination address exactly if the entry is unexpired, and is the specified table operation |
| Nat25Table.Nat25.Expire | core/rtw_br_ext.c:591-676 | a sweep that unlinks and frees while it walks is the specified table operation and leaves the shortcut null or live |
| Nat25Table.Nat25.Cleanup | core/rtw_br_ext.c:562-588 | all chains empty, nothing linked, shortcut null |
| SkbBuffer.Copy | core/rtw_br_ext.c:101-139 | memmove with any overlap is the move of the original bytes |
| SkbBuffer.Skb.PullAndMerge | core/rtw_br_ext.c:120-139 | the given bytes are taken out of the frame, or the call fails and nothing changes |
| VlanTag.Strip | core/rtw_br_ext.c:1141-1147 | the overlapping word copies remove exactly the four tag bytes |
| VlanTag.Restore | core/rtw_br_ext.c:1178-1184 | the copies back put the tag behind the addresses again |
| VlanTag.HandleFrame | core/rtw_br_ext.c:1117-1193 | a tagged unicast frame is untagged, translated and tagged again with the same bytes, for every translation that does not lengthen it |
| VlanTag.TagRoundTrip | core/rtw_br_ext.c:1137-1184 | inserting and removing a tag are inverse to each other |
| PppoeTags.EchoComesBack | core/rtw_br_ext.c:932-972 | a reply echoing a marked tag at any position yields the client's address and what followed it in the tag |
| PppoeTags.RelayRoundTrip | core/rtw_br_ext.c:861-972 | the original relay tag, or none, is restored and the client's address recovered if and only if the original tag was not empty |
| PppoeTags.OthersKept | core/rtw_br_ext.c:861-897 | all other tags of a request go out unchanged and in order |
| PppoeTags.FitsIff | core/rtw_br_ext.c:861-877 | a request is refused for its old tag exactly if the first relay tag holds more than 28 bytes |
| PppoeRelay.FindTag | core/rtw_br_ext.c:83-98 | on any frame with a PPPoE header, where the walk over the tag headers ends: at a tag of the kind, at the end of the tags, or behind the frame |
| PppoeRelay.WalkFinds | core/rtw_br_ext.c:83-98 | on a well-formed tag list the walk finds the first tag of the kind, or none exists, and stays inside the frame |
| PppoeRelay.AddTag | core/rtw_br_ext.c:101-118 | without tail room for the length as the host reads it nothing happens; otherwise that many bytes, the tag and whatever follows it in memory, go in front of the tags and the header's 16-bit length grows by as many |
| PppoeRelay.DeleteTag | core/rtw_br_ext.c:878-885 | the tag is cut out of the buffer and the length corrected |
| PppoeRelay.MarkRequest | core/rtw_br_ext.c:861-897 | when a PADI or PADR goes out marked, when it goes out with stray bytes behind the mark, and when it is refused, each by an exact condition on old tag, byte order and room; and what the frame holds in each case |
| PppoeRelay.ShrinkTag | core/rtw_br_ext.c:963-972 | the eight marking bytes leave the tag and both lengths follow |
| PppoeRelay.UnmarkReply | core/rtw_br_ext.c:932-972 | a PADO or PADS with a marked tag gets the client's address and its original tag; any other is refused unchanged |
| ApStations.CountersExact | core/rtw_ap.c:2121-2409 | over every run of joins, rejoins, coexistence reports and leaves each num_sta counter is the number of stations with its flag, the warning of the leave path is unreachable, and the ERP protection bits are set exactly while some station is non-ERP |
| ApStations.OpModeTracksStations | core/rtw_ap.c:2018-2087 | after every join and leave of every run the operation mode is the one the stations then present call for |
| ApStations.JoinFlags | core/rtw_ap.c:2121-2312 | what a join leaves in the station's flags, given those before; other stations are untouched |
| ApStations.UpdateErpBits | core/rtw_ap_bcn_update.c:62-75 | comparing the counter with one is enough, with exact counters, at the transitions where the writer runs |
| ApStations.NextOk | core/rtw_ap.c:1917-1975 | every event keeps counters, flags and ERP bits in agreement |
| ApStations.ReportsNoted | core/rtw_ap.c:1917-1975 | in every run the 20 MHz request is noted exactly if some report of a station then known asked for it without claiming intolerance, and the channel report exactly if such a station reported channels |
| ApStations.CoexMarks | core/rtw_ap.c:1940-1946 | a report of intolerance marks exactly its sender, and no other report marks anyone |
| ApMode.AccessPoint.StartApMode | core/rtw_ap.c:2711-2751 | counters and derived state start from zero |
| ApMode.AccessPoint.HtOperationUpdate | core/rtw_ap.c:2018-2087 | with HT on the masked writes give the word the wanted fields and leave its other bits alone, and the result is zero exactly if the word is unchanged |
| ApMode.AccessPoint.UpdateBcnErpInfo | core/rtw_ap_bcn_update.c:45-84 | the first byte of the ERP element, wherever it is in the beacon's buffer, gets the bits the counters call for; no other byte of the list changes |
| ApMode.AccessPoint.OnStaJoin | core/rtw_ap.c:2121-2312 | the branches of the join, down to the operation mode word and the ERP byte in the buffer, do what the value model says |
| ApMode.AccessPoint.OnStaLeave | core/rtw_ap.c:2317-2409 | every flag of the station is cleared, with its counter, as the value model says, and the station is forgotten |
| ApMode.AccessPoint.OnBssCoex | core/rtw_ap.c:1917-1975 | a 20/40 coexistence report raises the intolerance flag once per station, or notes the width request or the channel report |
| Elements.Spliced | core/rtw_ap_bcn_ie.c:104-165 | replacing bytes between element boundaries is replacing elements |
| Elements.AddedIsFirst | core/rtw_ap_bcn_ie.c:104-165 | wherever an added element ends up, a search for its id finds it |
| Elements.AddThenRemove | core/rtw_ap_bcn_ie.c:104-205 | for every list and element: removing undoes adding if and only if the addition put in a new, non-empty element, or did nothing and nothing non-empty of that id is there |
| Elements.AddInserts | core/rtw_ap_bcn_ie.c:114-165 | an element whose id is not met goes between the smaller ids at the front and the next larger one, if the element before it exists and is not empty |
| Elements.AddKeepsIff | core/rtw_ap_bcn_ie.c:114-146 | adding changes nothing exactly if the element met is empty or already the one to be added, or none is met and the element before the place is empty or missing |
| Elements.AddUndone | core/rtw_ap_bcn_ie.c:104-205 | removing undoes adding exactly under a condition on the ids and data around the place where the scan stops |
| Elements.AddKeepsOrder | core/rtw_ap_bcn_ie.c:114-165 | a list in ascending order of ids stays in order |
| Elements.AddReplaces | core/rtw_ap_bcn_ie.c:114-130 | when the scan meets the id only that element changes, and only if it is not empty |
| Elements.MatchesWhenSorted | core/rtw_ap_bcn_ie.c:114-130 | on a list in ascending order the scan meets the id exactly if it is there |
| Elements.OffsetRight | core/rtw_ap_bcn_ie.c:58-77 | the computed offset is right for a list that starts SSID, rates, DS |
| Elements.TimSwapped | core/rtw_ap_bcn_ie.c:43-54 | replacing the TIM leaves exactly the new one and all other elements as they were |
| Elements.TimInserted | core/rtw_ap_bcn_ie.c:55-78 | inserting the TIM before any other TIM leaves exactly the new one and all other elements as they were |
| Tim.SetTimIe | core/rtw_ap_rest.c:30-63 | the loops and writes give the element of the specified partial bitmap |
| Tim.RoundTrip | core/rtw_ap_rest.c:30-63 | a station reads the bitmap back bit for bit, from an even octet on |
| Tim.ShortestIff | core/rtw_ap_rest.c:37-53 | no encoding with the same meaning is shorter, if and only if the bitmap is not in one named family |
| BeaconIes.Bss.GetIe | core/rtw_ieee80211.c:253-277 | the walk returns the first element with the id, or none exists |
| BeaconIes.Bss.FindSlot | core/rtw_ap_bcn_ie.c:114-130 | the scan stops at the specified place in the list |
| BeaconIes.Bss.AddIe | core/rtw_ap_bcn_ie.c:104-165 | whether the result fits the buffer, and if so that the buffer holds the specified list afterwards, with the right length |
| BeaconIes.Bss.RemoveIe | core/rtw_ap_bcn_ie.c:167-205 | the buffer holds the list without the first element of that id, unless that one is empty or missing, with the right length |
| BeaconIes.Bss.UpdateTim | core/rtw_ap_bcn_ie.c:26-102 | whether the result fits, and if so: the list with its TIM replaced; or the TIM at the computed offset, between two elements wherever that is a boundary; or, if the offset is behind the end, by at most three bytes, the TIM shifted and cut by as many |
| P2pSpec.WithoutDrops | core/rtw_ieee80211_rest.c:1388-1428 | dropping the bytes is dropping the attributes with that id; whatever follows the last whole attribute stays |
| P2pSpec.CutFirst | core/rtw_ieee80211_rest.c:1396-1420 | cutting out the first occurrence leaves the same ones to be cut |
| P2pSpec.ScanEndsIff | core/rtw_ieee80211.c:2138-2162 | the scan with its 16-bit length sum ends if and only if it does not come to an attribute that makes it spin |
| P2pSpec.SpinExample | core/rtw_ieee80211.c:2138-2162 | a three-byte body on which the scan for another id, and the deletion, do not end |
| P2pSpec.DeletedIff | core/rtw_ieee80211_rest.c:1388-1428 | with its 16-bit lengths the deletion drops exactly the attributes of the id if and only if the scan of what follows the last whole attribute ends without a match of positive length |
| P2pSpec.WrapExample | core/rtw_ieee80211_rest.c:1388-1428 | a three-byte body without a whole attribute from which the deletion removes one byte |
| P2pSpec.UnwrappedRestOk | core/rtw_ieee80211.c:2138-2162 | without a length field of 0xFFFD or more behind the whole attributes the deletion is the filter, whatever the id |
| P2pSpec.NestedFilterIff | core/rtw_ieee80211_rest.c:1442-1498 | on every list the deletion comes back with the nested filter if and only if every P2P element satisfies that condition |
| P2pSpec.NestedFilter | core/rtw_ieee80211_rest.c:1442-1498 | what the nested filter is: same elements in the same order, P2P elements with their attribute lists filtered, all else as it was |
| P2pSpec.DroppedIs | core/rtw_ieee80211_rest.c:1388-1428 | no attribute with the id is left and every other occurs as often as before |
| P2pIes.CloseGap | core/rtw_ieee80211_rest.c:1412-1413 | overlapping move and zero fill take the bytes out of the buffer's first part |
| P2pIes.GetP2pAttr | core/rtw_ieee80211.c:2120-2163 | on every body the walk finds what the scan with 16-bit lengths finds, or is recognised as endless |
| P2pIes.GetP2pIe | core/rtw_ieee80211.c:2065-2107 | the walk returns the first element whose six bytes look like a P2P element, or none does |
| P2pIes.SeenIs | core/rtw_ieee80211.c:2083-2104 | these are the P2P elements and possibly vendor elements with fewer than four data bytes |
| P2pIes.DelP2pAttr | core/rtw_ieee80211_rest.c:1388-1428 | on every body the loop ends with what the deletion leaves of the element, its length byte right and zeros where it was longer, or is recognised as endless |
| P2pIes.BssDelP2pAttr | core/rtw_ieee80211_rest.c:1442-1498 | on every well-formed list the outer loop comes back exactly if no P2P element makes the deletion hang, with every element as the deletion leaves it and the right length |
| Chbw.OffsetFor | core/rtw_rf_rest.c:344-413 | an offset that is found is missing exactly for 20 MHz; otherwise the given one stays |
| Chbw.OffsetIs | core/rtw_rf_rest.c:344-413 | which channel numbers have a secondary channel, and on which side |
| Chbw.SyncChbw | core/rtw_ieee80211_rest.c:831-877 | the in-place updates give the specified request and group; for the usual widths the request gets the width possible on its channel exactly if it asks for 20 MHz, the group is wider, it brings an offset or the channel number has a secondary one, and 20 MHz otherwise; the offset is the group's or the side the channel number gives |
| Chbw.SyncedOk | core/rtw_ieee80211_rest.c:811-877 | after one sync both are grouped, the group has the larger width and keeps channel and offset |
| Chbw.SyncedWidth | core/rtw_ieee80211_rest.c:831-877 | when a request keeps its width and when it drops to 20 MHz, and which offset it gets, by widths and channel number |
| Chbw.SyncAll | core/rtw_ap.c:3413-3433 | the loop computes the union and every synced request |
| Chbw.UnionGrows | core/rtw_ap.c:3413-3433 | the union never narrows and keeps its offset once it is 40 MHz or wider |
| Chbw.UnionCovers | core/rtw_ap.c:3413-3433 | every request is grouped with the final union, no wider than it, and syncing again changes nothing |
| Chbw.UnionTight | core/rtw_ap.c:3413-3433 | the final union is the group itself or one of the synced requests |
| Chbw.UnionWide | core/rtw_ap.c:3413-3433 | the union is wider than 20 MHz exactly if the group was or some request above 20 MHz brings an offset or needs none |
| Chbw.RequestWidth | core/rtw_ap.c:3413-3433 | the width each request gets in the fold, by the requests up to it |
| Chbw.UnionWidth | core/rtw_ap.c:3413-3433 | the width of the union is the largest of these and of the group |
| Chbw.UnionOffset | core/rtw_ap.c:3413-3433 | the offset of a union of a 20 MHz group is the side given by the first request that opens it |
| Rsne.ReadsBack | core/rtw_ieee80211_rest.c:340-434 | for any schema of fields, encoding any legal prefix and parsing gives exactly these fields |
| Rsne.AcceptsOnly | core/rtw_ieee80211_rest.c:340-434 | whatever is accepted is such an encoding |
| Rsne.ElementReadsBack | core/rtw_ieee80211_rest.c:340-434 | encoding any legal prefix of the six fields as a whole element and parsing it gives exactly these fields |
| Rsne.ElementAcceptsIff | core/rtw_ieee80211_rest.c:340-434 | an element is accepted if and only if it encodes a legal prefix, up to the named tails |
| RsneParser.RsneInfoParse | core/rtw_ieee80211_rest.c:340-434 | the pointer walk accepts the same elements, and every field and list it returns lies inside the element and holds the parsed field |
| RsneParser.OrSuites | core/rtw_ieee80211_rest.c:454-477 | the loop gives the bits of all suites of the list |
| RsneParser.ParseWpa2Ie | core/rtw_ieee80211_rest.c:436-493 | accepts exactly the elements the format accepts; the bit of every cipher and key management type is set in its mask exactly if that suite is in the field, no other bit is, BIP-CMAC-128 stands for a missing group management cipher, and the two options are bits 6, 7 and 10, 11 of the capabilities |
| RsneParser.ReportedTells | core/rtw_ieee80211_rest.c:436-493 | the same for every legal prefix of fields |
| RsneParser.BitsAreMask | core/rtw_ieee80211_rest.c:454-477 | OR-ing the suites of a list gives the mask of the listed types, for any table without repeated bits |
| RsneParser.OrderIrrelevant | core/rtw_ieee80211_rest.c:454-477 | only which suites are listed matters |
| Expiry.RemovedOnTime | core/rtw_ap_expire_chk_alive.c:60-111 | a silent station with E rounds left is there before round E+3 and gone from it on; its timer and try count in every round before |
| Expiry.OnlySilentRemoved | core/rtw_ap_sta_alive.c:28-74 | in any run a station that is removed was silent and unacknowledged in the last four rounds |
| Expiry.SpecNeverRemoves | core/rtw_ap_expire_asoc_list.c:73-79 | with wifi_spec no run removes a station |
| Expiry.PassiveRemoval | core/rtw_ap_expire_chk_alive.c:60-111 | without active checks a quiet station goes exactly in the round in which its timer ends, unless it sleeps unmarked |
| Expiry.Restored | core/rtw_ap_expire_asoc.c:22-37 | a packet since the last round, or an answered probe, gives back the full timer and zeroes the try count |
| ExpiryLoops.StaPriv.AsocListScan | core/rtw_ap_expire_asoc_list.c:35-159 | the scan updates every listed station as specified and collects exactly those due |
| ExpiryLoops.StaPriv.ChkAlive | core/rtw_ap_expire_chk_alive.c:60-129 | the check and the free loop remove exactly the stations that failed and update the others |
| ExpiryLoops.StaPriv.Expire | core/rtw_ap_expire_asoc_list.c:35-159 | both loops together give every listed station its own round, keep the order of the rest, the count equal to the length and everybody else untouched |

## Left out

- HAL registers, power save, firmware commands, frame transmission and cfg80211: foreign effects, no-ops or arbitrary answers in the model.
- Concurrency outside the command queue: the other parts are modelled as their locks make them, one call at a time.
- Command handlers and callbacks: a handler is a step with an arbitrary result; a command handed to its callback counts as disposed of.
- Sizes in the command queue: only cmdsz is modelled; the response buffer and the aligned allocation of the command buffer are not.
- Joining of new beamformees during a sounding period: entries and the minimum period may change at any time, but a join, which clears the mark of its entry, is not a step.
- Choice of the NAT2.5 key: keys are strings of network address bytes; how ARP, IP, IPX, AppleTalk and IPv6 frames yield them, DHCP broadcast flags and IPv6 neighbour discovery are not modelled.
- VlanTag.HandleFrame: the translation of the frame is any function that does not lengthen it, instead of the cases of nat25_db_handle.
- PppoeRelay.MarkRequest: needs the tags to leave the 16-bit length of the header below its limit; larger frames do not exist on Ethernet.
- Nat25Table.Nat25.Insert: the allocation of an entry is a parameter that may fail.
- The Barker preamble bit as a function of the stations: it is refreshed only with the other ERP bits and does not track its counter.
- Mesh, token-based transmission and the beacon updates that follow a join or leave, apart from the ERP bits and the operation mode.
- Failure of the allocation that saves the rest of the elements: beacon editing is modelled with the allocation succeeding.
- BeaconIes.Bss.AddIe: where the result does not fit the buffer nothing is promised, since the code then writes behind it; the same holds for BeaconIes.Bss.UpdateTim.
- BeaconIes.Bss.UpdateTim: where the computed offset is inside an element only the bytes are specified; an allocation of almost 2^32 bytes is taken to fail.
- Beacon editing and P2P deletion on element lists that are not well formed.
- PppoeRelay.FindTag: what is read behind the end of the frame is not modelled, only that the walk gets there.
- Tim.SetTimIe: bitmaps have 1 to 251 octets, the range of the standard; the driver's has at most 33.
- Chbw.UnionCovers: for widths of 20, 40 and 80 MHz, which are the ones the code merges; the adjustment of a request to the adapter's capabilities before the fold is not modelled.
- Cipher and key management masks are sets of bit numbers.
- Expiry of stations that are only authenticated, and the variant without active keep-alive frames that checks by ADDBA: they would add easy members or another configuration.
- The WPA element, WPS and WAPI elements, rate sets and the debugging interfaces.
