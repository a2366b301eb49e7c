# Verified cores of a patched OpenSSH 7.3p1

This project models eight self-contained parts of the repository in Dafny and proves what they promise. Each part
is either a state machine whose every run keeps an invariant, or an algorithm that must agree with a simpler
definition. Where a promise turned out not to hold for all inputs, the model keeps the code's behaviour, shows an
input that breaks the promise, and proves exactly when it holds.

| files | part | main results |
|---|---|---|
| `ChannelFlow`, `ChannelRuns`, `ChannelProgress` | channel windows of `channels.c` (section 5.2 of RFC 4254), two ends joined by ordered links | `WindowConserved`, `DeliveredInOrder`, `EofBeforeClose`, `EofIsComplete`, `CloseIsCleanIff`, `GivesBackIff`, `PollSendsMost`, `RegainsIff`, `EverythingCanArrive` |
| `CacheTable`, `CachePaths`, `BackingTree`, `CacheCoherence`, `CacheUpkeep`, `CacheRace` | the caching file-system proxy of `cache.c`, one request at a time and with threads interleaved | `CacheIsTransparentIff`, `CleaningIsNeverNoticed`, `PurgesExactly`, `NeverStale`, `WrapIff`, `ForgetKeepsIff` |
| `AuthMethods`, `AuthDevices`, `AuthMachine`, `AuthRuns`, `AuthEnabled`, `AuthEnds`, `AuthRequests` | user authentication in `auth2.c`, `auth2-chall.c`, `auth2-pubkey.c` (section 5 of RFC 4252, section 3 of RFC 4256) | `CompleteExactlyWhen`, `OnlyEnabledSucceed`, `EndsBecause`, `StaysSound`, `FailuresAreMisses`, `KeysPayForEntries`, `SearchMeaning` |
| `Deattack` | the hash-indexed duplicate-block detector of `deattack.c` | `AnswerMeaning`, `Detector.DetectAttack` |
| `Bits`, `Bitmap` | the growable bitmap of `bitmap.c` | `StringRoundTrip`, `ParseRoundTrip` |
| `Argv` | the argument splitter and assembler of `auth2-pubkey.c` | `SplitQuotes`, `SplitBare`, `SplitOfAssemble`, `RoundTripIff` |
| `ChaCha`, `ChaChaVectors`, `ChachaPoly` | `chacha.c` and the packet cipher of `cipher-chachapoly.c` | `EncryptBytes`, `BlockVector`, `SealedBytes`, `OpensIff`, `RoundTrip` |
| `AtomicIo`, `EscapeFilter`, `AddrMatch`, `AddrList` | vectored I/O retry, the escape filter, CIDR matching | `AtomicIoV6`, `EscapePair`, `DoublingProtectsIff`, `AddrNetmatch`, `AddrMatchList` |

`Seqs` holds a few facts about sequences, and `Wrappers` the type of a value that may be missing.

Code that updates a structure in place is a class or a method on arrays whose contract ties the new state to a
function of the old one; the theorems over runs are then about those functions. The network, the clock, the
descriptors, memory allocation, the file system behind the cache and the outcome of password, signature and device
checks are parameters that may take any value unless a `requires` says otherwise.

## What was found

- A receiver with a window of one byte never gives it back, unless three times its maximum packet size wraps to zero
  in 32 bits (`OneByteStall`, `UnleakedIff`). Refused stderr, bytes lost in a failed write, and stderr stuck behind a
  descriptor that is closed, or no longer polled because the end gave up writing and finished reading, leak window for
  good; `RegainsIff` says exactly when the sender can ever get window again.
- To an end that has not itself sent a close, end of file means that everything has arrived (`EofBeforeClose`). An end
  that gives up on its output, closes, and so finds its peer still draining, gets end of file before the rest of the
  text (`EofBeforeText`); after a close, end of file means completeness exactly when that did not happen
  (`EofIsComplete`).
- Bytes received are dropped or lost only by an end that gave up writing, after a failed write or because its session's
  process has ended (`DeliveredInOrder`). Any other end that sends a close has written out all its output. Its stderr is
  written out too exactly if no write of it ever failed (`CloseIsCleanIff`): a failed one closes the descriptor and keeps
  the buffer, and the close goes out with that stderr unwritten (`CloseStrandsStderr`).
- The write counter of the cache protects readers only as long as no reader sleeps through 2^64 invalidations
  (`WrapBreaks`, `WrapIff`). A change that does not advance the counter (`UncountedBreaks`) is safe exactly if it
  catches no thread between fetching its path and installing it (`ForgetKeepsIff`).
- A link read into a buffer that is too short is cached cut off, and later answers are wrong exactly for larger
  buffers (`SecondReadIff`); nothing else makes the cache visible (`CacheIsTransparentIff`).
- An AuthenticationMethods entry that names a submethod for a method other than keyboard-interactive passes the
  validity test and is offered, but the method's success ends the connection (`SubmethodNeverMet`,
  `SubmethodIsFatal`); a success ends it so exactly when no stored list starts with it (`EndsBecause`).
- The argument round trip drops empty arguments and nothing else (`SplitOfAssemble`).
- Doubling the escape character does not protect it when it is itself a command letter (`DoublingProtectsIff`).
- Vectored I/O matches flat I/O only if the first buffer is not empty and there are at most IOV_MAX buffers
  (`VectoredIsFlatIff`).
- Bit 2^24 of a bitmap can be set, but the string written for it cannot be read back (`TightLimit`).

## Model

| member | source | states |
|---|---|---|
| `ChannelFlow.Channel.OutputPoll` | openssh-7.3p1/channels.c:2861-2977 | one polling round sends what `Poll` says: stdout, or end of file when drained, then stderr, each cut to window and packet size; every field after the call is fixed |
| `ChannelFlow.Channel.PollInput` | openssh-7.3p1/channels.c:2888-2955 | the stdout half of a round: at most the buffer, the window and the packet size leave the front of the buffer; an empty draining buffer says end of file unless stderr is still active |
| `ChannelFlow.Channel.PollStderr` | openssh-7.3p1/channels.c:2956-2975 | the stderr half: nothing after end of file or without window |
| `ChannelFlow.Channel.InputData` | openssh-7.3p1/channels.c:2982-3038 | data for a shut output counts as consumed; data beyond the window is refused; otherwise it is buffered and the window shrinks, in 32-bit arithmetic |
| `ChannelFlow.Channel.InputExtendedData` | openssh-7.3p1/channels.c:3041-3085 | stderr is refused after end of file, when no writer takes it, or beyond the window; a refusal leaves the window alone |
| `ChannelFlow.Channel.InputWindowAdjust` | openssh-7.3p1/channels.c:3262-3287 | the remote window grows, and a sum that wraps is detected |
| `ChannelFlow.Channel.InputEof` | openssh-7.3p1/nchan.c:327-333 | end of file is remembered and the output starts to drain |
| `ChannelFlow.Channel.SendClose` | openssh-7.3p1/nchan.c:369-387 | a close goes out exactly once, when reading has finished and the output is over: all written, stderr included unless its descriptor is gone, or given up |
| `ChannelFlow.Channel.WriteFailed` | openssh-7.3p1/nchan.c:334-350 | giving up on the output clears its buffer, in whatever state it was |
| `ChannelFlow.Channel.InputClose` | openssh-7.3p1/nchan.c:278-313 | a close received stops both directions; a side still draining sends end of file at once, a larval one does not |
| `ChannelFlow.Channel.CheckWindows` | openssh-7.3p1/channels.c:2517-2533 | consumed bytes are given back exactly when the thresholds (with the 32-bit product) say so |
| `ChannelFlow.Channel.HandleWfd` | openssh-7.3p1/channels.c:2380-2470 | bytes written count as consumed; a failed or empty write clears the buffer and shuts the output without crediting it |
| `ChannelFlow.Channel.HandleEfd` | openssh-7.3p1/channels.c:2472-2492 | stderr written counts as consumed; a failed write only closes the descriptor |
| `ChannelFlow.Channel.SetFds` | openssh-7.3p1/channels.c:869-882 | starting a larval channel opens its window and announces it |
| `ChannelRuns.StepKeeps` | openssh-7.3p1/channels.c:2380-3287 | every step of either end, with any descriptor result, keeps the whole invariant: window accounts, order of end of file and close, both byte streams, why an output is shut, and no alarm |
| `ChannelRuns.RunKeeps` | openssh-7.3p1/channels.c:2380-3287 | so does every run |
| `ChannelRuns.OpenedHolds` | openssh-7.3p1/channels.c:431-456 | two new channels that know each other's window and packet size satisfy the invariant |
| `ChannelRuns.WindowConserved` | openssh-7.3p1/channels.c:2517-2533 | over every run: no overrun, no adjustment past 2^32, no stderr after end of file; the receiver's window is exactly the sender's plus what is in flight, granted in flight or refused; window, consumed, buffered and lost bytes add up to its size |
| `ChannelRuns.DeliveredInOrder` | openssh-7.3p1/channels.c:2887-3034 | over every run the bytes accepted by the sink are a prefix of the source's; unless the receiver gave up writing (which shuts its output) nothing is dropped or lost; then source = accepted + buffered + in flight + unsent; stderr likewise unless refused |
| `ChannelRuns.CloseComesLast` | openssh-7.3p1/nchan.c:369-387 | over every run a close has been received or is in flight exactly if it was sent, and once it is received no text and no second close is in flight |
| `ChannelRuns.RunStrands` | openssh-7.3p1/channels.c:2472-2492 | over every run received stderr is stuck behind a closed descriptor if and only if some write of it failed |
| `ChannelRuns.CloseIsCleanIff` | openssh-7.3p1/channels.c:921-932 | over every run, once an end that did not give up writing has sent a close, nothing is in flight to it and source = accepted + what its peer never sent; its stderr is written out whole if and only if no write of it failed, and otherwise what is missing is what it still holds and what its peer never sent (unless refused) |
| `ChannelRuns.CloseStrandsStderr` | openssh-7.3p1/channels.c:2487-2489 | a run from opening in which an end closes, never having given up its output, with one byte of stderr received and never written |
| `ChannelRuns.EofBeforeClose` | openssh-7.3p1/channels.c:2941-2959 | over every run, once end of file has reached an end that has sent no close, nothing is unsent or in flight, and unless bytes were dropped or lost the source is exactly accepted + buffered; stderr likewise unless refused |
| `ChannelRuns.EofIsComplete` | openssh-7.3p1/channels.c:2941-2959 | over every run, closes included, once end of file has arrived nothing is in flight, and nothing is left unsent if and only if no close found the sender draining with text unsent (for stderr also: and none was read after end of file); a drained receiver that dropped nothing has exactly the source's bytes under the same condition |
| `ChannelRuns.EofBeforeText` | openssh-7.3p1/nchan.c:278-313 | a run in which that happens: one end says end of file, gives up on its output and closes, the other takes the close with one byte unsent, and its end of file arrives without that byte |
| `ChannelProgress.StalledIff` | openssh-7.3p1/channels.c:2517-2533 | with nothing in flight or left to write and the sender out of window, the receiver gives window back if and only if the leaks (refused, lost and stuck stderr) do not take all of it and the threshold, with its wrapping product, is passed |
| `ChannelProgress.GivesBackIff` | openssh-7.3p1/channels.c:2517-2533 | over every run, in any state: what is left of the receiver's window, counted on the sender's side (its window, data and grants in flight, refused stderr), decides alone whether a check gives window back; then all that was consumed goes into one adjustment, and otherwise nothing changes |
| `ChannelProgress.UnleakedIff` | openssh-7.3p1/channels.c:2517-2533 | without leaks: if and only if the window is at least two bytes, or one byte and the product wraps to zero |
| `ChannelProgress.NoDeadlock` | openssh-7.3p1/channels.c:2517-2533 | from every state any run reaches in which the receiver is open, no close has been sent by it or is on its way to it, and that condition holds, with stderr on its way taken, some continuation gives the sender window again |
| `ChannelProgress.StalledForever` | openssh-7.3p1/channels.c:2517-2533 | once nothing would be given back, stuck stderr included, no run of any steps ever gives the sender window |
| `ChannelProgress.RegainsIff` | openssh-7.3p1/channels.c:2517-2533 | in a state at rest some run gives the sender window again if and only if the condition of `StalledIff` holds |
| `ChannelProgress.OneByteStall` | openssh-7.3p1/channels.c:2517-2533 | a run from opening that ends in such a stall: a one-byte window used once |
| `ChannelProgress.EverythingCanArrive` | openssh-7.3p1/channels.c:2861-3034 | from every state any run reaches in which both ends are open and not closing, nothing was dropped or lost, the receiver's output is open or end of file is in, the window can reopen and packets hold at least one byte, some continuation delivers every byte the source has supplied, and every byte of stderr unless some was refused or is stuck; stderr still to come needs an end that writes it, so one that has not both given up writing and finished reading |
| `ChannelProgress.PollSendsSome` | openssh-7.3p1/channels.c:2888-2975 | with window and text, a polling round always sends some of the text |
| `ChannelProgress.PollSendsMost` | openssh-7.3p1/channels.c:2861-2977 | over every run a poll of an open end that is not closing sends exactly the most that the receiver's window, less what is in flight, and its packet size allow: output first, then stderr; and it says end of file exactly if the source has ended and neither output nor stderr is left |
| `ChannelProgress.WritesExactly` | openssh-7.3p1/channels.c:2380-2492 | over every run, for every answer of the descriptor: exactly what a write of output or of stderr changes; writing nothing counts as failing |
| `ChannelProgress.GaveUpForGood` | openssh-7.3p1/channels.c:933-943 | an end that has given up writing and finished reading writes nothing more in any run, not even stderr it holds |
| `ChannelProgress.CloseFollows` | openssh-7.3p1/nchan.c:441-484 | over every run a close received has ended reading and shut the output, and any end that has finished reading and whose output is shut can send its close with local steps alone |
| `ChannelProgress.PacketsFit` | openssh-7.3p1/channels.c:2917-2968 | over every run from opening no packet in flight, either way, is larger than the maximum its receiver set, and no output packet is empty |
| `CacheTable.Store.FindLastSlash` | openssh-7.3p1/cache.c:106 | finds the last slash as strrchr does |
| `CacheTable.LastSlash` | openssh-7.3p1/cache.c:106 | the position holds a slash and no slash follows it; none is found exactly if there is none |
| `CacheTable.Store.PurgeParentOf` | openssh-7.3p1/cache.c:104-116 | removes the key before the last slash, or the root's, and nothing else |
| `CacheTable.Store.InvalidatePath` | openssh-7.3p1/cache.c:118-123 | removes one key |
| `CacheTable.Store.InvalidateWritten` | openssh-7.3p1/cache.c:125-131 | removes one key and advances the write counter modulo 2^64 |
| `CacheTable.Store.InvalidateDirectory` | openssh-7.3p1/cache.c:133-139 | removes a key and its parent's |
| `CacheTable.Store.Renamed` | openssh-7.3p1/cache.c:141-160 | removes every key starting with the source's characters, the target, and both parents |
| `CacheTable.Store.CleanUp` | openssh-7.3p1/cache.c:73-92 | drops expired nodes when it is time or the table is too big |
| `CacheTable.Store.GetNode` | openssh-7.3p1/cache.c:162-171 | the node of a key, made empty if there was none |
| `CacheTable.Store.CacheAttr` | openssh-7.3p1/cache.c:173-187 | installs attributes if and only if the write counter has not moved |
| `CacheTable.Store.CacheDir` | openssh-7.3p1/cache.c:189-202 | installs a listing |
| `CacheTable.Store.StrNLen` | openssh-7.3p1/cache.c:204-209 | the length of a string, at most a maximum |
| `CacheTable.Store.CacheLink` | openssh-7.3p1/cache.c:211-224 | installs what the buffer held of a link |
| `CacheTable.Store.GetAttr` | openssh-7.3p1/cache.c:226-277 | answers from a fresh node, else from behind, remembering success |
| `CacheTable.Store.ReadLink` | openssh-7.3p1/cache.c:279-301 | the same for links, cut to the buffer |
| `CacheTable.Store.ReadDir` | openssh-7.3p1/cache.c:334-412 | the same for listings; every entry of known kind also has its attributes installed, under one counter value |
| `CachePaths.ParentOfKey` | openssh-7.3p1/cache.c:104-116 | cutting a path's key at its last slash gives the key of its parent directory |
| `CachePaths.RenderInjective` | openssh-7.3p1/cache.c:94-97 | different paths have different keys |
| `CachePaths.BelowIsPrefix` | openssh-7.3p1/cache.c:141-148 | the keys of everything below a path start with its key |
| `CachePaths.ChildKeyOf` | openssh-7.3p1/cache.c:346-349 | the key built while listing a directory is the entry's own key |
| `CachePaths.AliasKey` | openssh-7.3p1/cache.c:346-349 | the keys built for "." and ".." belong to no path |
| `BackingTree.ListedAbove` | openssh-7.3p1/cache.c:414-444 | in a tree, whatever exists below a path is listed in it, step by step |
| `BackingTree.RenameKeepsTree` | openssh-7.3p1/cache.c:454-460 | moving a subtree onto an absent or childless target keeps the file system a tree |
| `CacheCoherence.MakeInvalidates` | openssh-7.3p1/cache.c:414-452 | creating an entry changes nothing behind that is still cached |
| `CacheCoherence.RemoveInvalidates` | openssh-7.3p1/cache.c:430-444 | nor does removing one |
| `CacheCoherence.AlterInvalidates` | openssh-7.3p1/cache.c:472-524 | nor does changing an entry's attributes or contents |
| `CacheCoherence.RenameInvalidates` | openssh-7.3p1/cache.c:150-160 | nor does a rename: the purge covers the moved subtree, the target and both parents |
| `CacheCoherence.ReadIsTransparent` | openssh-7.3p1/cache.c:266-412 | every attribute or listing read answers as the file system behind would and keeps every filled-in part of every node equal to what is behind |
| `CacheCoherence.LinkIsTransparentIff` | openssh-7.3p1/cache.c:279-301 | a link read answers as the file system behind would if and only if it is not answered from a node cut shorter than the buffer asks for |
| `CacheCoherence.TurnIsTransparent` | openssh-7.3p1/cache.c:266-524 | one request of any kind answers as the file system behind would, unless a link was cut too short, and keeps coherence and the tree |
| `CacheCoherence.CacheIsTransparentIff` | openssh-7.3p1/cache.c:266-524 | from an empty cache, every run of requests, with any buffer sizes, gets answer for answer what the file system behind would give alone, whatever the clock, timeouts and evictions, if and only if no link is answered from a node cut too short |
| `CacheCoherence.CacheIsTransparent` | openssh-7.3p1/cache.c:266-524 | so every run is transparent in which all links are read with one buffer size or fit their buffers |
| `CacheCoherence.RemembersLink` | openssh-7.3p1/cache.c:279-301 | so are links, for any two buffer sizes: until the link expires the answer is what the first buffer held cut to the second, and afterwards what is behind, cut to the second |
| `CacheUpkeep.CleansWhenDue` | openssh-7.3p1/cache.c:73-92 | cleaning up drops exactly the expired nodes, when the table is too big or it is time, and not within the shortest interval |
| `CacheUpkeep.CleaningIsNeverNoticed` | openssh-7.3p1/cache.c:73-92 | after any run of requests from an empty cache, cleaning up changes no later search of any kind |
| `CacheUpkeep.PurgesExactly` | openssh-7.3p1/cache.c:104-160 | every change purges its path and the parent's, a rename also every key that starts with the old one's characters and the target's two, and leaves every other node as it was |
| `CacheUpkeep.ListingTells` | openssh-7.3p1/cache.c:334-412 | a listing answered from behind leaves the attributes of exactly the entries of known kind in the cache, each until it expires, and all other attributes as they were |
| `CacheCoherence.SecondReadIff` | openssh-7.3p1/cache.c:211-224 | a link cached from one buffer size is answered correctly for another if and only if the new size is no larger or the first held the whole target |
| `CacheCoherence.RemembersAttr` | openssh-7.3p1/cache.c:226-277 | attributes fetched once are answered from the cache exactly until they expire |
| `CacheCoherence.RemembersDir` | openssh-7.3p1/cache.c:357-412 | so are listings |
| `CacheRace.AddAttrEntries` | openssh-7.3p1/cache.c:173-187 | an install changes the attributes of one key only, exactly when the counters agree |
| `CacheRace.RunKeeps` | openssh-7.3p1/cache.c:125-277 | every interleaving of any number of readers and writers keeps: cached and fetched attributes are current, or a write is pending, or (for fetched ones) the counter has moved; uncounted changes too, if each catches no thread between fetching the path and installing it |
| `CacheRace.NeverStale` | openssh-7.3p1/cache.c:125-277 | so a cached stat differs from the file system behind only while a write to its path has not yet run its invalidation, if no install spans 2^64 invalidations and no uncounted change catches a thread between fetch and install |
| `CacheRace.InstallStaleIff` | openssh-7.3p1/cache.c:173-187 | from any safe state, whatever happened before, an install leaves a stale entry if and only if what it holds is out of date with no write pending and the counter reads as it did |
| `CacheRace.RunSafeIff` | openssh-7.3p1/cache.c:118-277 | over any run at all, counted and uncounted changes alike, the cache is safe throughout if and only if no such install happens |
| `CacheRace.WrapIff` | openssh-7.3p1/cache.c:173-187 | with counted writes only, such an install takes a positive multiple of 2^64 invalidations since the counter was read |
| `CacheRace.ForgetKeepsIff` | openssh-7.3p1/cache.c:118-123 | an uncounted change keeps the protection if and only if no thread holds an outdated copy of the path under an unmoved counter |
| `CacheRace.DisturbedInstallsStale` | openssh-7.3p1/cache.c:118-187 | otherwise that thread's install leaves a stale entry |
| `CacheRace.WrapBreaks` | openssh-7.3p1/cache.c:125-187 | a run that does leave one, with nothing pending |
| `CacheRace.UncountedBreaks` | openssh-7.3p1/cache.c:472-479 | a run of that kind: a change that purges without counting between a reader's fetch and its install |
| `AuthMethods.MatchesEntry` | openssh-7.3p1/auth2.c:536-561 | comparing the front of the list string decides exactly whether the first entry is the method, the method with that submethod, or asks for some submethod |
| `AuthMethods.RemovesEntry` | openssh-7.3p1/auth2.c:568-586 | removal takes exactly the first entry and its comma off the string, if and only if the entry asks for that success |
| `AuthMethods.JoinSplit` | openssh-7.3p1/auth2.c:466-468 | splitting a list at commas and joining it again gives the list |
| `AuthMethods.SplitJoin` | openssh-7.3p1/auth2-chall.c:116-129 | joining names at commas and splitting again gives the names |
| `AuthMethods.UsedUpIff` | openssh-7.3p1/auth2.c:594-617 | consuming a list greedily uses it up if and only if it is an order-preserving subsequence of the successes |
| `AuthMethods.UpdateMeaning` | openssh-7.3p1/auth2.c:594-617 | one success against all lists: it completes if and only if some list is used up, is not found if and only if no list's next entry wants it, and otherwise every stored string is again what is left of its list |
| `AuthMethods.CompletesIff` | openssh-7.3p1/auth2.c:594-617 | it completes if and only if some configured list is an order-preserving subsequence of the successes so far |
| `AuthMethods.SubmethodNeverMet` | openssh-7.3p1/auth2.c:594-617 | a list that asks for a submethod of an enabled method is valid and offers its method but is not met by a success that reports none |
| `AuthMethods.NotFoundIff` | openssh-7.3p1/auth2.c:594-617 | a success is in no list if and only if no stored list starts with it, method and submethod alike |
| `AuthMethods.ValidEntries` | openssh-7.3p1/auth2.c:456-496 | an accepted list has no empty entry |
| `AuthMethods.MethodsValid` | openssh-7.3p1/auth2.c:456-496 | accepts exactly the non-empty lists whose every entry names a known (and, if asked, enabled) method |
| `AuthMethods.FindMethod` | openssh-7.3p1/auth2.c:470-474 | the first row of that name |
| `AuthMethods.MethodLists.Setup` | openssh-7.3p1/auth2.c:505-534 | keeps exactly the lists without disabled methods, in order |
| `AuthMethods.MethodLists.Advance` | openssh-7.3p1/auth2.c:594-617 | the loop over the stored strings, stopping at the first one used up |
| `AuthDevices.MethodAllowed` | openssh-7.3p1/auth2.c:385-403 | allowed if and only if no lists are configured or some stored list starts with the method |
| `AuthDevices.Exchange.TryPiece` | openssh-7.3p1/auth2-chall.c:172-182 | marks every unused, allowed device whose name starts with the piece and keeps the last of them |
| `AuthDevices.Exchange.Next` | openssh-7.3p1/auth2-chall.c:157-191 | the search loop; it terminates |
| `AuthDevices.SearchMeaning` | openssh-7.3p1/auth2-chall.c:157-191 | the search finds the first piece, before any empty one, that some device is eligible for, and takes the last such device; it finds nothing if and only if there is no such piece |
| `AuthDevices.SearchStaysFair` | openssh-7.3p1/auth2-chall.c:157-191 | no device is chosen twice in one exchange |
| `AuthMachine.UserkeyAlreadyUsed` | openssh-7.3p1/auth2-pubkey.c:1093-1104 | true if and only if an equal public key was recorded |
| `AuthMachine.Authctxt.Stop` | openssh-7.3p1/auth2-chall.c:212-221 | removes handler and exchange |
| `AuthMachine.Authctxt.StartDevice` | openssh-7.3p1/auth2-chall.c:224-252 | starts the next device and postpones, or drops the exchange |
| `AuthMachine.Authctxt.Pubkey` | openssh-7.3p1/auth2-pubkey.c:77-220 | a good signature by an accepted, unused key of a valid user authenticates and records the key; a good key without signature postpones; all else fails |
| `AuthMachine.Authctxt.TryUserauth` | openssh-7.3p1/auth2.c:278-282 | runs the method asked for; "none" can be tried once |
| `AuthMachine.Authctxt.UserauthFinish` | openssh-7.3p1/auth2.c:291-378 | invalid user, root denial, lists, postponing, success and the failure count, in that order |
| `AuthMachine.Authctxt.SetupLists` | openssh-7.3p1/auth2.c:505-534 | the lists of a connection, none if none are configured |
| `AuthMachine.Authctxt.IntroduceUser` | openssh-7.3p1/auth2.c:232-259 | the first request fixes user, service, validity and lists |
| `AuthMachine.Authctxt.IdentifyUser` | openssh-7.3p1/auth2.c:232-265 | later requests must repeat user and service |
| `AuthMachine.Authctxt.LookupMethod` | openssh-7.3p1/auth2.c:433-449 | a method is offered if and only if it is enabled and allowed by the lists |
| `AuthMachine.Authctxt.UserauthRequest` | openssh-7.3p1/auth2.c:212-289 | a request resets any exchange, tries the method if offered and tries are left, and finishes |
| `AuthMachine.Authctxt.InfoResponse` | openssh-7.3p1/auth2-chall.c:287-353 | before the first request a reply changes nothing; later it is fatal without a handler, a context or the right count of answers, and otherwise authenticates a valid user, asks again, or moves to the next device, and finishes |
| `AuthRuns.StepKeeps` | openssh-7.3p1/auth2.c:212-378 | every message keeps the invariant |
| `AuthRuns.CompleteExactlyWhen` | openssh-7.3p1/auth2.c:291-378 | over every run, whatever its end: authentication has succeeded if and only if some configured list is embedded in the successes or, without lists, there was a success; then the user is valid; while live each stored string is an end of its list cut at an entry |
| `AuthRuns.StaysSound` | openssh-7.3p1/auth2.c:212-378 | over every run: with a positive limit, too many failures end it if and only if the failures reach the limit; the reply handler is installed exactly while an exchange waits on a ready, allowed, once-chosen device; the handlers' internal checks never fire; a success is in no list only where a list asks for a submethod |
| `AuthRuns.FailuresAreMisses` | openssh-7.3p1/auth2.c:352-365 | over every run, whatever its end, the failure count is exactly the number of answered messages that brought no success, were not postponed, were not a first try of "none" and not replies before any request |
| `AuthRuns.NoTriesNoLife` | openssh-7.3p1/auth2.c:278-365 | with a limit of zero or less the first request ends the connection |
| `AuthRuns.EndedForGood` | openssh-7.3p1/auth2.c:340-351 | after success or failure no message changes anything, so success is reached at most once |
| `AuthRuns.SameUser` | openssh-7.3p1/auth2.c:232-265 | over every run user, service and validity stay as the first request fixed them |
| `AuthRuns.RecordKeeps` | openssh-7.3p1/auth2-pubkey.c:178-185 | recording a key that was not used before keeps the keys pairwise unequal |
| `AuthRuns.KeysPayForEntries` | openssh-7.3p1/auth2-pubkey.c:130-185 | over every run, whatever its end, the recorded keys are pairwise unequal and no list has had more publickey entries consumed than there are keys |
| `AuthEnabled.EnabledIff` | openssh-7.3p1/auth2.c:433-449 | looking a method up in the table finds it enabled if and only if the first row of its name is, or it is "none" not tried yet |
| `AuthEnabled.OnlyEnabledSucceed` | openssh-7.3p1/auth2.c:278-351 | over every run, whatever its end: each success is of a method whose first row is enabled, and "none" succeeds at most once and not before it is tried |
| `AuthEnabled.AcceptedIff` | openssh-7.3p1/auth2.c:456-496 | a configured list is accepted if and only if it is not empty and every entry, up to any colon, names a row, enabled if that is asked |
| `AuthEnds.OfferedIff` | openssh-7.3p1/auth2.c:433-449 | a method is offered if and only if it is enabled and, with lists configured, is the method of some list's first entry |
| `AuthEnds.EndsBecause` | openssh-7.3p1/auth2.c:212-378 | after every live run the next message counts as a success if and only if it proves one for a valid user who is not denied, and ends the connection in each way exactly when its cause is present (too many failures: see `StaysSound`) |
| `AuthEnds.PartialStaysLive` | openssh-7.3p1/auth2.c:313-318 | a success that advances some list without using one up keeps the connection live |
| `AuthEnds.SubmethodIsFatal` | openssh-7.3p1/auth2.c:594-617 | a run that ends because no list wants the success: the list asks for a submethod, is accepted and offers the method |
| `AuthRequests.UserIsFirst` | openssh-7.3p1/auth2.c:232-265 | over every run user, service and validity are those of the first request, whatever replies came before it |
| `AuthRequests.FindsDevice` | openssh-7.3p1/auth2-chall.c:157-191 | a new exchange finds a device if and only if some piece, before any empty one, is the front of an allowed device's name |
| `AuthRequests.PutOffIff` | openssh-7.3p1/auth2.c:278-345 | after every live run the answer to a request is put off if and only if its method is tried and either a good key comes without a signature or a keyboard-interactive device takes over; then there is no success and no failure |
| `Deattack.ScanMeaning` | openssh-7.3p1/deattack.c:148-164 | from any block on, the counting scan reports an attack or none as the quadratic scan does, and denial of service exactly if some block is the 33rd repeat with no attack before |
| `Deattack.AnswerMeaning` | openssh-7.3p1/deattack.c:106-165 | the answer is the quadratic scan's unless the 33rd repeated position is reached before any attack, and only then denial of service |
| `Deattack.Stored` | openssh-7.3p1/deattack.c:148-164 | storing a block where its probe stopped keeps every earlier block findable |
| `Deattack.ProbeMissed` | openssh-7.3p1/deattack.c:148-164 | a probe that reaches an unused slot proves that no earlier block is equal |
| `Deattack.FreeSlot` | openssh-7.3p1/deattack.c:151-153 | a table with more slots than entries has a free one on every probe's way, so probing ends |
| `Deattack.MaskIsRemainder` | openssh-7.3p1/deattack.c:151-152 | masking with one less than a power of two is the remainder by it, for every number |
| `Deattack.HashBytes` | openssh-7.3p1/deattack.c:151 | the hash is the first four bytes, most significant first |
| `Deattack.FirstSlot` | openssh-7.3p1/deattack.c:151 | the masked hash is the home slot |
| `Deattack.NextSlot` | openssh-7.3p1/deattack.c:152 | masking the next index moves to the next slot of the probe sequence, round the end of the table |
| `Deattack.Probe` | openssh-7.3p1/deattack.c:151-162 | stops at an equal block or at an unused slot, having passed only different blocks |
| `Deattack.HashScan` | openssh-7.3p1/deattack.c:148-165 | answers as `Answer`, whatever an earlier packet left in the table; every index stored fits its sixteen-bit entry |
| `Deattack.QuadraticScan` | openssh-7.3p1/deattack.c:135-147 | reports an attack if and only if some block has an equal earlier one that the check confirms |
| `Deattack.Blocks` | openssh-7.3p1/deattack.c:135-148 | block k holds the eight bytes from position 8k |
| `Deattack.Detector.Size` | openssh-7.3p1/deattack.c:115-116 | the size loop ends at a table size of at least one and a half times the blocks |
| `Deattack.Detector.DetectAttack` | openssh-7.3p1/deattack.c:97-165 | for every packet of acceptable length and every table left behind, the answer is `Answer` of its blocks; an error exactly for a bad length, or when memory fails and there was no table before or one of less than one and a half times the blocks; a bad length changes nothing, and failed memory leaves no table |
| `Bitmap.Bitmap.constructor` | openssh-7.3p1/bitmap.c:36-50 | a new bitmap is the empty set |
| `Bitmap.Bitmap.Zero` | openssh-7.3p1/bitmap.c:62-67 | empties the set |
| `Bitmap.Bitmap.TestBit` | openssh-7.3p1/bitmap.c:69-77 | membership, for every number |
| `Bitmap.Bitmap.Reserve` | openssh-7.3p1/bitmap.c:79-96 | growing changes no element; it fails only beyond the limit or without memory |
| `Bitmap.Bitmap.SetBit` | openssh-7.3p1/bitmap.c:98-111 | adds the element, or nothing on failure; old words above the top never revive |
| `Bitmap.Bitmap.Retop` | openssh-7.3p1/bitmap.c:114-121 | lowers the top to the last non-zero word without changing the set |
| `Bitmap.Bitmap.ClearBit` | openssh-7.3p1/bitmap.c:123-136 | removes the element |
| `Bitmap.Bitmap.NBits` | openssh-7.3p1/bitmap.c:138-157 | one more than the largest element, zero for the empty set; the search for the top bit ends |
| `Bitmap.Bitmap.NBytes` | openssh-7.3p1/bitmap.c:159-163 | the bytes that many bits need |
| `Bitmap.Bitmap.Spell` | openssh-7.3p1/bitmap.c:165-184 | the writing loop: byte m from the end is byte m of the number |
| `Bitmap.Bitmap.ToString` | openssh-7.3p1/bitmap.c:165-184 | writes the shortest big-endian string of the set if it fits, else nothing |
| `Bitmap.Bitmap.Fill` | openssh-7.3p1/bitmap.c:186-212 | the reading loop: every byte lands where it belongs |
| `Bitmap.Bitmap.FromString` | openssh-7.3p1/bitmap.c:186-212 | replaces the set by the one the string spells, or leaves it |
| `Bitmap.StripKeepsSet` | openssh-7.3p1/bitmap.c:165-212 | leading zero bytes do not change the set |
| `Bitmap.CanonicalIsUnique` | openssh-7.3p1/bitmap.c:165-212 | a set has one string without leading zero bytes |
| `Bitmap.SpelledString` | openssh-7.3p1/bitmap.c:165-184 | a string that spells the words denotes their set and is shortest |
| `Bitmap.StringRoundTrip` | openssh-7.3p1/bitmap.c:165-212 | reading back what was written succeeds if and only if no bit at or above 2^24 is set, and gives the same set |
| `Bitmap.ParseRoundTrip` | openssh-7.3p1/bitmap.c:165-212 | writing what was read gives the string without leading zero bytes, for every string of accepted length |
| `Bitmap.TightLimit` | openssh-7.3p1/bitmap.c:85-212 | bit 2^24 can be set, and then reading back fails |
| `Argv.CopyToken` | openssh-7.3p1/auth2-pubkey.c:292-309 | the copy loop decodes exactly one token and ends inside the string |
| `Argv.SplitArgv` | openssh-7.3p1/auth2-pubkey.c:265-332 | the loop splits as `Split` does, with the same error for an open quote |
| `Argv.EscapeArgument` | openssh-7.3p1/auth2-pubkey.c:349-371 | escapes one argument and notes a blank |
| `Argv.AssembleArgv` | openssh-7.3p1/auth2-pubkey.c:339-387 | assembles as `Assemble` does |
| `Argv.ScanQuoted` | openssh-7.3p1/auth2-pubkey.c:292-309 | an escaped text in quotes decodes to the text, up to its closing quote |
| `Argv.ScanMisaligned` | openssh-7.3p1/auth2-pubkey.c:281-309 | the splitter drops the first backslash of an argument and reads the rest of a run one character out of step, and the text still comes out whole |
| `Argv.OpenArgument` | openssh-7.3p1/auth2-pubkey.c:281-309 | the start-of-token rule opens every assembled argument correctly |
| `Argv.SplitQuotes` | openssh-7.3p1/auth2-pubkey.c:281-318 | text between two single or two double quotes is one argument, whatever else it holds; without the second quote the string is refused |
| `Argv.SplitBare` | openssh-7.3p1/auth2-pubkey.c:276-318 | plain text up to a space, a tab or the end is one argument, and blanks in front are skipped |
| `Argv.SplitLeadingBackslash` | openssh-7.3p1/auth2-pubkey.c:281-309 | an argument may begin with an escaped quote or backslash; before any other character the backslash stands for itself |
| `Argv.ScanBackslash` | openssh-7.3p1/auth2-pubkey.c:292-305 | the same inside an argument, quoted or not |
| `Argv.AssembledText` | openssh-7.3p1/auth2-pubkey.c:339-387 | arguments are joined by one space; one with a blank is put in double quotes, one without is not; quotes and backslashes get a backslash |
| `Argv.SplitOfAssemble` | openssh-7.3p1/auth2-pubkey.c:265-387 | splitting an assembled vector gives exactly its non-empty arguments, in order |
| `Argv.RoundTripIff` | openssh-7.3p1/auth2-pubkey.c:265-387 | it gives the vector back if and only if no argument is empty |
| `ChaCha.QuarterRound` | openssh-7.3p1/chacha.c:46-50 | updates four words of sixteen as the quarter round does |
| `ChaCha.DoubleRound` | openssh-7.3p1/chacha.c:141-148 | a column round then a diagonal round |
| `ChaCha.BlockWords` | openssh-7.3p1/chacha.c:124-165 | the key block of a state: twenty rounds with the state added back |
| `ChaChaVectors.RotatesBits` | openssh-7.3p1/chacha.c:40-50 | each rotation moves bit i by its amount, modulo 32, for every word |
| `ChaChaVectors.QuarterMixes` | openssh-7.3p1/chacha.c:46-50 | a quarter round changes its four words only, and by what they are only |
| `ChaChaVectors.QuarterVector` | openssh-7.3p1/chacha.c:46-50 | the quarter round of section 2.1.1 of RFC 8439 |
| `ChaChaVectors.StateVector` | openssh-7.3p1/chacha.c:46-50 | that of section 2.2.1 |
| `ChaChaVectors.BlockVector` | openssh-7.3p1/chacha.c:124-165 | the whole key block of section 2.3.2, twenty rounds with the state added back |
| `ChaChaVectors.StreamVector` | openssh-7.3p1/chacha.c:184-206 | bytes of its key stream |
| `ChaChaVectors.SetupVector` | openssh-7.3p1/chacha.c:55-87 | key, counter and nonce that give its state |
| `ChaChaVectors.ShortKey` | openssh-7.3p1/chacha.c:55-78 | a 128-bit key has constants of its own and is used twice |
| `ChaCha.KeySetup` | openssh-7.3p1/chacha.c:55-78 | constants and key words for 256-bit and 128-bit keys, other words untouched |
| `ChaCha.IvSetup` | openssh-7.3p1/chacha.c:80-87 | counter and nonce words, key words untouched |
| `ChaCha.Bump` | openssh-7.3p1/chacha.c:184-188 | the two-word counter step |
| `ChaCha.CryptBlock` | openssh-7.3p1/chacha.c:124-206 | one full block XORed, correct also in place |
| `ChaCha.CryptShort` | openssh-7.3p1/chacha.c:118-123 | a short last block through a scratch buffer writes only its own bytes |
| `ChaCha.EncryptBytes` | openssh-7.3p1/chacha.c:89-219 | the output is the input XORed with the counter-indexed key stream, from buffer to buffer or in place; nothing else is written; the counter moves by the blocks used |
| `ChaCha.CryptTwice` | openssh-7.3p1/chacha.c:89-219 | applying the stream twice gives the input |
| `ChaCha.CryptSplit` | openssh-7.3p1/chacha.c:89-219 | cutting the input at a multiple of 64 bytes changes neither text nor final state |
| `ChaCha.CryptPrefix` | openssh-7.3p1/chacha.c:89-219 | a prefix of the input gives a prefix of the output |
| `ChaCha.NextCounts` | openssh-7.3p1/chacha.c:184-188 | the two words with their carry step as one 64-bit counter |
| `ChaCha.AdvanceCounts` | openssh-7.3p1/chacha.c:184-188 | n blocks move the 64-bit counter by n |
| `ChaCha.Low64Wraps` | openssh-7.3p1/chacha.c:184-188 | a 64-bit value is its number modulo 2^64 |
| `ChaCha.CounterRepeatsIff` | openssh-7.3p1/chacha.c:184-188 | two blocks of a stream use the same counter if and only if their numbers agree modulo 2^64 |
| `ChaCha.BlocksAreDistinct` | openssh-7.3p1/chacha.c:184-188 | no two blocks of a stream use the same counter before it passes 2^64 |
| `ChachaPoly.Context.Init` | openssh-7.3p1/cipher-chachapoly.c:31-39 | two keys from 64 bytes, an error for any other length |
| `ChachaPoly.Context.MacKey` | openssh-7.3p1/cipher-chachapoly.c:63-67 | the packet's authenticator key is the first 32 bytes of block zero |
| `ChachaPoly.Context.CryptBody` | openssh-7.3p1/cipher-chachapoly.c:80-89 | header by the second key, payload by the first from block one, nothing beyond |
| `ChachaPoly.Context.ChachapolyCrypt` | openssh-7.3p1/cipher-chachapoly.c:50-102 | encryption writes the sealed packet; decryption writes the text if the tag is right, else nothing and an error |
| `ChachaPoly.Context.GetLength` | openssh-7.3p1/cipher-chachapoly.c:105-118 | the decrypted first four bytes, or an error for fewer |
| `ChachaPoly.BodyTwice` | openssh-7.3p1/cipher-chachapoly.c:50-102 | encrypting header and payload twice gives them back |
| `ChachaPoly.OpensIff` | openssh-7.3p1/cipher-chachapoly.c:50-102 | a packet opens to a text if and only if it is that text sealed, for every MAC function |
| `ChachaPoly.SealedBytes` | openssh-7.3p1/cipher-chachapoly.c:50-102 | every byte of a sealed packet: header by the second key from block zero, payload by the first from block one, and a tag made from all of both |
| `ChachaPoly.PolyKeyBytes` | openssh-7.3p1/cipher-chachapoly.c:63-67 | the tag's key is the front of block zero of the first key |
| `ChachaPoly.NonceIsBigEndian` | openssh-7.3p1/cipher-chachapoly.c:63-67 | the nonce is four zero bytes and the sequence number, most significant byte first |
| `ChachaPoly.BigEndian` | openssh-7.3p1/cipher-chachapoly.c:105-118 | the length is read most significant byte first |
| `ChachaPoly.LengthOfSealed` | openssh-7.3p1/cipher-chachapoly.c:105-118 | the length read from a sealed packet is the length in its plain header |
| `ChachaPoly.PayloadFollowsMacKey` | openssh-7.3p1/cipher-chachapoly.c:56-90 | the payload stream starts one block after the authenticator key's |
| `ChachaPoly.MacKeyBlockNotReused` | openssh-7.3p1/cipher-chachapoly.c:56-90 | no payload block uses the authenticator key's counter |
| `ChachaPoly.RoundTrip` | openssh-7.3p1/cipher-chachapoly.c:50-118 | what one context encrypts another with the same keys decrypts whole, for every header length, and reads its length if the header has it |
| `AtomicIo.AtomicIo6` | openssh-7.3p1/atomicio.c:51-89 | for every script of short transfers, retries and errors, what was moved is a prefix of the buffer and the result is its length, or 0 after a hard error |
| `AtomicIo.WhatTheCountMeans` | openssh-7.3p1/atomicio.c:51-89 | stopping early means a hard error, end of file or a callback, with the matching count |
| `AtomicIo.Advance` | openssh-7.3p1/atomicio.c:138-155 | skipping finished buffers and trimming the next leaves exactly the unsent text, stops at a non-empty buffer, and never reaches the branch that should not happen |
| `AtomicIo.AtomicIoV6` | openssh-7.3p1/atomicio.c:100-163 | moves a prefix of the concatenated buffers, empty inner buffers included |
| `AtomicIo.VectoredIsFlatIff` | openssh-7.3p1/atomicio.c:100-163 | so the vectored call can stand for the flat one, for every script, if and only if there is nothing to move or it can start |
| `EscapeFilter.Filter.ProcessEscapes` | openssh-7.3p1/clientloop.c:1089-1327 | one chunk takes the filter from its state to the state after those bytes, and the result counts the bytes forwarded |
| `EscapeFilter.FeedConcat` | openssh-7.3p1/clientloop.c:1116-1326 | two chunks act as their concatenation |
| `EscapeFilter.ChunkingIsInvisible` | openssh-7.3p1/clientloop.c:1116-1326 | any cutting of any input, commands included, gives the same forwarded bytes, commands and final state |
| `EscapeFilter.EscapePair` | openssh-7.3p1/clientloop.c:1116-1326 | at the start of a line, the escape character and any byte: the ten command letters are carried out and not forwarded, each with its effect on the session; doubling forwards one; any other byte is forwarded behind the escape character |
| `EscapeFilter.LineStarts` | openssh-7.3p1/clientloop.c:1300-1326 | only after a carriage return or a newline is the escape character looked for |
| `EscapeFilter.ProtectedArrives` | openssh-7.3p1/clientloop.c:1116-1326 | text with its escape characters doubled after newlines is forwarded unchanged, from any idle state |
| `EscapeFilter.DoublingProtectsIff` | openssh-7.3p1/clientloop.c:1116-1326 | doubling protects every text if and only if the escape character is not a command letter |
| `EscapeFilter.CommandLetterIsNotProtected` | openssh-7.3p1/clientloop.c:1116-1326 | and otherwise the one-character text is lost |
| `AddrMatch.AddrNetmask` | openssh-7.3p1/addrmatch.c:116-143 | for every length a mask with exactly that many leading ones, none for a bad length or family |
| `AddrMatch.AddrAnd` | openssh-7.3p1/addrmatch.c:149-170 | the bitwise and of two addresses of one family |
| `AddrMatch.CmpBytes` | openssh-7.3p1/addrmatch.c:190-192 | bytewise comparison is the sign of the first difference |
| `AddrMatch.AddrCmp` | openssh-7.3p1/addrmatch.c:176-199 | zero if and only if family, address and scope agree; different families put IPv6 last; otherwise ordered by address, then scope |
| `AddrMatch.AddrNetmatch` | openssh-7.3p1/addrmatch.c:349-362 | zero if and only if families and scopes agree, the length fits the family, the first bits agree and the network's other bits are zero, bit by bit |
| `AddrMatch.WordsMatchIff` | openssh-7.3p1/addrmatch.c:116-170 | matching word by word under the mask is the same as agreeing bit by bit on the prefix |
| `AddrMatch.AddrHostIsAll0s` | openssh-7.3p1/addrmatch.c:296-306 | zero if and only if the length is valid and all bits after it are zero |
| `AddrList.AddrPtonCidr` | openssh-7.3p1/addrmatch.c:312-347 | parses an address with optional length as `ParseCidr` does |
| `AddrList.CidrText` | openssh-7.3p1/addrmatch.c:312-347 | what a text means: an address at full width, or an address, a slash and a length within its family's width and without host bits |
| `AddrList.CidrTooLong` | openssh-7.3p1/addrmatch.c:320-322 | a text of 64 characters or more is no network |
| `AddrList.EntryText` | openssh-7.3p1/addrmatch.c:390-420 | an entry matches as a network or, when it is none, as a wildcard; a mark in front negates exactly that; an empty one is malformed |
| `AddrList.ParsedNetworkMatch` | openssh-7.3p1/addrmatch.c:312-362 | for a parsed network only family, scope and prefix decide a match |
| `AddrList.JudgeEntry` | openssh-7.3p1/addrmatch.c:390-420 | one entry: malformed, a miss, or a positive or negated hit |
| `AddrList.ScanList` | openssh-7.3p1/addrmatch.c:388-425 | the loop decides by the first malformed or negated matching entry, else by any positive match |
| `AddrList.AddrMatchList` | openssh-7.3p1/addrmatch.c:376-425 | so does the whole function; an address that does not parse never matches |
| `AddrList.AnswersMean` | openssh-7.3p1/addrmatch.c:388-425 | the four answers spelled out: malformed before any negated match, negated match first, plain match with neither, or nothing |
| `AddrList.AnswerIsUnique` | openssh-7.3p1/addrmatch.c:376-425 | that rule determines the answer |

## Left out

- Channels: protocol 1, old peers' quirks, datagram channels, X11, the multiplexer, and the removal of a channel after
  both closes; the end-of-write request is a step that may happen at any time.
- Channels: input and output filters, and the client's own messages on stderr, which the escape filter and failed
  requests put into the buffer of received stderr outside the window.
- Channels: the test in the write handler that ends the process when the buffer holds a file-transfer signature.
- ChannelRuns.CloseIsCleanIff: does not promise stderr written out before a close after a failed write of it, because
  the source closes all the same.
- ChannelProgress.NoDeadlock: says that a continuation with room exists, not that a scheduler takes it.
- ChannelProgress.EverythingCanArrive: likewise.
- Cache: hard links, exchange renames, access times, a listing callback that fails, a file system behind that fails a
  read it could answer, directory handles and option parsing.
- Cache with threads: listings and links are covered one request at a time only.
- Authentication: PAM, GSSAPI, BSD authentication, S/Key, privilege separation, banners, logging, the overflow of the
  attempt counter, and key options; the checks of passwords, signatures and devices are inputs.
- Key equality compares the plain key; certificates on the same key are equal.
- Memory that runs out is modelled for the bitmap and the detector only.
- The contents of the CRC test of the detector, Poly1305, address parsing, number parsing and wildcard matching are
  parameters.
- Global requests of `clientloop.c`: the queue of confirmation callbacks, its reference counts and the order in which
  replies are matched to requests.
- The escape filter handles one session; the state the source shares between multiplexed sessions, and what the
  escape commands do beyond being reported, are not modelled.
- The value 1024 stands for IOV_MAX.
- Terminal recording and database code added by the patch.
