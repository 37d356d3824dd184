# A verified model of tensorchat's core

tensorchat is a team-chat server in Rust with a browser client in TypeScript. This
project models the parts of it whose correctness is not visible from one body, and proves
what they promise. The modules are independent of each other except where noted.

- **Reactive signals** (`SignalGraph`, `SignalEffects`, `SignalQueue`, `SignalRuntime`). The
  push-dirty, pull-recompute graph of `web/src/signals.ts` as mutable nodes. Bodies are a
  small language with conditionals, so dependencies change from run to run. Every read of a
  computed returns what evaluating it from scratch would give, at any point inside a batch
  or a flush; a write marks exactly what is reachable; a flush runs the queued effects in
  the order they were queued, at most 1000 of them; and at rest every effect has seen the
  present values. An effect whose body writes
  nothing and reads nothing untracked then depends on exactly what its body reads.
- **MessagePack codec** (`Utf8`, `Floats`, `MsgPack`, `MsgPackRoundTrip`, `MsgPackExact`,
  `MsgPackWriter`, `MsgPackReader`, `DecodedIds`). The encoder over its growing buffer and the decoder
  over its cursor, both proved against functions on byte sequences, which follow the
  MessagePack specification's "Formats" section.
- **Windowed scroller** (`Layout`, `VirtualList`). Prefix sums, binary search, mounting,
  and the mutual recursion of rendering and measuring, which is proved to end with exactly
  the window of the final scroll position mounted in place.
- **Fanout hub and the service steps around it** (`Fanout`, `Hub`, `Routing`,
  `Workspace`). Connections with bounded queues, subscriptions and membership; every hub or
  service call is one atomic step.
- **Message tables** (`Paging`, `Messages`, `MessageStore`). Threads, reply counts, keyset
  paging and the window around an anchor, over tables modelled as maps.
- **Client log and reactions** (`DecimalIds`, `ClientLog`, `Reactions`). The sorted log
  with its index map, and the folding of reaction deltas against the server's aggregate.
- **Snowflake ids and search dates** (`Ids`, `IdGenerator`, `Calendar`, `SearchDates`,
  `SearchQuery`). The compare-and-swap generator under every interleaving, the closed-form
  calendar, and the id ranges that dates in a query stand for.
- **Rate limits** (`RateLimit`) and **mentions** (`Mentions`).

`Options` and `Text` hold what several modules share.

## What the code does not do

Where a promise is not kept on all inputs, the code is modelled as it is and the exact
condition is proved.

- A connection dropped for being slow stays on its user's list for good, because the later
  teardown returns early (`crates/tensorchat-server/src/hub.rs:137-139`). Its user shows as
  online with no connection left: `Hub.Hub.Disconnect` and `Hub.Hub.PresenceOf` state
  exactly when, and `Hub.SlowTabOutlivesItself` is a run in which it happens.
- `to_sql` keeps ids in order below 2^63, that is for 41 bits of time, until September
  2093; the comment at `crates/tensorchat-store/src/lib.rs:246-248` says 2163, which is
  where 42 bits end (`Ids.SignedIff`, `SearchDates.LastDays`). A `before:` or `after:` bound
  of 42 bits, and a history cursor, compare an id as they should exactly when both are on
  the same side of 2^63 (`SearchDates.SearchBoundsAreExactIff`, `Paging.CursorSelects`). A
  bound past 42 bits wraps (`SearchDates.SearchPastTheRange`).
- Past 42 bits of time a generator repeats ids: exactly those whose words agree in 54 bits
  (`IdGenerator.MintedIdsRepeatIff`; `IdGenerator.ARunRepeats` is such a run).
- The first history page's bound is exclusive, so a message whose id is the largest signed
  integer would never be shown (`Paging.VisitsTheChannelIff`).
- A string that starts with a byte order mark loses it in a round trip, and negative zero
  comes back as zero (`MsgPackExact.UnchangedIffPlain`).
- `parse_date` is described as strict but accepts signs where the format has digits; a token
  it reads is in the format exactly when it has none (`SearchDates.StrictIffUnsigned`).
- Comparing ids by length and then by text is comparing their numbers exactly for numerals
  without superfluous zeros (`DecimalIds.ComparesNumericallyIff`).
- A page put in front of the client's log leaves it out of order exactly when it has an
  unknown message that is not older than the log (`ClientLog.Log.PrependPage`).
- Some run of the address limiter is answered differently because idle buckets are evicted,
  unless ten minutes earn the whole capacity (`RateLimit.EvictionNeverShowsIff`).

## Model

| member | source | states |
|---|---|---|
| SignalGraph.EvalDependsOnTrace | web/src/signals.ts:322-344 | A computed body's value and the set of sources it reads depend only on the values of those sources. |
| SignalGraph.ClosedHoldsReachable | web/src/signals.ts:194-211 | Any set holding a source's direct subscribers and closed under subscriber edges holds everything reachable from it. |
| SignalGraph.UnmarkedKeepsValue | web/src/signals.ts:194-214 | A source the propagation does not reach, and that is clean, has the same from-scratch value after the write. |
| SignalGraph.WriteKeepsCore | web/src/signals.ts:285-289 | After a write that marks exactly the reachable nodes, every computed that is still clean caches its new from-scratch value and has only clean dependencies. |
| SignalGraph.WriteKeepsEffects | web/src/signals.ts:194-219 | Every effect that the write does not queue has still seen the present values of all its sources. |
| SignalGraph.AfterReadOk | web/src/signals.ts:127-134 | A tracked read keeps the cache invariant and, outside running nodes, that being subscribed means depending. |
| SignalGraph.StoredOk | web/src/signals.ts:322-338 | Storing the recomputed value makes the node clean with a correct cache. |
| SignalGraph.EndedSymmetric | web/src/signals.ts:173-176 | After the stale dependencies are dropped, a node that has stopped running is subscribed only to what it depends on. |
| SignalGraph.AbortEffect | web/src/signals.ts:161-176 | A run cut short by the flush cap skips the stale unsubscription and still leaves every computed's cache right. |
| SignalGraph.NewNodeKeepsInv | web/src/signals.ts:270-283 | Creating a node, whoever is running, changes no value and no dependency of any other node. |
| SignalGraph.AtRest | web/src/signals.ts:227-257 | With nothing running, only an empty queue is left, and every effect saw the present values of its sources. |
| SignalEffects.ReadsDependOnReads | web/src/signals.ts:259-264 | What an effect body without writes and untracked reads would read depends only on the values of what it reads. |
| SignalEffects.ThoroughWrite | web/src/signals.ts:285-289 | A write leaves every effect it does not queue depending on exactly what its body would read now. |
| SignalEffects.ThroughEnded | web/src/signals.ts:155-177 | At the end of its run an effect depends on exactly the sources its body read. |
| SignalQueue.PlainQueueRunsOnce | web/src/signals.ts:227-257 | Queued effects that write nothing run exactly once each, in the order they were queued, and the flush succeeds exactly if the cap allows them all. |
| SignalQueue.OnlyWaitingRun | web/src/signals.ts:233-253 | A flush runs no effect that is disposed or still running, and at most 1000. |
| SignalQueue.RunnableIs | web/src/signals.ts:233-243 | What a flush may run is exactly the queued effects that are neither running nor disposed, in the order of the queue. |
| SignalRuntime.Runtime.ReadAt | web/src/signals.ts:340-344 | Glitch freedom: reading a signal or computed, from any consumer and in any reachable state, returns the from-scratch value, and the reader comes to depend on it. |
| SignalRuntime.Runtime.Recompute | web/src/signals.ts:322-338 | A recomputation ends with a clean node; no node that was clean becomes stale, and no effect's links change. |
| SignalRuntime.Runtime.RunExpr | web/src/signals.ts:155-177 | Evaluating a body over the caches gives its from-scratch value, and the consumer gains exactly the sources on the path it took. |
| SignalRuntime.Runtime.EndRun | web/src/signals.ts:168-176 | Exactly the sources of the last run that were not read again lose the subscription. |
| SignalRuntime.Runtime.PropagateChange | web/src/signals.ts:194-214 | On any graph, cyclic or not, the walk ends having marked dirty exactly the reachable computeds and returns each reachable effect once. |
| SignalRuntime.Runtime.Write | web/src/signals.ts:285-289 | An equal value changes nothing, queues nothing and runs nothing. Another is stored and queues exactly the effects it reaches, once each, behind what is queued; outside a batch and a flush these run in turn, and the signals are the write followed by their bodies. |
| SignalRuntime.Runtime.MaybeDrain | web/src/signals.ts:227-257 | Terminates after at most 1000 effect runs, leaves only running effects queued, and runs what was queued in turn and then what those runs queued; the signals are what the bodies, one after the other, make of them. The consumer around it gains nothing; nested calls and calls with nothing to run do nothing. |
| SignalRuntime.Runtime.RunEffectNode | web/src/signals.ts:259-264 | The run performs the writes its body means, with the flushes that each of them sets off outside a flush and a batch, and leaves the effect depending on exactly what the body read. |
| SignalRuntime.Runtime.RunStmt | web/src/signals.ts:259-264 | A body changes the signals as its meaning says, with the flushes in between when it runs outside a flush and a batch, and gathers exactly its reads as dependencies; consumer, depth and queue discipline are as before. |
| SignalRuntime.Runtime.NewSignal | web/src/signals.ts:270-301 | A new signal, created at rest or inside a running effect, disturbs no cache, no effect and no queue. |
| SignalRuntime.Runtime.NewComputed | web/src/signals.ts:307-345 | A new computed, created at rest or inside a running effect, starts out stale and disturbs nothing. |
| SignalRuntime.Runtime.NewEffect | web/src/signals.ts:351-370 | The first run performs the body, with the flushes its writes set off, and what it queued is flushed; created at rest, everything has settled afterwards. |
| SignalRuntime.Runtime.Set | web/src/signals.ts:285-289 | A top-level write of an equal value runs nothing; any other runs the effects it reaches in turn and ends settled: the queue is empty, every live effect saw the present values, and plain ones depend on exactly what they would read now. |
| SignalRuntime.Runtime.BeginBatch | web/src/signals.ts:384-385 | Opening a batch only makes it one deeper; the invariant holds throughout. |
| SignalRuntime.Runtime.EndBatch | web/src/signals.ts:384-392 | Leaving the outermost batch flushes what was queued, in turn, with at most 1000 runs and ends settled; leaving an inner one runs nothing. |
| SignalRuntime.Runtime.Read | web/src/signals.ts:340-344 | A read outside any run returns the from-scratch value, also in the middle of a batch. |
| SignalRuntime.Runtime.Dispose | web/src/signals.ts:372-377 | A disposed effect is marked so, whatever else is running, and unless a flush was capped it is subscribed to nothing any more. |
| Utf8.RoundTrip | web/src/msgpack.ts:169-224 | Decoding encoded text gives it back, less one leading byte order mark. |
| Utf8.EncodedLength | web/src/msgpack.ts:169-191 | Three bytes for each code unit are always enough for a string's encoding, so the four reserved are. |
| Utf8.AsciiDecode | web/src/msgpack.ts:537-560 | On pure ASCII the byte-by-byte fast path builds what the decoder would. |
| MsgPack.BERoundTrip | web/src/msgpack.ts:118-145 | A big-endian field of k bytes reads back as the number written, for every number it can hold. |
| Floats.WidenIsExact | web/src/msgpack.ts:626-627 | A float32 is read as the number it denotes, subnormals and signs included; infinities and not-a-number stay such. |
| Floats.ClassifyIff | web/src/msgpack.ts:296-297 | A number is written as the integer n exactly when it is n, safe, and not negative zero (which is written as 0). |
| MsgPackRoundTrip.EncodeDecode | web/src/msgpack.ts:357-420 | For every encodable value, decoding its encoding followed by any bytes yields its normal form and consumes exactly the encoding. |
| MsgPackRoundTrip.IntRoundTrip | web/src/msgpack.ts:296-337 | Every safe integer, in whichever of the nine widths the encoder picks, decodes to itself. |
| MsgPackExact.IntIsShortest | web/src/msgpack.ts:296-337 | No bytes of an integer format are shorter than those the encoder picks. |
| MsgPackRoundTrip.BigIntRoundTrip | web/src/msgpack.ts:339-355 | A 64-bit bigint comes back as the number if a number holds it exactly, and otherwise as the numeral that spells it, with its sign. |
| MsgPackRoundTrip.StrRoundTrip | web/src/msgpack.ts:169-224 | Strings of every length below 2^32 bytes survive under each of the four headers. |
| MsgPackExact.UnchangedIffPlain | web/src/msgpack.ts:357-413 | A value is its own normal form exactly when it has no undefined, negative zero, bigint, Map, repeated key or string with a leading byte order mark. |
| MsgPackExact.EntriesAppend | web/src/msgpack.ts:700-708 | Decoding pairs into an object keeps all of them in order exactly when no key repeats. |
| MsgPackExact.UpsertReplaces | web/src/msgpack.ts:700-708 | A repeated key replaces the value where the key stands, and no other entry. |
| MsgPackExact.DecodedIntsAreSafe | web/src/msgpack.ts:574-578 | Whatever the bytes, an integer anywhere in a decoded value is a number only if a number holds it exactly. |
| DecodedIds.IdArrivesExactly | web/src/protocol.ts:188-190 | Every 64-bit id arrives at the client as its canonical decimal numeral. |
| DecodedIds.IdsArriveInOrder | web/src/protocol.ts:180-190 | The client orders the 64-bit ids it decoded as their numbers, and takes two for the same exactly when they are. |
| MsgPackExact.DecodesByPrefix | web/src/msgpack.ts:581-690 | A successful decode depends on nothing past the bytes it reports as consumed. |
| MsgPackWriter.Writer.Ensure | web/src/msgpack.ts:87-98 | Doubling makes room for the bytes asked for and keeps everything written so far. |
| MsgPackWriter.Writer.EncodeString | web/src/msgpack.ts:169-224 | Reserving, encoding five bytes ahead and shifting left appends exactly the header and the encoding, inside the buffer, and changes no earlier byte. |
| MsgPackWriter.Writer.EncodeNumber | web/src/msgpack.ts:296-337 | Appends exactly the specified bytes of a safe integer. |
| MsgPackWriter.Writer.EncodeValue | web/src/msgpack.ts:357-413 | Appends exactly the value's encoding, and throws exactly when some part of it cannot be encoded. |
| MsgPackWriter.EncodeToBytes | web/src/msgpack.ts:416-420 | The bytes handed out are the encoding of the value, or none when it throws. |
| MsgPackReader.Reader.ReadStr | web/src/msgpack.ts:537-560 | Both string paths agree with the decoder and advance by exactly the length, or stop at the end of the buffer. |
| MsgPackReader.Reader.DecodeValue | web/src/msgpack.ts:581-690 | On any bytes the cursor decoder stays in bounds, terminates, gives the specified value or error, and stands right after what it used. |
| MsgPackReader.Reader.DecodeMap | web/src/msgpack.ts:700-708 | Pairs are assigned in turn, a later one replacing an equal key in its place. |
| MsgPackReader.DecodeBytes | web/src/msgpack.ts:711-715 | Decoding a buffer is the specified decoding of its front. |
| Layout.OffsetsAscend | web/src/virtual-list.ts:452-458 | Prefix sums of non-negative heights ascend. |
| Layout.IndexAtBounds | web/src/virtual-list.ts:465-480 | The row found for an offset starts at or above it, and the next one below it. |
| Layout.VisibleRowsInWindow | web/src/virtual-list.ts:308-323 | Every row with a pixel inside the viewport lies in the window. |
| Layout.WindowByRows | web/src/virtual-list.ts:316-321 | The window is exactly the rows from `overscan` before the last row that starts at or above the viewport's top to `overscan` after the last one that starts at or above its bottom. |
| VirtualList.List.FindIndexAtOffset | web/src/virtual-list.ts:465-480 | The binary search finds the last row that starts at or above the target. |
| VirtualList.List.MountWindow | web/src/virtual-list.ts:325-368 | Afterwards exactly the window's keys are mounted, each in place; rows that stay keep their elements, and exactly the unmeasured ones are to be measured. |
| VirtualList.List.RenderVisible | web/src/virtual-list.ts:308-372 | Terminates with exactly the rows at most `overscan` rows from the viewport of the final scroll position mounted, at their prefix sums and measured; newly measured rows have the heights they measure, no other height changed, and the position moved only by compensated batches. |
| VirtualList.List.MeasureRows | web/src/virtual-list.ts:393-407 | Measures the mounted rows it is given, known before or not; if some height changed, the list is rendered again, and else nothing but the measured flags changes. |
| VirtualList.List.AdjustHeights | web/src/virtual-list.ts:435-448 | A batch of height changes leaves the first row at or below the viewport's top at the same place on screen. |
| VirtualList.List.SetItems | web/src/virtual-list.ts:146-200 | Kept items keep their heights, the scroll position is restored, and the render follows from there. |
| VirtualList.List.ReplaceItems | web/src/virtual-list.ts:146-197 | Pinned lists go to the bottom, otherwise the row at the top is put back, otherwise the position is clamped. |
| VirtualList.AnchorKeepsPlace | web/src/virtual-list.ts:485-493 | If the list was not pinned and the row at the top survives, it is exactly where it was, up to the ends of the scroll range. |
| VirtualList.PinnedEndsAtBottom | web/src/virtual-list.ts:187-188 | A list that was pinned ends with its bottom at the viewport's, or at its top if it does not fill it. |
| VirtualList.LostAnchorStaysNear | web/src/virtual-list.ts:193-195 | With no row to hold on to, the position stays, as far as the new scroll range reaches. |
| VirtualList.List.ScrollToIndex | web/src/virtual-list.ts:256-269 | Aims at the start of the row, or at its end at the bottom of the viewport, within the scroll range, and renders there, whatever was rendered before. |
| VirtualList.TargetShows | web/src/virtual-list.ts:256-269 | The row's start comes to the top of the viewport, or its end to the bottom, as far as the scroll range reaches; an index past an end is the row there. |
| VirtualList.List.Scroll | web/src/virtual-list.ts:299-306 | After a scroll exactly the window there is rendered, the position moving on only to compensate measured heights. |
| VirtualList.List.InvalidateAll | web/src/virtual-list.ts:236-244 | Re-measures every mounted row; a rendered window stays rendered, and one that was not is rendered as soon as a height has changed. |
| VirtualList.List.Invalidate | web/src/virtual-list.ts:245-253 | One mounted row is measured anew and the list follows its height; an unmounted one is only marked. |
| VirtualList.List.Refresh | web/src/virtual-list.ts:223-233 | Every mounted row gets the height it now measures, where rows can be refreshed at all; a rendered window stays rendered. |
| Fanout.FanKeepsNoGaps | crates/tensorchat-server/src/hub.rs:311-338 | One fanout keeps every connection free of gaps, every queue bounded, and deregisters and counts each overflowing connection once. |
| Fanout.OneMoreTarget | crates/tensorchat-server/src/hub.rs:258-266 | Delivering to targets one after the other is one fanout to all of them. |
| Fanout.GotMeans | crates/tensorchat-server/src/hub.rs:311-338 | A registered connection with room gains exactly what was sent to it, at the back of its queue and history; one without is dropped with a full queue; nobody else's queue or history changes. |
| Fanout.GotNext | crates/tensorchat-server/src/hub.rs:311-338 | One fanout more is one frame more for those it is aimed at and nothing for the others, also after a connection was dropped. |
| Fanout.FanGot | crates/tensorchat-server/src/hub.rs:258-266 | A fanout sends its frame once to each target and nothing to anybody else. |
| Fanout.TakeKeepsNoGaps | crates/tensorchat-server/src/ws.rs:79-90 | What a socket takes off its queue is the first frame addressed to it that it has not received. |
| Fanout.LeaveKeepsLists | crates/tensorchat-server/src/hub.rs:147-156 | Taking a connection off its user's list empties it exactly when no other connection, registered or dropped, keeps the user online. |
| Fanout.OnlyRegistered | crates/tensorchat-server/src/hub.rs:281-296 | Aiming at a user's whole list is aiming at their registered connections. |
| Hub.Hub.Connect | crates/tensorchat-server/src/hub.rs:113-130 | A new connection has a new id, an empty queue, and listens to nothing. |
| Hub.Hub.Disconnect | crates/tensorchat-server/src/hub.rs:136-158 | Removes the connection from every list, and reports the user gone exactly when it was registered and nothing else keeps them online. |
| Hub.Hub.Subscribe | crates/tensorchat-server/src/hub.rs:161-173 | Adds exactly the named pairs, each once. |
| Hub.Hub.SubscribeUser | crates/tensorchat-server/src/hub.rs:183-192 | Adds every connection on the user's list to the channel and nothing else. |
| Hub.Hub.Unsubscribe | crates/tensorchat-server/src/hub.rs:194-200 | Removes exactly the named pairs. |
| Hub.Hub.UnsubscribeUser | crates/tensorchat-server/src/hub.rs:210-219 | Removes every connection on the user's list from the channel and nothing else. |
| Hub.Hub.Deliver | crates/tensorchat-server/src/hub.rs:311-338 | Sends the frame to this connection and nothing to any other, and says whether it was registered, open and had room. |
| Hub.Hub.Broadcast | crates/tensorchat-server/src/hub.rs:248-271 | Sends the frame to every listener but the excepted one and nothing to anybody else; the count returned is the number that had room. |
| Hub.Hub.SendToUser | crates/tensorchat-server/src/hub.rs:280-301 | The same for every registered connection of one user. |
| Hub.Hub.Recv | crates/tensorchat-server/src/ws.rs:79-90 | A socket receives what was addressed to it in order, once each, also after it was deregistered. |
| Hub.Hub.CloseReceiver | crates/tensorchat-server/src/ws.rs:165-165 | When the socket goes, what was queued is lost with it and nothing else changes. |
| Hub.Hub.PresenceOf | crates/tensorchat-server/src/hub.rs:345-353 | Offline exactly when no registered and no dropped connection of the user remains. |
| Hub.Hub.SetPresence | crates/tensorchat-server/src/hub.rs:357-369 | Reports a presence exactly when the override changed it. |
| Hub.SlowTabOutlivesItself | crates/tensorchat-server/src/hub.rs:136-139 | A run after which nobody is registered, yet the teardown did not report the user gone and they show as online. |
| Routing.SubUserKeepsRouted | crates/tensorchat-server/src/service.rs:324-327 | Subscribing a new member's connections restores agreement between routing and membership. |
| Routing.UnsubUserKeepsRouted | crates/tensorchat-server/src/service.rs:399-411 | Unsubscribing a former member's connections restores it too. |
| Routing.ToldGot | crates/tensorchat-server/src/service.rs:347-350 | Telling a list sends the frame to each registered connection once for every time its user is on the list, and nothing to anybody else. |
| Routing.ArrivalsAreHeard | crates/tensorchat-server/src/service.rs:471-487 | Each arrival hears of itself, is told about the channel and hears of all later arrivals; earlier listeners hear of all; nobody else hears anything. |
| Routing.NewChannelKeepsTables | crates/tensorchat-store/src/channels.rs:81-119 | A new channel keeps names distinct, and direct conversations with fixed members and one for each member set. |
| Workspace.Workspace.SendReady | crates/tensorchat-server/src/ws.rs:189-232 | After its snapshot a connection listens to every channel its user is a member of. |
| Workspace.Workspace.Sub | crates/tensorchat-server/src/ws.rs:282-311 | Adds exactly the asked-for channels the user is a member of, and refuses aloud exactly when one was not. |
| Workspace.Workspace.Unsub | crates/tensorchat-server/src/ws.rs:313-315 | Removes exactly the named channels, and routing still agrees with membership. |
| Workspace.Workspace.Disconnect | crates/tensorchat-server/src/ws.rs:163-168 | Tearing a connection down ends its subscriptions, keeps routing in agreement with membership, and reports the user gone exactly when it was registered and nothing else keeps them online. |
| Workspace.Workspace.CreateChannel | crates/tensorchat-server/src/service.rs:281-329 | Each refusal and its order; otherwise exactly the creator and the listed users become members and are routed there, and each of their registered connections is sent the announcement once for every time its user is named. |
| Workspace.Workspace.OpenDm | crates/tensorchat-server/src/service.rs:332-352 | Yields the one conversation with exactly these members, creating it only if there was none, and sends the announcement to each of their registered connections once; each refusal and exactly when it is given. |
| Workspace.Workspace.JoinChannel | crates/tensorchat-server/src/service.rs:356-389 | Only public, unarchived channels; a first join adds the member, who is sent the announcement and the channel, while other listeners are sent the announcement. |
| Workspace.Workspace.AddMembers | crates/tensorchat-server/src/service.rs:428-489 | All or nothing; returns exactly those who joined, each of whom hears their own arrival and all later ones. |
| Workspace.Workspace.LeaveChannel | crates/tensorchat-server/src/service.rs:391-413 | Removes exactly that membership, announces it to those who listened before, and leaves no registered connection of the user routed there. |
| Workspace.Workspace.RemoveMember | crates/tensorchat-server/src/service.rs:496-526 | A member may remove any other, with the same announcement; the removed user's registered connections are no longer routed there. |
| Workspace.Workspace.Depart | crates/tensorchat-server/src/service.rs:512-524 | The departure is announced to those who listened before, the leaver included, and only then unrouted. |
| Workspace.Workspace.Post | crates/tensorchat-server/src/service.rs:87-93 | A message reaches registered connections of current members only, and all of those that had their snapshot and did not unsubscribe. |
| Paging.DescUnique | crates/tensorchat-store/src/messages.rs:301-305 | A set of ids has exactly one descending order. |
| Paging.PageIsPrefix | crates/tensorchat-store/src/messages.rs:288-333 | A page is the front of what is older than its cursor, it is full unless it is the last, and its own cursor continues with exactly the rest. |
| Paging.PageSize | crates/tensorchat-store/src/messages.rs:298-298 | Limits from 1 to 200 are the size of a page, and others count as the nearest of them. |
| Paging.WindowSize | crates/tensorchat-store/src/messages.rs:371-371 | Limits from 2 to 200 are the size of a window, and others count as the nearest of them. |
| Paging.VisitsAll | crates/tensorchat-store/src/messages.rs:288-333 | Following the cursors visits every row below the first bound once, in descending order, and stops. |
| Paging.VisitsTheChannelIff | crates/tensorchat-store/src/messages.rs:310-312 | From the newest page on that is the whole channel exactly when no id is the largest signed integer. |
| Paging.PagingIsStable | crates/tensorchat-store/src/messages.rs:283-287 | Rows newer than the cursor never change the pages still to come. |
| Paging.CursorSelects | crates/tensorchat-store/src/messages.rs:312-312 | A caller's cursor selects the ids below it exactly when every id of the channel is on its side of 2^63. |
| Paging.HistoryAround | crates/tensorchat-store/src/messages.rs:348-431 | The window is a contiguous stretch, contains a top-level anchor, has min(limit, available) rows, gives each side its half as far as it can fill it, and its cursor continues with exactly the older remainder. |
| Paging.WindowThenPages | crates/tensorchat-store/src/messages.rs:417-430 | A window and the pages after it are together everything from its newest row to the channel's oldest. |
| Messages.InsertKeepsThreads | crates/tensorchat-store/src/messages.rs:91-131 | After any insert every reply's root is a top-level message of its own channel and every count is the number of its replies. |
| Messages.InsertKeepsNewest | crates/tensorchat-store/src/messages.rs:172-174 | The channel pointer stays the greatest id inserted, in the order of the signed column, whatever order they arrive in. |
| Messages.NewestIsGreatestIff | crates/tensorchat-store/src/lib.rs:246-257 | That is the greatest id exactly when every id of the channel is below 2^63. |
| Messages.UpdateKeepsThreads | crates/tensorchat-store/src/messages.rs:229-281 | Editing or deleting a row changes no thread, no count and no page. |
| Messages.InsertWhilePaging | crates/tensorchat-store/src/messages.rs:72-180 | A message that arrives while a client pages leaves the pages to come alone exactly if it is no top-level message of that channel older than the cursor. |
| MessageStore.Store.InsertMessage | crates/tensorchat-store/src/messages.rs:72-202 | Each refusal and exactly when it is given; otherwise the row, attached to its parent or to the parent's own root, whose count and thread grow by it; the pointer, the badges of mentioned members, and exactly the author's own unbound uploads change. |
| MessageStore.Store.EditMessage | crates/tensorchat-store/src/messages.rs:229-244 | Changes the body exactly when the caller wrote the message and it is not deleted, and tells no other case apart. |
| MessageStore.Store.DeleteMessage | crates/tensorchat-store/src/messages.rs:250-281 | Blanks the row and removes exactly its badges and reactions; threads, counts and pages stay. |
| MessageStore.Store.SetReaction | crates/tensorchat-store/src/messages.rs:541-567 | Changes exactly one entry, and reports a change exactly when there was one. |
| MessageStore.Store.History | crates/tensorchat-store/src/messages.rs:288-333 | Exactly non-members are refused; members get the front of the older top-level rows, full unless it is the last page, whose cursor continues with exactly the rest. |
| MessageStore.Store.Around | crates/tensorchat-store/src/messages.rs:348-431 | The anchor must be in the named channel; the window contains it exactly when it is no reply. |
| MessageStore.Store.Thread | crates/tensorchat-store/src/messages.rs:434-454 | A thread is its root and as many replies as the root counts, oldest first. |
| DecimalIds.CompareIsNumeric | web/src/protocol.ts:180-185 | Comparing canonical decimal ids by length and then by text is comparing their numbers. |
| DecimalIds.ComparesNumericallyIff | web/src/protocol.ts:182-185 | A string of digits compares as its number with every canonical numeral exactly when it is canonical itself. |
| ClientLog.Log.LowerBound | web/src/store.ts:599-608 | The binary search splits the log into ids below and ids not below. |
| ClientLog.Log.AddMessage | web/src/store.ts:248-268 | Wherever a message falls, adding it is insertion into an ordered set keyed by id, and the index stays the exact inverse. |
| ClientLog.Log.Splice | web/src/store.ts:262-266 | Renumbering from the insertion point restores the exact inverse. |
| ClientLog.Log.PrependPage | web/src/store.ts:271-284 | A page's unknown messages go in front, sorted, and the index stays the exact inverse; the log is in order afterwards exactly when they are older than its first message. |
| ClientLog.PrependInOrderIff | web/src/store.ts:274-279 | A sorted page may go in front exactly when it is older than the log's first message. |
| ClientLog.Log.ShowAround | web/src/store.ts:293-303 | The log becomes exactly the window, in order, and is marked as one. |
| ClientLog.Log.ResetToLive | web/src/store.ts:311-320 | The log is empty, live and not complete. |
| ClientLog.Log.ApplyMessage | web/src/store.ts:354-360 | A live message joins a live log and never a window. |
| ClientLog.Log.PatchMessage | web/src/store.ts:322-328 | Changes the one message of that id and keeps order and index. |
| ClientLog.ArrivalOrderIsIrrelevant | web/src/store.ts:242-268 | Logs that started alike and were given the same messages, each once and in whatever order, are the same array. |
| ClientLog.ReceiveBoth | web/src/store.ts:354-360 | Two clients that receive the same messages in different orders show the same log. |
| ClientLog.OrderedUnique | web/src/store.ts:242-268 | An ordered log is determined by the messages it holds. |
| Reactions.ReactionsFor | crates/tensorchat-store/src/messages.rs:482-509 | Grouping gives one line for each emoji in use with its count and the viewer's flag, none empty, none repeated, the most used first and equals by emoji. |
| Reactions.FoldAgrees | web/src/store.ts:398-418 | Folding the delta of a real change keeps the lines equal to the aggregate. |
| Reactions.FoldAgreesIff | crates/tensorchat-server/src/service.rs:183-195 | Folding a delta keeps agreement exactly when the toggle changed the table, or removed an emoji nobody has: why only changes are broadcast. |
| Reactions.FoldingRefinesTheAggregate | web/src/store.ts:392-420 | From a hydrated message on, over every run of toggles, refusals and a deletion, the folded lines are the aggregate for that viewer. |
| Reactions.AggregateIsUnique | crates/tensorchat-store/src/messages.rs:482-509 | Lines in agreement with the same table are the same lines. |
| Reactions.AggregateIsDetermined | crates/tensorchat-store/src/messages.rs:489-491 | In the server's order the aggregate of a table is one sequence. |
| Reactions.ApplyReact | web/src/store.ts:398-419 | The frame folds into the one message it names. |
| Reactions.ApplyDelete | web/src/store.ts:392-396 | A deletion blanks the one message it names and clears its lines. |
| Ids.PackFields | crates/tensorchat-core/src/id.rs:58-67 | Time, node and sequence come back out of a packed id. |
| Ids.FieldsOnWords | crates/tensorchat-core/src/id.rs:58-67 | On 64-bit words the three fields do not overlap, and shifting and masking gives them back. |
| Ids.FloorIsLeastIff | crates/tensorchat-core/src/id.rs:69-76 | The floor of a time is the least id of that time or later, for exactly the times with a 42-bit field. |
| Ids.SignedIff | crates/tensorchat-store/src/lib.rs:246-252 | An id fits a signed column exactly when its time has 41 bits. |
| Ids.NextIsMaxIff | crates/tensorchat-core/src/id.rs:181-192 | The three-way branch is max(now * 4096, cur + 1), exactly when nothing leaves the word. |
| Ids.MintOrder | crates/tensorchat-core/src/id.rs:199-201 | With the time in 42 bits, ids are ordered as the generator's words. |
| Ids.MintRepeatsIff | crates/tensorchat-core/src/id.rs:58-67 | Two words make the same id exactly when they agree in their low 54 bits. |
| IdGenerator.WinKeepsGrown | crates/tensorchat-core/src/id.rs:194-201 | A successful exchange makes the word grow, by no more than the clock or one id. |
| IdGenerator.MintedIdsIncrease | crates/tensorchat-core/src/id.rs:177-206 | Under every interleaving, stale load, spurious failure and clock, ids increase in the order of the exchanges, carry the node, and run ahead of the clock by at most n / 4096. |
| IdGenerator.NodesDoNotCollide | crates/tensorchat-core/src/id.rs:158-163 | Generators of different nodes never mint the same id, in whatever range. |
| IdGenerator.MintedIdsRepeatIff | crates/tensorchat-core/src/id.rs:199-201 | Over every run, in whatever range, two calls return the same id exactly when the words of their exchanges agree in 54 bits. |
| IdGenerator.ARunRepeats | crates/tensorchat-core/src/id.rs:177-206 | A clock that jumps by 2^42 milliseconds makes two calls return one id. |
| IdGenerator.MintedIdsFitColumn | crates/tensorchat-store/src/lib.rs:246-252 | The ids of a run fit the signed column while their time has 41 bits. |
| Calendar.ClosedFormCounts | crates/tensorchat-core/src/query.rs:108-123 | For every valid date of every year, negative ones included, the closed form is the count of days from 1970-01-01 by the lengths of years and months. |
| Calendar.NextDayCounts | crates/tensorchat-core/src/query.rs:98-106 | The day after a valid date is valid and one day on. |
| Calendar.DayNumberOrders | crates/tensorchat-core/src/query.rs:114-123 | Day numbers are ordered as dates are, and no two dates share one. |
| SearchDates.RenderedDateIsRead | crates/tensorchat-core/src/query.rs:74-92 | Every valid date of four digits, written out, is read as its midnight. |
| SearchDates.ReadDateIsValid | crates/tensorchat-core/src/query.rs:74-92 | Whatever is read is midnight of a valid date, clamped at 1970. |
| SearchDates.StrictIffUnsigned | crates/tensorchat-core/src/query.rs:69-92 | The tokens of the documented format are exactly the tokens read that have no sign where the format has a digit. |
| SearchDates.BeforeIsExactIff | crates/tensorchat-core/src/query.rs:171-177 | An id lies below the bound exactly when its day is earlier, for exactly the days whose midnight has 42 bits. |
| SearchDates.AfterIsExactIff | crates/tensorchat-core/src/query.rs:178-184 | An id lies at or above the bound exactly when its day is later, under the same condition one day on, days before 1970 included. |
| SearchDates.SearchBoundsAreExactIff | crates/tensorchat-store/src/search.rs:191-192 | Compared as signed columns, a bound of 42 bits puts an id on the right side exactly when both have 41 bits of time or neither has. |
| SearchDates.SearchPastTheRange | crates/tensorchat-store/src/search.rs:191-192 | A later bound should let every id through `before:` and none through `after:`, and does so exactly for the ids below the bound it wraps to. |
| SearchDates.BoundOverColumnIff | crates/tensorchat-store/src/search.rs:191-192 | Over the ids below 2^63 a bound is right for every one exactly while it has 41 bits itself. |
| SearchDates.LastDays | crates/tensorchat-core/src/id.rs:20-21 | 41 bits end on 6 September 2093 and 42 bits on 15 May 2163. |
| SearchQuery.Parse | crates/tensorchat-core/src/query.rs:126-145 | The text is the unrecognized tokens in order and verbatim, and of each kind of filter the last recognized one counts, flags being set by any. |
| SearchQuery.LaterOnesWin | crates/tensorchat-core/src/query.rs:126-145 | Each filter of a query is what the last token that sets it sets, and is absent exactly when none does. |
| SearchQuery.DateTokens | crates/tensorchat-core/src/query.rs:171-184 | `before:` and `after:` in any case set the bound of the date after the colon and nothing else. |
| SearchQuery.NameTokens | crates/tensorchat-core/src/query.rs:153-169 | `from:` and `in:` in any case set the name behind any leading marks, in lowercase, if there is one. |
| SearchQuery.HasTokens | crates/tensorchat-core/src/query.rs:185-199 | Each word after `has:` sets its own flag, in any case, and other words none. |
| SearchQuery.OtherTokens | crates/tensorchat-core/src/query.rs:126-145 | No other key is a filter, and neither is a token without a colon or with nothing after it. |
| SearchQuery.TokensSplit | crates/tensorchat-core/src/query.rs:130-130 | White space separates words, whichever it is and however much of it. |
| SearchQuery.LeftoverIsPlainText | crates/tensorchat-core/src/query.rs:8-16 | Parsing the leftover text again gives the same text and no filters. |
| RateLimit.Bucket.AllowN | crates/tensorchat-server/src/ratelimit.rs:50-66 | Grants exactly when the refilled bucket holds enough, and then spends it. |
| RateLimit.TokensConserved | crates/tensorchat-server/src/ratelimit.rs:50-66 | What was granted and what is left never exceed what was there and what time refilled. |
| RateLimit.GrantedIsSpent | crates/tensorchat-server/src/ratelimit.rs:50-58 | While the clock stands still what is granted is exactly what the bucket loses. |
| RateLimit.RateBound | crates/tensorchat-server/src/ratelimit.rs:21-25 | Any stretch of requests is granted at most the capacity and the refill of the time since its first one, whatever the clock readings. |
| RateLimit.IntervalBound | crates/tensorchat-server/src/ratelimit.rs:21-25 | With clock readings in order, the requests of an interval are granted at most the capacity and what the interval earns. |
| RateLimit.Serve | crates/tensorchat-server/src/ratelimit.rs:122-135 | A server that asks the limiter before each request gets the answers of the run with eviction. |
| RateLimit.AddressBound | crates/tensorchat-server/src/ratelimit.rs:122-135 | From any state on, an address is granted at most the capacity and what the time earns; with eviction, as long as ten minutes earn the capacity. |
| RateLimit.EvictionIsInvisible | crates/tensorchat-server/src/ratelimit.rs:126-129 | If ten minutes earn the capacity, no run of calls is answered differently than without eviction. |
| RateLimit.EvictionNeverShowsIff | crates/tensorchat-server/src/ratelimit.rs:126-129 | No run of calls is answered differently for the eviction exactly when ten minutes earn the capacity, or the capacity is below one token; otherwise a run with 4097 addresses is. |
| RateLimit.BurstIff | crates/tensorchat-server/src/ratelimit.rs:21-25 | At one instant a bucket grants exactly as many requests as it holds whole tokens. |
| RateLimit.WaitEarns | crates/tensorchat-server/src/ratelimit.rs:50-66 | After a wait a bucket grants exactly the whole tokens that it held or that the wait has earned, up to its capacity. |
| Mentions.ScanMentions | crates/tensorchat-core/src/text.rs:34-79 | The skipping scan returns the first 64 distinct mentions over all positions, left to right. |
| Mentions.MentionRead | crates/tensorchat-core/src/text.rs:42-71 | What any at sign means: nothing inside a word or without a word behind it, "here", "channel" and "everyone" in any case their own meaning, and else the user, without trailing punctuation. |
| Mentions.MentionedIff | crates/tensorchat-core/src/text.rs:34-79 | The mentions of a body are exactly those at its positions. |
| Mentions.WrittenHandle | crates/tensorchat-core/src/text.rs:132-133 | A usable handle written between text that cannot continue it is a mention of exactly that user. |
| Mentions.AloneIff | crates/tensorchat-core/src/text.rs:134-152 | "@h" alone means exactly the user h if and only if h is lowercase handle bytes, does not end in punctuation and is not reserved; every valid handle is such. |
| Mentions.MentionedIsSpeakable | crates/tensorchat-core/src/text.rs:59-71 | Nothing else is ever found as a user's name. |

## Left out

Signals:
- Nodes created inside a computed's body, cleanup functions, bodies that throw on their own, custom equality and values other than integers.
- Cycles between computeds: a body reads sources created before it, so re-entering a running node cannot happen and its error is not modelled.
- Untracked reads inside computeds and writes inside computeds.
- SignalRuntime.Runtime.Dispose: the effect itself is not running, because an effect that disposes itself goes on reading and would be subscribed again by its own body.
- SignalRuntime.Runtime.NewEffect: of a first run that the cap cuts short nothing is said about the signals.

Codec:
- The bits of a not-a-number are kept as they are, as if engines did not change them; lone surrogates and how malformed UTF-8 is split into replacement characters are not modelled.
- Non-string map keys are kept as they are instead of being turned into strings; integer-like key order and `__proto__` keys.
- Telling an extension object from a plain one by its shape, and typed-array views other than byte arrays.

Scroller:
- `handleResize`, `destroy`, frame scheduling, duplicate keys, and browsers that clamp the scroll position; a row's height is fixed during one call.

Hub and service:
- Interleavings inside a call; in particular the gap between the membership query and the subscription in the snapshot and in `Sub`.
- Encoding frames, push notifications, deactivating accounts, renaming and archiving; a calling user is taken to exist.

Messages:
- Transactions are atomic steps over maps: no pool, no full-text index, no hydration of attachments.
- Read cursors and unread counts, pins, saved messages and mutes.

Client:
- Pending messages, unread counts, typing and presence state.

Ids, dates and limits:
- The clock and the scheduler are arbitrary; memory ordering beyond what one atomic word guarantees.
- `floor_for_ms` of the search bounds is reached through dates of up to four digits only, as the parser accepts them.
- RateLimit works on real numbers, so rounding of 32-bit floats is not modelled; a new bucket's clock reading and the one of its first request are taken as one.
- Bodies are bytes; `handle_from_external` and the other validators.

Everything behind HTTP, OIDC, Web Push, password hashing, the database engine and the DOM.
