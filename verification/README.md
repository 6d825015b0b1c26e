# A verified model of ptraf

ptraf shows the network traffic of a Linux machine. Kernel probes report each socket call, per-CPU tasks
record the calls in a store of time windows, and a terminal interface reads the store through a sparkline,
a socket table and a small filter language. This project models those parts in Dafny and proves what they
promise, over all inputs, all interleavings and all sequences of events.

`dafny verify dfyconfig.toml` checks everything.

## What is proved

**The store** (`Types`, `Clock`, `Traffic`, `Segments`, `Timeline`, `StoreSpec`, `Store`). A segment keeps
five index rows per message and a set of sockets; both agree with the plain log of accepted messages. The
deque of segments is the tail of an unbounded, gap-free timeline, and the slow-path loop computes exactly
that tail. Sequential runs have a closed description: a batch lands in the window of the running maximum of
the requested windows.

**The store under concurrency** (`ConcurrentModel`, `ConcurrentInvariant`, `ConcurrentLedger`,
`ConcurrentTheorems`). Any number of threads, one step per lock operation, per created segment, per inserted
socket and per incremented row. Writers hold only a read guard. No message is lost or counted twice; in every
reachable state the retained segments and the increments still owed add up to the recorded messages; only the
newest segment ever changes; no segment is evicted under a guard; there is no deadlock, even if the lock makes
readers wait for waiting writers; no run of finitely many requests is infinite and every run can finish.

**Whole requests** (`ConcurrentRequests`, `SerialOrder`, `ConcurrentSerial`, `ConcurrentContents`, `RealTime`,
`ConcurrentRealTime`, `ConcurrentRace`). A batch always lands whole in one window. Every run is a sequential run in
which a request that misses the fast path takes effect in two steps: it asks for its window when it drops the
write guard, and submits its batch, for that same window, when it gets its read guard. Because of the race between
the two guards it is not always a sequential run of the requests as single operations: all requests for a window
can land later. `RaceIsNotSequential` is such a run. There are three ways to ask which runs are, and each has its
exact condition:

- Some order of the requests is a sequential run with the same windows in which each request lands where it landed
  (`oldest_timestamp` returns where it lands): the first window, and every window that took a batch, took one that
  was asked for it (`SequentialIff`). The contents then agree; the converse fails (`RaceCanBeInvisible`).
- The same with an order that respects real time: moreover, that batch's request had begun before the other one
  finished (`LinearizableIff`).
- Some order of the requests leaves the same windows with the same messages, wherever the requests landed: some
  anchored way to land them fills the windows as they are (`ContentsIff`). If each request has an accepted message of
  its own, that is the first condition again (`MarkedContentsIff`).

**The views** (`ViewFilter`, `SparklineSpec`, `Sparkline`, `SocketTableSpec`, `SocketTable`, `TableUnderWriters`). The incremental
sparkline equals a recomputation as long as the filter stays the same, also while writers run. If the filter
changes, each window keeps the filter it was first plotted with, and the display is right for the present filter
exactly if in every plotted window the traffic that only the old filter selects equals the traffic that only the
new one selects. The socket table's sums, its early stop and its rate range are exact; while writers run, they are
exact but for the newest window, whose rows are caught between their values at the two ends of the view.

**The filter language** (`FilterLang`, `FilterParser`, `FilterGrammar`, `FilterProofs`, `FilterTheorems`). The
parser works on characters with ordered choice and backtracking. `ParseIffDenotes` proves it equal to a
declarative grammar that does not mention parsing: an expression is returned exactly for the texts of the
language that stand for it. Printing and parsing are inverse, chains fold from the left, and the places where
white space is rejected are known exactly.

**The probes** (`ProbeModel`, `Probe`). The bounded map from threads to sockets is described by the history of
calls alone, for any interleaving and whichever probes are missed; with no return missed, every event belongs
to its own call.

**The user interface** (`EditorSpec`, `FilterEditor`, `UiSpec`, `UiTheorems`, `Ui`, `Frame`). Over every sequence
of events and frames the interface with its cached interpreters refines a machine that keeps texts only. A frame
asks the store for the present window and leaves the sparkline and the table exact.

## Where the code differs from what its names and comments suggest

- `oldest_timestamp` creates missing windows and returns the newest timestamp (`ptraf/src/store.rs:388-390`).
- The race that the source calls harmless loses no message, but two requests that race can leave windows that no
  order of the two leaves (`ptraf/src/store.rs:419-422`).
- `match_interest` compares a `LocalSocket` interest with the remote address (`ptraf/src/store.rs:146`); no view
  asks for it.
- A segment at timestamp 0 is never plotted, because the sparkline starts from 0 when it has no points
  (`ptraf/src/ui/traffic_sparkline.rs:46`).
- With a custom filter, the sparkline ignores the view's own interest (`ptraf/src/ui/traffic_sparkline.rs:75-88`;
  `InterestIgnoredIff` says when that shows), and a later filter is not applied to points already plotted.
- Enter on a draft that does not parse reaches the view's own keys and can leave the view
  (`ptraf/src/ui/filter_editor.rs:161-166`).
- Escape closes the editor without asking for a new frame (`ptraf/src/ui/filter_editor.rs:149-152`).
- White space before a filter is accepted only before an operand, and after it only if it does not end with a
  parenthesised group (`ptraf-filter/src/frontend.rs:100-109`).
- A missed return probe leaves an entry behind that the thread's next unadmitted call reports as its own
  (`ptraf-ebpf/src/ptraf-ebpf.rs:198-214`).

## Model

| member | source | states |
|---|---|---|
| `Types.PortIsBigEndian` | ptraf-common/src/types.rs:36-44 | a port is its two bytes in memory, the first one most significant |
| `Types.EndpointIsBigEndian` | ptraf-common/src/types.rs:88-143 | a kernel endpoint is read as the address and port of its bytes in network order, v4 and v6 |
| `Types.AddressRoundTrip` | ptraf-common/src/types.rs:88-143 | splitting, rejoining and byte-swapping a kernel address loses nothing, in both directions |
| `Types.EndpointsDoNotCollide` | ptraf-common/src/types.rs:36-44 | two kernel endpoints give the same socket address exactly if they are the same; v4 and v6 never meet |
| `Clock.TruncIsWindowStart` | ptraf/src/clock.rs:12-16 | for every window that does not cast to zero, truncation gives the unique aligned start of the window that holds the timestamp, both cast to 64 bits, and is idempotent |
| `Traffic.TouchesIffListed` | ptraf/src/store.rs:30-38 | the five rows of a message are exactly those of the interests that are about it |
| `Traffic.RowsFollowKernelEndpoints` | ptraf/src/store.rs:30-38 | any two events share a local, remote, remote-address or process row exactly if their kernel endpoints, addresses or process ids are the same |
| `Traffic.FoldPermutation` | ptraf/src/store.rs:118-131 | the order of messages does not matter to any counter |
| `Traffic.WrappingCountIsModular` | ptraf/src/store.rs:47-53 | the wrapping 64-bit counters hold the true sums modulo 2^64, for every log |
| `Traffic.CountersDoNotOverflow` | ptraf-common/src/types.rs:28-34 | fewer than 2^33 messages overflow no counter and no sum of rx and tx, because a payload is an i32 |
| `Traffic.RowCounts` | ptraf/src/store.rs:118-131 | for every log, a row's `rx` is the bytes and number of the received successful calls that touch its interest, and `tx` those of the sent ones |
| `Traffic.AcceptedAre` | ptraf-common/src/types.rs:28-34 | exactly the calls with a non-negative result are accepted, each as often as it occurs |
| `Segments.Segment.BatchUpdate` | ptraf/src/store.rs:221-242 | failed calls are skipped; index and socket set agree with the log extended by the accepted messages, and each row counts received and sent bytes and calls separately |
| `Segments.Segment.UpdateOne` | ptraf/src/store.rs:223-241 | one accepted message extends the agreement by itself, whichever representative the set keeps |
| `Segments.Segment.IncrementRows` | ptraf/src/store.rs:228-240 | after the five increments, in order, every row is the fold of the log with the message |
| `Segments.Segment.StatByInterest` | ptraf/src/store.rs:262-264 | a row is returned exactly if an accepted message touches the interest, with the bytes and calls of each direction |
| `Segments.IndexDetermined` | ptraf/src/store.rs:221-242 | the same messages in any order give the same index |
| `Segments.RowPresent` | ptraf/src/store.rs:232-239 | a row exists exactly if some accepted message touches it |
| `Segments.Partition` | ptraf/src/store.rs:30-38 | the rows by process, by local socket, by remote socket and by remote address each add up to the All row |
| `Segments.RemoteIpSplitsByPort` | ptraf/src/store.rs:30-38 | a remote address's row is the sum of the rows of its remote sockets |
| `Segments.SocketsCoverAll` | ptraf/src/store.rs:164-174 | the local rows reached through the set of sockets, one per local address, add up to the All row |
| `Timeline.FillIsFilled` | ptraf/src/store.rs:408-435 | filling appends empty windows without a gap and ends exactly at the requested window, or changes nothing |
| `Timeline.FillUnique` | ptraf/src/store.rs:408-435 | nothing else meets that description |
| `Timeline.RegularAligned` | ptraf/src/store.rs:424 | timestamps are an arithmetic progression of aligned values |
| `Timeline.PushKeepsLast` | ptraf/src/store.rs:429-435 | popping a full deque before a push keeps the last windows of the whole history; capacity 0 acts as 1 |
| `StoreSpec.SequentialShape` | ptraf/src/store.rs:392-437 | after a sequential run the windows go from the first requested one to the running maximum |
| `StoreSpec.SequentialAttribution` | ptraf/src/store.rs:371-378 | each window holds exactly the accepted messages of the batches made while it was the running maximum |
| `StoreSpec.NothingLost` | ptraf/src/store.rs:371-378 | retained and evicted windows together hold everything accepted, in order |
| `StoreSpec.SlidingWindow` | ptraf/src/store.rs:262-264 | for every interest the retained segments sum to the messages of the retained windows; with the evicted ones, to everything |
| `StoreSpec.RetainedIffRecent` | ptraf/src/store.rs:429-431 | a window is retained exactly if it is less than capacity windows behind the newest |
| `StoreSpec.MergedStatsFit` | ptraf/src/store.rs:47-53 | fewer than 2^33 messages keep the sum of any interest's row over the segments within 64 bits |
| `StoreSpec.DequeIsRecent` | ptraf/src/store.rs:429-435 | the deque never exceeds its capacity, holds all windows while they fit, and a window exactly while it is less than capacity windows behind the newest |
| `Store.Store.WriteSegment` | ptraf/src/store.rs:392-437 | afterwards the deque is non-empty and is the last windows of the timeline filled up to the requested window |
| `Store.Store.Slow` | ptraf/src/store.rs:405-437 | the loop ends with the filled timeline and evicts only from the front |
| `Store.Store.Push` | ptraf/src/store.rs:429-435 | one turn of the loop appends one empty window and keeps the store coherent |
| `Store.Store.BatchUpdate` | ptraf/src/store.rs:371-378 | the logs take one step of the sequential specification; all windows but the newest are unchanged |
| `Store.Store.OldestTimestamp` | ptraf/src/store.rs:388-390 | returns the newest timestamp after creating the missing windows |
| `ConcurrentLedger.InvStep` | ptraf/src/store.rs:371-437 | every step of every thread keeps the lock discipline, the ring shape, the phases, the ledger of owed rows and the conservation of messages |
| `ConcurrentTheorems.Reachable` | ptraf/src/store.rs:371-437 | the invariant holds in every reachable state of any number of threads |
| `ConcurrentTheorems.NothingLostConcurrently` | ptraf/src/store.rs:371-378 | when all threads are done, each valid message of each request is in the timeline exactly once |
| `ConcurrentTheorems.SlidingWindowInFlight` | ptraf/src/store.rs:262-264 | in every reachable state, for every interest: retained sums plus the increments still owed are the messages of the retained windows; with the evicted and the unrecorded ones, everything submitted |
| `ConcurrentTheorems.SlidingWindowConcurrently` | ptraf/src/store.rs:262-264 | when all threads are done nothing is owed: retained sums plus evicted messages are everything submitted |
| `ConcurrentTheorems.LocalRowsLead` | ptraf/src/store.rs:221-242 | in every intermediate state the local rows sum to at least the All row, and each has its socket in the set |
| `ConcurrentTheorems.DequeHoldsRecent` | ptraf/src/store.rs:429-435 | the same in every reachable state of any number of threads |
| `ConcurrentTheorems.TargetBetweenRequests` | ptraf/src/store.rs:271-280 | a writer always finds a newest segment, not older than it asked for and not later than anyone asked for |
| `ConcurrentTheorems.StepExtends` | ptraf/src/store.rs:371-437 | no step changes a window that is not the newest |
| `ConcurrentTheorems.RunExtends` | ptraf/src/store.rs:371-437 | a window that stops being the newest stays frozen through every later state |
| `ConcurrentTheorems.ViewIsStable` | ptraf/src/store.rs:282-289 | while a guard is held nothing is added or evicted and only the newest segment changes, however the others run |
| `ConcurrentTheorems.DeadlockFree` | ptraf/src/store.rs:384-437 | while some thread is unfinished, some unfinished thread can step, even if readers wait for waiting writers |
| `ConcurrentTheorems.StepsUseWork` | ptraf/src/store.rs:392-437 | each step that starts nothing new lowers a measure, under every scheduler |
| `ConcurrentTheorems.RunsEnd` | ptraf/src/store.rs:392-437 | a run that starts nothing new is no longer than the work present at its start |
| `ConcurrentTheorems.RowsGrowUnderView` | ptraf/src/store.rs:282-289 | while a view is held the newest segment's rows and sockets only grow |
| `ConcurrentRequests.BatchLandsWhole` | ptraf/src/store.rs:371-378 | from getting its guard until it finishes, no window is created: a batch goes into one window |
| `ConcurrentRequests.RequestsLinearize` | ptraf/src/store.rs:392-437 | outside the slow path, the windows and messages are those of a sequential run of the requests in two steps, each for the window the request asked for, but for landed messages still to be inserted |
| `ConcurrentRequests.SerialEquivalence` | ptraf/src/store.rs:221-242 | when all threads are done, every window has the index and the socket addresses which that run determines |
| `ConcurrentSerial.RequestsLand` | ptraf/src/store.rs:392-437 | each request begun has landed or is on its way, with its window and its whole batch |
| `ConcurrentSerial.LandingsOk` | ptraf/src/store.rs:408-435 | each batch lands in an existing window, not before the one it asked for |
| `ConcurrentSerial.WindowsTake` | ptraf/src/store.rs:371-378 | each window holds exactly the batches that landed in it |
| `SerialOrder.AnchoredHasOrder` | ptraf/src/store.rs:408-435 | if each window with landings, and the first, took a batch asked for it, some order of the requests gives these landings |
| `SerialOrder.OrderedIsAnchored` | ptraf/src/store.rs:408-435 | conversely any order of requests gives landings of that kind |
| `ConcurrentSerial.SequentialIff` | ptraf/src/store.rs:405-437 | in a finished run, some order of the whole requests is a sequential run with the same windows and each request landing where it landed, exactly under that condition; the messages then agree, but not conversely |
| `ConcurrentContents.ContentsIff` | ptraf/src/store.rs:405-437 | some order of the whole requests leaves the same windows with the same messages exactly if some anchored way to land them, not necessarily the run's own, fills the windows so |
| `ConcurrentContents.MarkedContentsIff` | ptraf/src/store.rs:405-437 | if each request has an accepted message no other has, its own landings decide that |
| `RealTime.OrderInTimeIff` | ptraf/src/store.rs:408-435 | an order of the requests that respects real time gives the landings exactly if each landing's window has an exact one whose request had begun before this one finished |
| `ConcurrentRealTime.SpansAreRequests` | ptraf/src/store.rs:371-378 | each landing of a finished run has its request's beginning, with its window and batch, before it and its end after it |
| `ConcurrentRealTime.LinearizableIff` | ptraf/src/store.rs:405-437 | exactly when a finished run is linearizable with each request as one operation |
| `ConcurrentRace.Completion` | ptraf/src/store.rs:392-437 | from every reachable state some run finishes all requests |
| `ConcurrentRace.RaceIsNotSequential` | ptraf/src/store.rs:419-422 | a finished run of two requests whose windows and messages neither order of the two leaves |
| `ConcurrentRace.RaceCanBeInvisible` | ptraf/src/store.rs:419-422 | with a batch of failed calls the same run has no order that lands the requests so, yet some order leaves its windows |
| `ViewFilter.ViewsAreAbout` | ptraf/src/ui.rs:173-182 | a process view is about that process's calls, a remote address view about those with the address, the main view about all |
| `ViewFilter.MatchesIffTouches` | ptraf/src/ui.rs:173-182 | for the interests that views use, matching a message's socket is the same as touching the row |
| `ViewFilter.MatchesIffTouchesIff` | ptraf/src/store.rs:142-150 | over all interests, matching a message's socket is touching the row exactly if a local-socket interest is at both ends of the message or at neither |
| `ViewFilter.OwnLocalSocketMissed` | ptraf/src/store.rs:142-150 | a message between two different addresses is not found under its own local socket, and is found under its remote one |
| `ViewFilter.KernelTypesSelected` | ptraf-common/src/types.rs:167-181 | `tcp` selects the kernel's socket type 1, `udp` type 2, and neither selects any other |
| `ViewFilter.FiltersSelectRows` | ptraf-filter/src/interpretor.rs:28-58 | which sockets each operand and its negation select, in terms of the rows, addresses and types of a message |
| `SparklineSpec.ViewPoints` | ptraf/src/ui/traffic_sparkline.rs:88-92 | without a custom filter a point is the traffic of its window: all of it, that of the process, or that with the remote address |
| `SparklineSpec.FilteredPoint` | ptraf/src/ui/traffic_sparkline.rs:75-88 | with a custom filter a point is the traffic of the calls whose socket passes it |
| `SparklineSpec.OperatorsOnSockets` | ptraf-filter/src/interpretor.rs:46-58 | `not`, `and` and `or` are complement, intersection and union on the sockets that pass |
| `SparklineSpec.NegationShowsTheRest` | ptraf/src/ui/traffic_sparkline.rs:75-88 | what a filter and its negation show of a window adds up to its All row |
| `SparklineSpec.CollectStep` | ptraf/src/ui/traffic_sparkline.rs:40-107 | one collection, however far the store moved on and whatever the filters: known windows keep their filter, new ones get the present one |
| `SparklineSpec.EachWindowKeepsItsFilter` | ptraf/src/ui/traffic_sparkline.rs:40-107 | after any updates, filter changes and collections, there is one point per complete retained window, through the filter of the first collection that found it complete |
| `SparklineSpec.IncrementalIsExact` | ptraf/src/ui/traffic_sparkline.rs:40-107 | with a fixed filter the dataset is the recomputation from the retained segments |
| `SparklineSpec.SamePointIff` | ptraf/src/ui/traffic_sparkline.rs:75-92 | two filters give a window the same point exactly if in each direction the messages that only the first selects carry as many bytes as those that only the second selects |
| `SparklineSpec.ShowsPresentFilterIff` | ptraf/src/ui/traffic_sparkline.rs:75-92 | the dataset is right for the present filter exactly if that balance holds in every plotted window between its first filter and the present one |
| `SparklineSpec.DisplayIsRightIff` | ptraf/src/ui/traffic_sparkline.rs:40-107 | the same over every sequence of updates, filter changes and collections |
| `SparklineSpec.InterestIgnoredIff` | ptraf/src/ui/traffic_sparkline.rs:75-88 | with a custom filter the point is the traffic that passes both filter and view exactly if every message the filter selects outside the view's interest is empty |
| `SparklineSpec.SameFilteredPointIff` | ptraf/src/ui/traffic_sparkline.rs:75-88 | two custom filters show a window alike exactly if the sockets passing only the one have the traffic of those passing only the other |
| `SparklineSpec.UnfilteredPointIff` | ptraf/src/ui/traffic_sparkline.rs:75-92 | a custom filter shows what no filter shows exactly if every socket it hides has no traffic in its row |
| `SparklineSpec.FilterChangeLeavesPoint` | ptraf/src/ui/traffic_sparkline.rs:46-67 | setting a filter on a plotted window leaves its point right exactly if the filter hides no traffic |
| `SparklineSpec.PlottedShape` | ptraf/src/ui/traffic_sparkline.rs:46-106 | points are strictly increasing in time, none at 0, at most one fewer than the retained segments, and they are exactly those of the complete windows after 0 |
| `SparklineSpec.CollectIgnoresNewest` | ptraf/src/ui/traffic_sparkline.rs:98-106 | a collection depends on the frozen segments only |
| `SparklineSpec.FoundIsCollected` | ptraf/src/ui/traffic_sparkline.rs:48-99 | reading the segments one by one, at any steps while the view is held, gives what an atomic snapshot gives |
| `SparklineSpec.SparklineUnderWriters` | ptraf/src/ui/traffic_sparkline.rs:40-107 | over every run of concurrent writers and any such collections, the dataset shows exactly those points; with a fixed filter, the recomputation |
| `SparklineSpec.TrivialFilterShowsAll` | ptraf/src/ui/traffic_sparkline.rs:75-92 | a filter that all sockets pass gives the same point as no filter |
| `SparklineSpec.PointFits` | ptraf/src/ui/traffic_sparkline.rs:85-86 | a filtered point is at most the whole segment, and below 2^33 messages rx plus tx fits 64 bits |
| `Sparkline.TrafficSparkline.Collect` | ptraf/src/ui/traffic_sparkline.rs:40-107 | a dataset that showed an earlier state of the store comes to show the present one |
| `Sparkline.TrafficSparkline.Gather` | ptraf/src/ui/traffic_sparkline.rs:40-107 | from any earlier dataset: drop what is too old, append the new complete windows in order |
| `Sparkline.TrafficSparkline.DiscardOld` | ptraf/src/ui/traffic_sparkline.rs:50-59 | drops the front points older than the oldest segment |
| `Sparkline.TrafficSparkline.FillBuffer` | ptraf/src/ui/traffic_sparkline.rs:63-96 | the buffer holds the windows later than the start, newest first, and stops at the first that is not |
| `Sparkline.TrafficSparkline.Drain` | ptraf/src/ui/traffic_sparkline.rs:101-106 | appends all but the newest point, oldest first, and empties the buffer |
| `Sparkline.PointOf` | ptraf/src/ui/traffic_sparkline.rs:68-94 | the point of a segment is the sum over its passing sockets in any order, or the row of the interest |
| `SocketTable.Collector.Collect` | ptraf/src/ui/socktable.rs:177-224 | one window further back, every entry holds the sums over the windows where its socket is visible, and the newest one's identity |
| `SocketTable.IntoDataset` | ptraf/src/ui/socktable.rs:173-175 | the rows are the entries, each once |
| `SocketTable.Walk` | ptraf/src/ui/socktable.rs:123-130 | the reverse walk collects the newest windows within the collection window and records the oldest rate-eligible one |
| `SocketTableSpec.VisibleIff` | ptraf/src/ui/socktable.rs:186-198 | a socket is shown if it is of the view's process or remote address and passes the custom filter |
| `SocketTableSpec.ListedAreOfTheView` | ptraf/src/ui/socktable.rs:184-222 | every listed entry is of the view and passes the filter, and every such socket of a collected window is listed |
| `SocketTableSpec.WindowAdds` | ptraf/src/ui/socktable.rs:177-222 | what a window adds to an entry's sum and to its rate |
| `SocketTable.Table.Collect` | ptraf/src/ui/socktable.rs:104-135 | the table lists exactly the visible sockets of the windows that start no more than the collection window before the present one, with their sums and the rate range |
| `SocketTableSpec.EarlyStopIsExact` | ptraf/src/ui/socktable.rs:123-130 | stopping early selects the same windows as testing all, and rate-eligible windows are the newest of them |
| `SocketTableSpec.EntriesFit` | ptraf/src/ui/socktable.rs:204-222 | fewer than 2^33 messages: no counter of any entry's statistics, nor rx plus tx, overflows while it is merged |
| `SocketTableSpec.EntryRateAtMostStat` | ptraf/src/ui/socktable.rs:204-222 | an entry's rate statistic never exceeds its statistic |
| `SocketTableSpec.RateEligibleIff` | ptraf/src/ui/socktable.rs:115-119 | a window counts for the rate exactly if it ends after the rate window begins and is not at timestamp 0 |
| `SocketTableSpec.RateRangeIsBounded` | ptraf/src/ui/socktable.rs:113-119 | a rate-eligible window starts less than the rate window and one segment before the present one |
| `SocketTable.RateRangeIsShort` | ptraf/src/ui/socktable.rs:132-133 | the reported rate range is shorter than the rate window and one segment together |
| `SocketTableSpec.TableTotal` | ptraf/src/ui/socktable.rs:177-224 | without filters the entries add up to the All rows of the collected segments |
| `TableUnderWriters.ViewFindsRows` | ptraf/src/store.rs:282-289 | a reader under a view, reading each row and socket at a step of its own, finds the frozen segments exactly and the newest one between the two ends of the view |
| `TableUnderWriters.FrozenSumsAreExact` | ptraf/src/ui/socktable.rs:123-130 | whatever the filters, the frozen windows contribute exactly and the newest adds nothing or a value between its row's at the two ends |
| `TableUnderWriters.SumsLieBetween` | ptraf/src/ui/socktable.rs:123-130 | without filters the sums lie between those of the two ends of the view |
| `TableUnderWriters.TableUnderView` | ptraf/src/ui/socktable.rs:104-135 | over every run and view: each entry's sums are exact over the frozen windows and bounded in the newest; without filters, the sockets listed and their sums lie between those at the two ends of the view |
| `FilterProofs.ParseIffDenotes` | ptraf-filter/src/frontend.rs:47-112 | the parser returns an expression exactly for the texts of the grammar that stand for it |
| `FilterProofs.FilterParses` | ptraf-filter/src/frontend.rs:49-112 | every text of the grammar is parsed to the expression it stands for, and taken whole |
| `FilterProofs.ChainSound` | ptraf-filter/src/frontend.rs:100-109 | whatever the rule `logic` takes from the front of any text is a chain of the grammar, with its expression |
| `FilterTheorems.TokenCharacters` | ptraf-filter/src/frontend.rs:97-111 | which characters are blanks, digits and parts of an address |
| `FilterTheorems.PidTexts` | ptraf-filter/src/frontend.rs:55-56 | the process id operand takes every number of 32 bits and nothing else |
| `FilterTheorems.PortTexts` | ptraf-filter/src/frontend.rs:73-83 | the port operands take every number of 16 bits and nothing else |
| `FilterTheorems.AddressTexts` | ptraf-filter/src/frontend.rs:88-98 | the address operands take every literal over digits, hexadecimal letters, colon and dot that is an address |
| `FilterTheorems.NumbersAreDecimal` | ptraf-filter/src/frontend.rs:55-83 | numbers are read in base ten |
| `FilterTheorems.RoundTrip` | ptraf-filter/src/frontend.rs:47-112 | every expression, printed with words or with symbols, parses back to itself |
| `FilterTheorems.OperandTextMeans` | ptraf-filter/src/frontend.rs:55-98 | an operand with an argument is accepted exactly if the argument is a number in range or a valid address, with that meaning |
| `FilterTheorems.DecimalRoundTrip` | ptraf-filter/src/frontend.rs:55-83 | a number's decimal digits denote it |
| `FilterTheorems.AlternativesExclusive` | ptraf-filter/src/frontend.rs:52-98 | at one position at most one operand alternative can match |
| `FilterTheorems.OrderIrrelevant` | ptraf-filter/src/frontend.rs:52-53 | trying the alternatives in any order gives the same result |
| `FilterTheorems.UnparenthesisedIsLeftFold` | ptraf-filter/src/frontend.rs:100-109 | for every operand list and mix of and, or, && and the two bars, parsing then evaluating folds the truth values from the left |
| `FilterTheorems.WhiteSpaceAtTheEnds` | ptraf-filter/src/frontend.rs:100-111 | exactly when white space may lead and trail a filter |
| `ProbeModel.MapIsWaiting` | ptraf-ebpf/src/ptraf-ebpf.rs:198-226 | for any probes in any order: at most 16384 entries, whose keys are the threads with an admitted call and no return since, each with its last admitted call's socket |
| `ProbeModel.MapIsCalls` | ptraf-ebpf/src/ptraf-ebpf.rs:198-226 | with no return missed, the map holds exactly the threads inside admitted calls with those calls' sockets |
| `ProbeModel.TakesOwnIff` | ptraf-ebpf/src/ptraf-ebpf.rs:198-205 | a return takes its own call's socket, or nothing for an unadmitted call, exactly if the call was admitted or no earlier one is still waiting |
| `ProbeModel.EventsAreTheCalls` | ptraf-ebpf/src/ptraf-ebpf.rs:198-214 | over every interleaving without missed returns, the events are those of the calls' own sockets, at most one each, and a return leaves its thread absent |
| `ProbeModel.RefusedOnlyWhenFull` | ptraf-ebpf/src/ptraf-ebpf.rs:216-226 | a readable inet call goes unseen only while 16384 threads are inside admitted calls |
| `ProbeModel.MissedReturnMisattributes` | ptraf-ebpf/src/ptraf-ebpf.rs:198-214 | after a missed return the thread's next call can report the earlier socket |
| `Probe.Probe.TryMsg` | ptraf-ebpf/src/ptraf-ebpf.rs:216-226 | the entry probe's step on the maps, and exactly when it fails |
| `Probe.Probe.TryMsgRet` | ptraf-ebpf/src/ptraf-ebpf.rs:198-214 | the return probe's step; its thread is absent afterwards, and nothing happens if it was absent before |
| `ProbeModel.NotifyTells` | ptraf-ebpf/src/ptraf-ebpf.rs:120-196 | a readable inet socket is reported once, with its endpoints, its type and the call's result, process and direction; other families are not |
| `ProbeModel.ReturnTells` | ptraf-ebpf/src/ptraf-ebpf.rs:198-214 | a return that takes a socket reports that socket so |
| `ProbeModel.EntryIs` | ptraf-ebpf/src/ptraf-ebpf.rs:216-226 | a wanted call replaces its thread's entry, or is entered while fewer than 16384 threads have one |
| `ProbeModel.ReturnSilent` | ptraf-ebpf/src/ptraf-ebpf.rs:198-214 | a return without an entry, a result or a successful read reports nothing, and its entry is gone |
| `ProbeModel.StateChangeTells` | ptraf-ebpf/src/ptraf-ebpf.rs:104-114 | a state change reports an empty call to send |
| `ProbeModel.WantedIff` | ptraf-ebpf/src/ptraf-ebpf.rs:216-226 | an entry probe wants calls on readable sockets of the two inet families |
| `Probe.Probe.Emit` | ptraf-ebpf/src/ptraf-ebpf.rs:120-196 | adds exactly one event that tells of the socket's endpoints and type and of the call, or none for another family; fails exactly if a read fails |
| `Probe.Probe.Insert` | ptraf-ebpf/src/ptraf-ebpf.rs:42-44 | replaces an entry or adds one if there is room |
| `Probe.Probe.SockSetState` | ptraf-ebpf/src/ptraf-ebpf.rs:104-114 | a state change emits without touching the thread map |
| `EditorSpec.EditorKeepsOk` | ptraf/src/ui/filter_editor.rs:68-175 | the editor's draft is always what its line parses to, and a committed filter has a text that parses to it |
| `FilterEditor.FilterView.HandleEvent` | ptraf/src/ui/filter_editor.rs:143-175 | the editor's reaction to an event keeps draft and committed filter in step with their texts |
| `UiSpec.UiRefinesSeen` | ptraf/src/ui.rs:284-342 | over every sequence of events and frames the interface keeps its invariant and refines the machine of texts |
| `UiTheorems.FiltersFollowTexts` | ptraf/src/ui.rs:232-254 | custom filter, committed filter and the filters of table and sparkline are what the texts stand for; the root view is that of its filter |
| `UiTheorems.TextIsAcceptable` | ptraf/src/ui/filter_editor.rs:80-102 | the kept text is empty or parses |
| `UiTheorems.TypingIsInert` | ptraf/src/ui/filter_editor.rs:168-173 | a character typed while editing never quits, pauses or navigates |
| `UiTheorems.NavigatesWhileEditingIff` | ptraf/src/ui.rs:364-396 | while editing the view changes exactly on Enter with a line that does not parse, outside the process view, with a row selected |
| `UiTheorems.QuitAndPauseIff` | ptraf/src/ui.rs:304-318 | exactly when the program quits and pauses |
| `UiTheorems.NavigatesTo` | ptraf/src/ui.rs:364-396 | where each key leads from each view: the process or remote address of the selected row, or back |
| `UiTheorems.FallsThroughTo` | ptraf/src/ui/filter_editor.rs:161-166 | Enter on a line that does not parse leads to the process of the selected row |
| `UiTheorems.EditingGoes` | ptraf/src/ui/filter_editor.rs:143-175 | what every key does while editing: type, close, or accept a line that is empty or parses as the new filter |
| `UiTheorems.SlashOpens` | ptraf/src/ui/socktable.rs:309-325 | exactly the slash opens the editor, on the accepted text |
| `UiTheorems.UndrawnIffAborted` | ptraf/src/ui.rs:284-319 | an event that changes what is seen asks for a frame, except exactly Escape in the editor |
| `Ui.SocketTableView.Selected` | ptraf/src/ui/socktable.rs:292-305 | the selected row, if there still is one |
| `Ui.SocketTableView.MoveDown` | ptraf/src/ui/socktable.rs:264-276 | the selection moves one row down, from none to the first, never past the last |
| `Ui.SocketTableView.MoveUp` | ptraf/src/ui/socktable.rs:278-290 | the selection moves one row up, never past the first |
| `Ui.Ui.UpdateView` | ptraf/src/ui.rs:331-342 | the new view, its table and its sparkline have the interface's filter; its editor starts from the custom filter |
| `Ui.Ui.HandleEvent` | ptraf/src/ui.rs:284-319 | what the user sees takes one step of the machine of texts, and the invariant is kept |
| `Frame.Draw` | ptraf/src/ui.rs:232-254 | a frame creates the missing windows and leaves the sparkline showing them, paused or not; unless paused the table is exact for the filter being edited or committed |

## Left out

- Rendering, layout, styles, formatting and the floating-point interpolation of the sparkline.
- Loading and attaching BPF programs, perf buffers, `EventIter` and reads of kernel memory; the reads are
  parameters of the probe steps, and the lookup, removal and value read of the map are one step.
- `DashMap`, `DashSet`, `RwLock` and atomics: one row update, one set insert and one lock operation are each one
  step. A set insert keeps or replaces the representative of a local address; socket order is arbitrary.
- The standard library's address literals: a parser and a printer are parameters, and `RoundTrip` states what it
  needs of them.
- `TextArea`: only that its lines change solely when it says so. Its cursor is not modelled.
- Parse errors' positions and messages: the model decides accept or reject and the resulting tree.
- `From<[u8; 4]> for IpAddr`: the rest of the code does not use it.
- Process details, remote host names, `Promise`, command line, configuration and build tasks.
- Counters are unbounded in the model; `Traffic.WrappingCountIsModular` and the bounds above say when that is exact.
- Durations that cast to a zero or larger than 64-bit window: a store needs a window between 1 and 2^64 - 1 ns.
- An entry's last activity is kept as the timestamp of its segment, not as wall-clock time.
- A big-endian host: byte order conversion always swaps.
- The error codes of the probes: the model tells success from failure.
- Ui.Ui.Render: changes the interface's own state only; `Frame.Draw` adds the store, the sparkline and the table.
