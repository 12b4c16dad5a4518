# cmux: layout, event delivery, browser ingress and pairing

A Dafny model of the parts of cmux that compute or keep state, with proofs of what they promise.

* **Layout.** A screen is a binary tree of splits, with leaves and stacks of panes. `SplitTree` has the tree and its
  edits, `LiveTree` the same edits on nodes that change in place, `Layout` the walk that turns a tree into rectangles,
  `Tiling` the proof that they tile the screen, `StackFocus` which pane of a stack is shown, `Neighbor` and `Nearest`
  directional focus, `EdgeLookup` and `EdgeAnswers` the way from a pane border to its split, `TreeEdits` what an edit
  leaves alone, `Columns` the column list and its projection to a compatibility tree, `Viewport` the horizontally
  scrolling layout, `ColumnWidths` its column widths, `MarkedTrees` the trees whose columns never overlap,
  `ScrollingFocus` focus among columns, `Proportions` equal subdivision and exact shares, `AutoLayout` the shape of the
  automatic layout.
* **Event bus.** `MuxEvents` has the events, the filters and the plain queue each subscriber sees; `EventRules` says of
  every event what it displaces and whom it reaches; `EventStores` shows when a deque, an ordered map and a key index
  are that queue, and `EventBus` is the mailbox made of them; `EventRuns` has what holds over whole runs of one mailbox,
  `BusRuns` runs of the bus on values, `FilterRuns` what a subscriber bound to a moving surface sees, `BusDelivery` what
  any subscriber is delivered; `Broadcaster` is the fan-out object and `BusObject` its runs with all mailboxes.
* **Browser ingress.** `CdpEvents` and `CdpQueue` are the byte-budgeted, replacing queue, `CdpQueueRuns` its runs,
  `IngressRules` what replaces what and what is charged; `CdpSession` is one session's frame state, `CdpRecovery` the
  interleaving of the reader thread with the callers that restart capture and settle, cancel or suppress recovery
  requests; `FrameAdmission` says which frames pass; `CdpIngress` puts queue and session together; `Base64` is the
  canonical encoding check.
* **Others.** `QuoteArgument` is Windows argument quoting against the documented parsing rules of the C runtime,
  `Pairing`, `PairingRules` and `PairingRuns` the pairing broker, `ShortId` the six-character ids.

Objects that the program updates in place are classes here; their methods are proved equal to functions on values, and
the results about whole trees, queues and runs are lemmas about those functions.

Ratios are real numbers. The layout results hold for *any* rounding of `extent * ratio`, because the program clamps the
rounded product; results that depend on rounding name the property of rounding they use, and `Proportions` shows that
exact products rounded half away from zero have it. Rectangles are required to fit their coordinate range where the
program would otherwise add past it. Time is a number handed in by the caller, random draws and channel replies are
inputs, and a lock-protected section is one step.

`dafny verify dfyconfig.toml` checks the whole project.

## Model

| member | source | states |
|---|---|---|
| `Tiling.LayoutTilesScreen` | cmux-tui/crates/cmux-tui-core/src/layout.rs:447-598 | For every tree, ratio, rounding and rectangle whose far edges fit: the pane rectangles cover each cell of the rectangle exactly once, stay inside it, and list the panes in tree order |
| `Tiling.StackWindow` | cmux-tui/crates/cmux-tui-core/src/layout.rs:745-782 | In a stack of nonzero height the headers are one contiguous window of single rows around a nonempty expanded pane, as many as fit, balanced as far as membership allows; exactly those panes are reported as collapsed |
| `Tiling.FirstSideComesFirst` | cmux-tui/crates/cmux-tui-core/src/layout.rs:1058-1084 | Everything in the first child lies wholly left of, or above, everything in the second |
| `Tiling.PaneAtIsExact` | cmux-tui/crates/cmux-tui-core/src/layout.rs:78-81 | Hit testing answers exactly for the cells of the screen, and with the one pane that covers the cell |
| `Tiling.RatioChangeIsLocal` | cmux-tui/crates/cmux-tui-core/src/model.rs:401-414 | Setting one split's ratio lays out that split's own subtree anew in its own part of the area and leaves every rectangle before and after it as it was |
| `StackFocus.FocusedMemberIsExpanded` | cmux-tui/crates/cmux-tui-core/src/layout.rs:593-597 | In a laid-out screen with distinct panes, a stack shows in full the active pane if that is a member and its own expanded pane otherwise: with the whole width, all rows that headers leave, and not reported as a header; every other member has one row as a header, or none |
| `StackFocus.NoRoomForTwo` | cmux-tui/crates/cmux-tui-core/src/layout.rs:572-592 | In fewer than two cells along its direction a split leaves everything to its first side, and every pane of the second is empty both ways |
| `Layout.SplitExtent` | cmux-tui/crates/cmux-tui-core/src/layout.rs:1077-1084 | No cell is lost, both sides of a divisible extent are nonempty, a product in range is taken unchanged and one out of range leaves one cell on that side, whatever the rounding does |
| `Layout.ChildAreas` | cmux-tui/crates/cmux-tui-core/src/layout.rs:572-598 | The two children partition the area along the split direction; without room the first takes everything and the second collapses to nothing |
| `Layout.AllocateHeaders` | cmux-tui/crates/cmux-tui-core/src/layout.rs:745-764 | The alternating header loop ends with the balanced closed form, which hands out exactly the visible rows within both sides' membership |
| `Layout.WalkStack` | cmux-tui/crates/cmux-tui-core/src/layout.rs:745-782 | The stack loop appends exactly the planned rows and collapsed headers to the result |
| `Layout.Walk` | cmux-tui/crates/cmux-tui-core/src/layout.rs:572-598 | The recursive walk appends the tree's placements and headers to the result, after what was there |
| `Layout.LayoutScreen` | cmux-tui/crates/cmux-tui-core/src/layout.rs:447-451 | The whole layout is the tree's list of placements, its headers, and the screen's width |
| `Neighbor.FocusNeverSticks` | cmux-tui/crates/cmux-tui-core/src/layout.rs:152-206 | In a laid-out screen with distinct panes, from a nonempty pane both focus rules answer exactly when the pane does not touch the outer edge on that side |
| `Nearest.FocusMovesToNearest` | cmux-tui/crates/cmux-tui-core/src/layout.rs:152-180 | Told by the rectangles, for left, right, up and down: nothing is answered exactly when no nonempty pane lies wholly beyond the edge and shares a row (or column); otherwise the one sharing the most, counted in cells, across the narrowest gap, first in the list |
| `Nearest.FocusMovesToMostRecent` | cmux-tui/crates/cmux-tui-core/src/layout.rs:182-206 | Nothing is answered exactly when no such pane adjoins without a gap; otherwise the most recent of those, first in the list among equals |
| `Nearest.ScoreCountsLines` | cmux-tui/crates/cmux-tui-core/src/layout.rs:325-400 | A score is the number of shared rows (or columns) and of those in between, and exists exactly for a pane that can be reached |
| `Neighbor.BestIndexIsOptimal` | cmux-tui/crates/cmux-tui-core/src/layout.rs:152-180 | The chosen neighbour has the largest overlap, then the smallest distance, then the first place in layout order; none is chosen only when no pane qualifies |
| `Neighbor.RecentIndexIsOptimal` | cmux-tui/crates/cmux-tui-core/src/layout.rs:182-206 | The chosen pane is the most recent among those sharing the edge, the first in layout order among equals; none is chosen only when no pane shares the edge |
| `Neighbor.FocusInTiling` | cmux-tui/crates/cmux-tui-core/src/layout.rs:152-206 | The same wherever distinct panes tile a rectangle |
| `Neighbor.InnerEdgeIsShared` | cmux-tui/crates/cmux-tui-core/src/layout.rs:289-323 | Where distinct panes tile a rectangle, some pane lies directly across every inner edge of a nonempty pane |
| `ScrollingFocus.ScrollingFocusNeverSticks` | cmux-tui/crates/cmux-tui-core/src/layout.rs:120-135 | In the scrolling layout of projected columns, from a nonempty pane both focus rules answer exactly when the pane does not touch the outer edge of all columns together on that side |
| `ScrollingFocus.ColumnsTile` | cmux-tui/crates/cmux-tui-core/src/layout.rs:461-486 | Projected columns tile the rectangle as wide as their sum, in column order |
| `EdgeLookup.LookupsAgree` | cmux-tui/crates/cmux-tui-core/src/layout.rs:784-816 | Whenever the pane-addressed lookup answers, the exact lookup answers with the same area, and the deepest split of the representative pane is exactly that split |
| `EdgeLookup.AtMostOneMatch` | cmux-tui/crates/cmux-tui-core/src/layout.rs:947-1033 | With distinct panes at most one ancestor split owns a pane edge, and only an edge strictly inside the screen |
| `EdgeLookup.LookupFindsInnerEdges` | cmux-tui/crates/cmux-tui-core/src/layout.rs:803-816 | A pane edge has a target exactly when it lies strictly inside the screen and the boundary that carries it belongs to a split with room, under ancestors with room, rather than to a stack |
| `EdgeLookup.RepresentativeAddressesSplit` | cmux-tui/crates/cmux-tui-core/src/layout.rs:1035-1056 | The representative pane addresses its own split: the deepest split above it in that direction is the one asked for |
| `EdgeAnswers.AnswersAreExact` | cmux-tui/crates/cmux-tui-core/src/layout.rs:784-816 | The exact answer is the split whose boundary carries the edge, with the area it divides; the pane-addressed lookup answers there exactly when some pane addresses that split, with a pane beyond the edge if one of those does |
| `EdgeAnswers.DeepestIsInnermost` | cmux-tui/crates/cmux-tui-core/src/model.rs:363-388 | The split a pane and a direction address is the innermost of that direction above the pane, and none exactly when there is none |
| `EdgeAnswers.UncrossedIsFound` | cmux-tui/crates/cmux-tui-core/src/layout.rs:1035-1056 | The search for a pane not separated by that direction fails only when there is none |
| `EdgeAnswers.FirstUncrossedIsFound` | cmux-tui/crates/cmux-tui-core/src/layout.rs:1035-1056 | It finds the first such leaf or stack in tree order, and of a stack the active or else the expanded member |
| `EdgeLookup.UncrossedLeafHasNoSplit` | cmux-tui/crates/cmux-tui-core/src/model.rs:363-388 | A leaf reached without crossing a direction has no split of that direction above it in the subtree |
| `EdgeLookup.ExactWalk` | cmux-tui/crates/cmux-tui-core/src/layout.rs:947-986 | Overwriting the best match on the way down ends with the deepest match, or with what was there before |
| `EdgeLookup.EdgeWalk` | cmux-tui/crates/cmux-tui-core/src/layout.rs:988-1033 | The same for the lookup that also needs a representative pane |
| `EdgeLookup.ExactSplitForPaneEdge` | cmux-tui/crates/cmux-tui-core/src/layout.rs:803-816 | The exact lookup lays the screen out and reports the deepest match for the pane's rectangle |
| `EdgeLookup.SplitForPaneEdge` | cmux-tui/crates/cmux-tui-core/src/layout.rs:786-801 | The pane-addressed lookup does the same with a representative pane |
| `SplitTree.RemoveLeafKeepsOrder` | cmux-tui/crates/cmux-tui-core/src/model.rs:328-361 | Removing a pane yields the pane order without it, nothing exactly when nothing remains, and keeps every stack expanding one of its members |
| `SplitTree.SplitLeafSucceeds` | cmux-tui/crates/cmux-tui-core/src/model.rs:271-309 | A split succeeds exactly for a present pane and otherwise leaves the tree alone |
| `SplitTree.SplitLeafInserts` | cmux-tui/crates/cmux-tui-core/src/model.rs:271-309 | The new pane enters the order directly after the leaf or stack that held the target |
| `SplitTree.SplitThenRemoveRestores` | cmux-tui/crates/cmux-tui-core/src/model.rs:271-361 | Splitting and removing the fresh pane restores the tree, up to the member its stack now expands |
| `TreeEdits.SplitIsLocal` | cmux-tui/crates/cmux-tui-core/src/model.rs:271-309 | A split divides exactly the area of the leaf or stack that held the pane, in the given direction and in halves, the new pane getting the second; every other rectangle stays |
| `TreeEdits.SplitAddsOneSplit` | cmux-tui/crates/cmux-tui-core/src/model.rs:271-309 | The tree gains the given split id and no other, with the given direction and ratio one half, right above that leaf or stack |
| `TreeEdits.StacksAfterRemoval` | cmux-tui/crates/cmux-tui-core/src/model.rs:328-361 | A stack that keeps two panes keeps them in order with its expanded pane, or expands the last if that one went; one that keeps a single pane becomes its leaf; one without the pane is untouched |
| `TreeEdits.SplitsAfterRemoval` | cmux-tui/crates/cmux-tui-core/src/model.rs:328-361 | A split keeps id, direction and ratio while both sides keep panes, and gives way to the other side otherwise |
| `TreeEdits.SplitsAfterExchange` | cmux-tui/crates/cmux-tui-core/src/model.rs:241-269 | Splits keep id, direction and ratio through an exchange |
| `TreeEdits.StacksAfterExchange` | cmux-tui/crates/cmux-tui-core/src/model.rs:241-269 | After an exchange a stack expands what stands in the expanded place, unless both panes are its own: then the same pane |
| `SplitTree.SwapLeavesTwice` | cmux-tui/crates/cmux-tui-core/src/model.rs:233-269 | Swapping two panes twice restores the tree, expanded stack members included |
| `SplitTree.SwapExchanges` | cmux-tui/crates/cmux-tui-core/src/model.rs:233-269 | One swap exchanges the two panes in the order, keeps every split id, and is refused exactly for equal or missing panes |
| `SplitTree.SplitRatioAfterSet` | cmux-tui/crates/cmux-tui-core/src/model.rs:401-430 | Reading a ratio returns what was last written to that id; no other id, pane or split order changes |
| `LiveTree.TreeNode.SplitPane` | cmux-tui/crates/cmux-tui-core/src/model.rs:271-309 | On nodes that own their children, splitting in place turns the tree into exactly the split tree and tells whether it did |
| `LiveTree.TreeNode.ExchangePanes` | cmux-tui/crates/cmux-tui-core/src/model.rs:241-269 | Renaming panes in place yields exactly the swapped tree, stack members and expanded panes included |
| `LiveTree.TreeNode.Swap` | cmux-tui/crates/cmux-tui-core/src/model.rs:233-239 | The guarded in-place swap is refused or done exactly as on values |
| `LiveTree.TreeNode.SetRatio` | cmux-tui/crates/cmux-tui-core/src/model.rs:401-414 | Setting a ratio in place changes the first split with the id and nothing else |
| `LiveTree.TreeNode.HasPane` | cmux-tui/crates/cmux-tui-core/src/model.rs:143-149 | The search through the nodes finds exactly the panes of the tree |
| `Columns.Screen.SyncLayoutColumnProjection` | cmux-tui/crates/cmux-tui-core/src/model.rs:753-782 | The loop over the columns builds exactly their projection; with two or more well-formed columns the consistency test then passes |
| `Columns.ProjectionIsConsistent` | cmux-tui/crates/cmux-tui-core/src/model.rs:796-828 | The projection of two or more columns with distinct, unreused ids and disjoint panes passes every clause of the consistency test |
| `Columns.OwnerThroughProjection` | cmux-tui/crates/cmux-tui-core/src/model.rs:311-326 | Looking a pane up through the projected tree finds the column that holds it |
| `Columns.Screen.InsertLayoutColumnAfter` | cmux-tui/crates/cmux-tui-core/src/model.rs:725-751 | Insertion succeeds exactly for a present target, places the column right after the target's, keeps the invariant for a fresh column, and changes nothing when it fails |
| `Columns.Screen.CollapseSingleLayoutColumn` | cmux-tui/crates/cmux-tui-core/src/model.rs:784-794 | A single column gives its tree and auto-layout order back; otherwise the projection is rebuilt |
| `Columns.Screen.DropColumn` | cmux-tui/crates/cmux-tui-core/src/mux.rs:15228-15237 | Dropping a column leaves the others consistent, or the last one as the plain tree |
| `Columns.Screen.InsertThenDrop` | cmux-tui/crates/cmux-tui-core/src/model.rs:725-794 | Inserting a first column and dropping it restores the tree, its auto-layout order and the empty projection |
| `Columns.ProjectionPreservesProportions` | cmux-tui/crates/cmux-tui-core/src/model.rs:753-782 | In exact arithmetic the nested ratios give column i exactly its width over the total width |
| `Proportions.ProjectionGivesExactShares` | cmux-tui/crates/cmux-tui-core/src/model.rs:753-782 | Whenever all proportional boundaries are whole cells, the plain layout gives every column exactly its share |
| `Proportions.EqualNodesFloorOrCeil` | cmux-tui/crates/cmux-tui-core/src/layout.rs:552-570 | Nested equal splits give each of k children the floor or the ceiling of extent over k, and the extents add up |
| `Proportions.GroupsOfFour` | cmux-tui/crates/cmux-tui-core/src/layout.rs:506-529 | Two to twelve panes form two columns, or three from nine panes on, of one to four panes each, in order |
| `AutoLayout.FirstColumnTakesTheRest` | cmux-tui/crates/cmux-tui-core/src/layout.rs:506-529 | Up to five panes: one beside the rest; up to twelve: full columns of four from the right, and the remainder first |
| `AutoLayout.AutoLayoutShape` | cmux-tui/crates/cmux-tui-core/src/layout.rs:497-570 | Two to twelve panes stand in columns side by side, each its group from top to bottom; more stand as the first beside a stack of the others showing the last, in halves |
| `AutoLayout.FreshIdsAreUsedOnce` | cmux-tui/crates/cmux-tui-core/src/layout.rs:497-570 | Up to twelve panes use the next n - 1 split ids, each once, and more use one |
| `Proportions.ZellijKeepsOrder` | cmux-tui/crates/cmux-tui-core/src/layout.rs:497-541 | An auto-layout exists exactly for a nonempty list and lists its panes in order; its stacks expand members |
| `Proportions.ZellijIsBalanced` | cmux-tui/crates/cmux-tui-core/src/layout.rs:497-570 | With room, every pane of a two-to-twelve-pane layout has its column's floor-or-ceiling width and a floor-or-ceiling share of the height |
| `Proportions.ExactRoundingQualifies` | cmux-tui/crates/cmux-tui-core/src/layout.rs:1077-1084 | Rounding the exact product half away from zero meets both rounding assumptions used above |
| `Viewport.ColumnsStandSideBySide` | cmux-tui/crates/cmux-tui-core/src/layout.rs:461-486 | For projected columns: each column directly right of the previous one, each recorded entry exactly its column's rectangle, and the virtual width the larger of the column sum and the screen width |
| `Viewport.RecordedColumnIsItsArea` | cmux-tui/crates/cmux-tui-core/src/layout.rs:671-698 | The bounding box grown pane by pane over a tiled nonempty column ends as exactly that column's rectangle, with one of its panes as representative |
| `ColumnWidths.RecordedColumnsHaveTheirShare` | cmux-tui/crates/cmux-tui-core/src/layout.rs:461-491 | In the scrolling layout of projected columns, every column whose width times the viewport is a whole number of cells, widths counting from 0.1 to 1.0, is recorded exactly that wide |
| `ColumnWidths.RoundedProductIsTaken` | cmux-tui/crates/cmux-tui-core/src/layout.rs:488-491 | A rounded product between one cell and the viewport is taken unchanged, any other as the nearer end, whatever the rounding does |
| `ColumnWidths.ExactColumnsQualify` | cmux-tui/crates/cmux-tui-core/src/layout.rs:488-491 | Rounding exact products half away from zero keeps whole products |
| `ColumnWidths.HeadersOfColumns` | cmux-tui/crates/cmux-tui-core/src/layout.rs:600-670 | The scrolling layout of projected columns reports exactly the collapsed panes that each column has as a screen of its own |
| `ColumnWidths.FirstPaneStandsForColumn` | cmux-tui/crates/cmux-tui-core/src/layout.rs:671-698 | A recorded column is named by the first of its panes that has cells |
| `Viewport.UnmarkedWalk` | cmux-tui/crates/cmux-tui-core/src/layout.rs:600-670 | Below a column the extended walk produces exactly the ordinary layout of that column |
| `Viewport.ViewportResult.RecordViewportPane` | cmux-tui/crates/cmux-tui-core/src/layout.rs:671-698 | Recording a pane appends it and opens or widens the owner's box, empty panes excepted |
| `Viewport.WalkViewport` | cmux-tui/crates/cmux-tui-core/src/layout.rs:600-670 | The walk appends panes, columns and headers and returns the first unused coordinate |
| `Viewport.WalkViewportStack` | cmux-tui/crates/cmux-tui-core/src/layout.rs:700-743 | The stack loop records the same rows as the ordinary stack walk |
| `MarkedTrees.PanesOverlapExactlyInUnsafeTrees` | cmux-tui/crates/cmux-tui-core/src/layout.rs:600-670 | For every tree and every set of marked splits, where the divisions above columns have room, no cell is covered twice if and only if no marked split lies in the first side of a right split that is not marked |
| `MarkedTrees.SafeTreesNeverOverlap` | cmux-tui/crates/cmux-tui-core/src/layout.rs:600-670 | That condition suffices whatever room there is, for every rounding and every column width |
| `MarkedTrees.NoRoomHidesOverlap` | cmux-tui/crates/cmux-tui-core/src/layout.rs:600-670 | The converse needs the room: an area one cell wide gives the second side nothing to be overlapped |
| `MarkedTrees.ProjectionsAreSafe` | cmux-tui/crates/cmux-tui-core/src/model.rs:753-782 | Every column projection meets the condition |
| `Viewport.LayoutScreenWithViewport` | cmux-tui/crates/cmux-tui-core/src/layout.rs:461-486 | The whole extended layout, with the virtual width measured from the screen's left edge |
| `EventStores.PushRefinesIffNumberIsFree` | cmux-tui/crates/cmux-tui-core/src/event_bus.rs:217-314 | With numbers so far at most the drawn one, a push on the deque, the ordered map and the key index delivers what a push on one plain queue would, with the same answer, if and only if it meets no other keyed event at its number |
| `EventStores.LastNumberLosesATitle` | cmux-tui/crates/cmux-tui-core/src/event_bus.rs:217-302 | At the last number two accepted titles of different surfaces leave only the second to be delivered |
| `EventStores.DrainIsList` | cmux-tui/crates/cmux-tui-core/src/event_bus.rs:326-337 | Popping the three stores dry delivers exactly the one list they represent, in order |
| `EventStores.PopHead` | cmux-tui/crates/cmux-tui-core/src/event_bus.rs:326-337 | The smaller of the two front numbers is the head of the represented list, and taking it from its store leaves the rest represented |
| `EventRules.PushDisplacesOnlyOldNews` | cmux-tui/crates/cmux-tui-core/src/event_bus.rs:217-314 | Told by the events: a push is refused exactly when the queue is closed or 4096 events stay; an accepted one comes last, behind everything in order except older titles, output notices or scroll positions of the same surface, or all three when the surface exits |
| `EventRules.EmptyKeepsEndings` | cmux-tui/crates/cmux-tui-core/src/event_bus.rs:244-267 | `Empty` keeps the latest 4095 surface exits and workspace closings, and nothing else |
| `EventRules.SecondPush` | cmux-tui/crates/cmux-tui-core/src/event_bus.rs:217-314 | Of two accepted events the first stays pending unless the second is the newer of the same three kinds or the exit of its surface |
| `EventBus.Mailbox.Push` | cmux-tui/crates/cmux-tui-core/src/event_bus.rs:217-284 | A push is one push on the plain queue, with the same answer, exactly as long as no accepted push has met its number on another key; below the last of the 128-bit numbers it never does; its effect on the three stores is given in every case |
| `EventBus.Mailbox.PushCoalesced` | cmux-tui/crates/cmux-tui-core/src/event_bus.rs:293-302 | A keyed event replaces its predecessor without taking new room, and otherwise claims a slot; both maps change together |
| `EventBus.Mailbox.Store` | cmux-tui/crates/cmux-tui-core/src/event_bus.rs:225-284 | The push proper, branch by branch, with the mailbox closed and overflowed exactly when it is refused |
| `EventBus.Mailbox.DiscardCoalesced` | cmux-tui/crates/cmux-tui-core/src/event_bus.rs:304-308 | Discarding a key removes its entry from both maps, in every state of the stores |
| `EventBus.Mailbox.DiscardSurfaceState` | cmux-tui/crates/cmux-tui-core/src/event_bus.rs:310-314 | Discarding a surface removes exactly its three kinds of keyed entries |
| `EventBus.Mailbox.ReservePendingSlot` | cmux-tui/crates/cmux-tui-core/src/event_bus.rs:316-324 | Room is granted below 4096 pending events; otherwise the mailbox closes and remembers the overflow |
| `EventBus.Mailbox.Pop` | cmux-tui/crates/cmux-tui-core/src/event_bus.rs:326-337 | Pop takes the head of the plain queue, wherever it is stored |
| `EventBus.Mailbox.TryRecv` | cmux-tui/crates/cmux-tui-core/src/event_bus.rs:358-367 | What is pending is received even after closing; disconnection is reported only when closed and empty |
| `EventBus.Mailbox.Close` | cmux-tui/crates/cmux-tui-core/src/event_bus.rs:286-289 | Closing keeps everything pending |
| `EventRuns.EveryQueueIsSound` | cmux-tui/crates/cmux-tui-core/src/event_bus.rs:217-324 | In every run at most 4096 events are pending and each key at most once |
| `EventRuns.RejectedPushKeepsQueue` | cmux-tui/crates/cmux-tui-core/src/event_bus.rs:217-324 | A rejected push changes nothing pending and closes the mailbox |
| `EventRuns.OrdinaryEventsAreConserved` | cmux-tui/crates/cmux-tui-core/src/event_bus.rs:217-338 | Over any run without `Empty`, accepted events without a key are delivered or pending exactly once, in push order |
| `EventRuns.KeyValuesAreASubsequence` | cmux-tui/crates/cmux-tui-core/src/event_bus.rs:293-302 | The delivered and pending values of a key are a subsequence of the values pushed |
| `EventRuns.LatestValueIsKept` | cmux-tui/crates/cmux-tui-core/src/event_bus.rs:293-314 | The latest value of a key is pending or was its last delivery, unless its surface exited first |
| `EventRuns.DrainedRunDeliveredEverything` | cmux-tui/crates/cmux-tui-core/src/event_bus.rs:326-366 | Once drained, all events without a key and the latest value of each key have been delivered |
| `EventRuns.ClosedQueueOnlyDrains` | cmux-tui/crates/cmux-tui-core/src/event_bus.rs:286-366 | After closing or overflow nothing is accepted and everything pending is still delivered in order |
| `BusObject.PerformAll` | cmux-tui/crates/cmux-tui-core/src/event_bus.rs:63-124 | After any run of emissions, path updates, shutdowns, subscriptions, receives and dropped receivers on the broadcaster and mailbox objects, every mailbox holds exactly what its subscriber, followed alone or on a bus of its own, would hold; fewer operations than there are sequence numbers always suffice for that |
| `BusRuns.SubscribersAreIsolated` | cmux-tui/crates/cmux-tui-core/src/event_bus.rs:87-124 | The operations that concern one subscriber, performed on a bus where it is the only one, leave it in the same state |
| `Broadcaster.MuxEventBroadcaster.Retain` | cmux-tui/crates/cmux-tui-core/src/event_bus.rs:87-124 | In one pass every subscriber takes its own turn on its own mailbox; those that detach leave the list, the rest keep their order and their updated filters |
| `Broadcaster.MuxEventBroadcaster.SubscribeWithFilter` | cmux-tui/crates/cmux-tui-core/src/event_bus.rs:109-116 | A subscriber joins last, with a fresh and empty mailbox |
| `Broadcaster.TurnFor` | cmux-tui/crates/cmux-tui-core/src/event_bus.rs:87-124 | One subscriber's turn: a dropped receiver or refused push detaches, an event its filter rejects or a move of another surface does not; a move rewrites the path and pushes a tree change |
| `BusDelivery.OffersAreDelivered` | cmux-tui/crates/cmux-tui-core/src/event_bus.rs:87-366 | On a bus with any other subscribers, what one subscriber received and has pending holds every event its filter let through that has no key exactly once and in order, and the latest of every key unless its surface exited; only the event on which its own queue overflowed is missing |
| `BusDelivery.QueueRunsAlong` | cmux-tui/crates/cmux-tui-core/src/event_bus.rs:118-124 | What a subscriber's queue goes through on the bus is a run of one queue, with the offered events as pushes and its receives as pops |
| `FilterRuns.ScopeFollowsItsSurface` | cmux-tui/crates/cmux-tui-core/src/event_bus.rs:87-205 | Over any run, a held session subscriber's scope names on each level the place its surface was last put, whether by a path update or by a tab added, or the one it came with |
| `FilterRuns.ClosingIsSeenWhereTheSurfaceIs` | cmux-tui/crates/cmux-tui-core/src/event_bus.rs:87-205 | The closing of a workspace, screen or pane is pushed to a held session subscriber exactly when its surface, wherever the run has moved it, is in it at that moment |
| `FilterRuns.TabNewsIsSeenByItsOwnSurface` | cmux-tui/crates/cmux-tui-core/src/event_bus.rs:143-205 | A tab's delta is pushed to a held session subscriber exactly when the tab is its surface's, after any run |
| `FilterRuns.OnlyItsOwnSurfaceIsSeen` | cmux-tui/crates/cmux-tui-core/src/event_bus.rs:127-205 | Over any run, however its surface moves, nothing about another surface, tab deltas included, is ever pending for a subscriber bound to one |
| `EventRules.FiltersByEvent` | cmux-tui/crates/cmux-tui-core/src/event_bus.rs:127-177 | Deltas apart, a session subscriber is offered all news of its own surface, none of others, and otherwise everything not meant for whole views; an attached one only its own notifications and scrolling; an unfiltered one everything |
| `EventRules.MovesAreAnnounced` | cmux-tui/crates/cmux-tui-core/src/event_bus.rs:87-108 | A move is announced to the session subscribers of that surface as a tree change, and to nobody else |
| `EventRules.TurnEndsSubscription` | cmux-tui/crates/cmux-tui-core/src/event_bus.rs:87-124 | A subscription ends exactly when the receiver is gone, the bus shuts down, or the queue refuses the offer |
| `CdpEvents.JsonSaturatesOnce` | cmux-tui/crates/cmux-tui-cdp/src/client.rs:503-520 | Saturating at every step of the JSON estimate saturates only its total |
| `CdpEvents.ChargeSaturatesOnce` | cmux-tui/crates/cmux-tui-cdp/src/client.rs:448-501 | The charge is the unbounded estimate cut off once at the largest machine integer, so a charge within the budget has lost nothing to saturation |
| `CdpQueue.EventQueue.Push` | cmux-tui/crates/cmux-tui-cdp/src/client.rs:359-391 | A push is taken exactly when, without the event it replaces, count and bytes leave room; then the replaced event goes and the new one is last; otherwise nothing changes |
| `CdpQueue.EventQueue.DrainInto` | cmux-tui/crates/cmux-tui-cdp/src/client.rs:393-411 | Draining delivers a prefix in order and keeps the rest; a full channel loses nothing, a disconnected one loses the one event offered |
| `CdpQueue.EventQueue.Close` | cmux-tui/crates/cmux-tui-cdp/src/client.rs:413-424 | Closing leaves only the closing event, charged exactly, and happens once |
| `CdpQueue.OthersWithout` | cmux-tui/crates/cmux-tui-cdp/src/client.rs:359-391 | With unique keys, removing by index is removing everything with the key |
| `CdpQueue.PushSound` | cmux-tui/crates/cmux-tui-cdp/src/client.rs:359-391 | A push keeps both limits, exact cached sizes and unique keys |
| `IngressRules.PushRenewsOnlyItsOwn` | cmux-tui/crates/cmux-tui-cdp/src/client.rs:359-445 | Told by the events: a push is taken exactly when fewer than 1024 events stay and their estimates leave room in 32 MiB; only an older frame or capture request of the same session, or information on the same target, goes |
| `IngressRules.EverythingCarriedIsCharged` | cmux-tui/crates/cmux-tui-cdp/src/client.rs:448-501 | The estimate counts every text and parameter an event carries and the record or counters beside them |
| `IngressRules.ParametersAreChargedByPart` | cmux-tui/crates/cmux-tui-cdp/src/client.rs:503-520 | A parameter's estimate is the sum over its values, texts, list places and object members |
| `CdpQueue.ChargesAreEstimates` | cmux-tui/crates/cmux-tui-cdp/src/client.rs:359-391 | In a sound queue the charges add up to the unbounded estimates of the pending events |
| `CdpQueueRuns.QueueStaysSound` | cmux-tui/crates/cmux-tui-cdp/src/client.rs:354-425 | In every run, until it closes, the queue keeps both limits, exact cached sizes and one event per replaceable key |
| `CdpQueueRuns.EstimatesStayWithinBudget` | cmux-tui/crates/cmux-tui-cdp/src/client.rs:354-425 | In every run, until the queue closes, the unbounded estimates of everything pending stay within the 32 MiB budget |
| `CdpQueueRuns.OnlyReplacedEventsAreLost` | cmux-tui/crates/cmux-tui-cdp/src/client.rs:354-411 | While open, delivered and queued events hold every accepted event without a key, in order, and the latest of every key |
| `CdpQueueRuns.HistoryIsASubsequence` | cmux-tui/crates/cmux-tui-cdp/src/client.rs:354-411 | While open, delivered and queued events are a subsequence of the accepted ones |
| `CdpQueueRuns.DrainKeepsHistory` | cmux-tui/crates/cmux-tui-cdp/src/client.rs:393-411 | Draining into a connected, possibly full channel conserves the order |
| `CdpIngress.FrameEpochsNeverDecreaseAlongTheQueue` | cmux-tui/crates/cmux-tui-cdp/src/client.rs:1466-1604 | For a lawful run, in particular one lasting registration, in every interleaving, frame generations never decrease along what was delivered and is queued, although replacements move to the back |
| `CdpIngress.OrderSurvivesExactlyLawfulRuns` | cmux-tui/crates/cmux-tui-cdp/src/client.rs:679-693 | In a run that may register and unregister the session at any time, stamps stay in order in every continuation if and only if each registration brings a generation at least as large as any seen, and no frame is looked at while unregistered after a positive one |
| `CdpIngress.StepIsSafeExactlyWhenLawful` | cmux-tui/crates/cmux-tui-cdp/src/client.rs:1466-1604 | The same for one step: it keeps the order in every continuation if and only if it is lawful |
| `CdpIngress.LawfulStaysSorted` | cmux-tui/crates/cmux-tui-cdp/src/client.rs:1476-1577 | Along a lawful run stamps are dispatched in order, a held frame is not behind, and a registered session is at least as far as both, although a frame is looked at and acted on in two locked steps |
| `FrameAdmission.FrameMeetsBarrier` | cmux-tui/crates/cmux-tui-cdp/src/client.rs:1476-1577 | A frame goes out exactly when there is no barrier or its timestamp is no older; a stale one changes nothing; of any other only a capture request comes, exactly when the session's limits allow one |
| `FrameAdmission.HeldFrameAsksForCapture` | cmux-tui/crates/cmux-tui-cdp/src/client.rs:1503-1557 | A frame held between its two locked steps asks for a capture exactly when the session is still in the generation seen and its limits now allow one |
| `FrameAdmission.NoStaleFrameIsDispatched` | cmux-tui/crates/cmux-tui-cdp/src/client.rs:1476-1577 | In every interleaving each dispatched frame passed the barrier that stood when it was looked at, and carries that moment's generation |
| `FrameAdmission.PassedFrameIsDispatched` | cmux-tui/crates/cmux-tui-cdp/src/client.rs:1476-1577 | A frame that passed when it was looked at goes out when it is acted on, whatever happened in between |
| `FrameAdmission.SessionAfterStep` | cmux-tui/crates/cmux-tui-cdp/src/client.rs:679-1725 | What every other step makes of the session, guard by guard |
| `FrameAdmission.SettlesAfterStep` | cmux-tui/crates/cmux-tui-cdp/src/client.rs:957-1006 | A settle reaches its second step only for a request still pending, and asks for a clock only under loader verification with a known frame |
| `FrameAdmission.NavigationsDispatch` | cmux-tui/crates/cmux-tui-cdp/src/client.rs:1651-1725 | Each navigation dispatches one event with the generation it begins, and no other step of this kind dispatches anything |
| `CdpSession.FrameEpoch.AdvanceForNavigation` | cmux-tui/crates/cmux-tui-cdp/src/client.rs:64-70 | The generation grows by one and becomes the latest navigation |
| `CdpSession.FrameSession.RequestCapture` | cmux-tui/crates/cmux-tui-cdp/src/client.rs:1512-1557 | A capture is requested exactly when epochs, suppression, the pending request, the throttle and the known frame allow it, and is then recorded as pending and throttled |
| `CdpSession.FrameSession.AcceptTimestamped` | cmux-tui/crates/cmux-tui-cdp/src/client.rs:1562-1573 | A timestamped frame of the current generation gives up the request, throttle and suppression |
| `CdpSession.FrameSession.Navigate` | cmux-tui/crates/cmux-tui-cdp/src/client.rs:1651-1679 | A navigation advances both counters and replaces frame, loader and pending document |
| `CdpSession.FrameSession.NavigateWithin` | cmux-tui/crates/cmux-tui-cdp/src/client.rs:1709-1725 | A same-document navigation of the main frame advances the generation; any other does nothing |
| `CdpSession.FrameSession.StartBarrier` | cmux-tui/crates/cmux-tui-cdp/src/client.rs:887-930 | A restart is refused when the epoch object or main frame changed meanwhile; otherwise it sets the barrier and gives up the request |
| `CdpSession.FrameSession.CommitSnapshot` | cmux-tui/crates/cmux-tui-cdp/src/client.rs:1629-1649 | A snapshot is committed exactly when nothing advanced since it was read |
| `CdpSession.FrameSession.Settle` | cmux-tui/crates/cmux-tui-cdp/src/client.rs:992-1006 | Second half: ownership is checked again; a recovered clock also reopens timestamp admission |
| `CdpSession.FrameSession.Cancel` | cmux-tui/crates/cmux-tui-cdp/src/client.rs:1011-1030 | Only the owner of the pending request cancels it |
| `CdpSession.FrameSession.Suppress` | cmux-tui/crates/cmux-tui-cdp/src/client.rs:1034-1054 | Only the owner suppresses, and only its own frame epoch |
| `CdpRecovery.ResolvedAtMostOnceInItsEpoch` | cmux-tui/crates/cmux-tui-cdp/src/client.rs:957-1054 | In every interleaving a request is resolved at most once, in the frame epoch it was issued for, after being issued and with no reset in between |
| `CdpRecovery.RequestsOfOneEpoch` | cmux-tui/crates/cmux-tui-cdp/src/client.rs:1500-1557 | Between two requests of one frame epoch with no reset, the first was resolved, and they are at least one second apart and of one navigation epoch |
| `CdpRecovery.EveryWorldIsSound` | cmux-tui/crates/cmux-tui-cdp/src/client.rs:957-1577 | The invariant behind both: the session remembers every unreset request of its current frame epoch as pending or resolved, and throttles for it |
| `Base64.CanonicalExactlyEncodings` | cmux-tui/crates/cmux-tui-cdp/src/client.rs:1801-1835 | The checker answers n exactly for the standard encodings of n-byte strings |
| `Base64.EncodingIsCanonical` | cmux-tui/crates/cmux-tui-cdp/src/client.rs:1801-1824 | Every standard encoding is accepted with the length that was encoded |
| `Base64.CanonicalIsEncoding` | cmux-tui/crates/cmux-tui-cdp/src/client.rs:1801-1824 | Every accepted text is the encoding of some bytes, which the proof constructs |
| `Base64.LeadingBlock` | cmux-tui/crates/cmux-tui-cdp/src/client.rs:1801-1824 | A leading block of four alphabet characters adds three bytes and changes nothing else |
| `Base64.DigitsAreTheAlphabet` | cmux-tui/crates/cmux-tui-cdp/src/client.rs:1801-1835 | The digits are capitals, small letters, figures, plus and slash in order, and the pad an equals sign |
| `QuoteArgument.QuoteArgument` | windows/CmuxShellExtension/CmuxShellExtension.cpp:178-209 | The loop over characters with its backslash counter produces the escaped argument |
| `QuoteArgument.QuotedParsesBack` | windows/CmuxShellExtension/CmuxShellExtension.cpp:178-209 | For every string, parsing the quoted argument by the documented C runtime rules returns exactly the string |
| `QuoteArgument.FolderArrivesUnchanged` | windows/CmuxShellExtension/CmuxShellExtension.cpp:211-220 | The launched command line parses to three arguments, the last being the folder unchanged; the program name arrives unchanged exactly when it does not end in a backslash |
| `Pairing.PairingBroker.Begin` | cmux-tui/crates/cmux-tui-core/src/pairing.rs:89-140 | One request step: refusals in order, then a fresh nonzero id, a code below a million, and the time remembered |
| `Pairing.PairingBroker.RespondAfter` | cmux-tui/crates/cmux-tui-core/src/pairing.rs:149-190 | A failed commit or draw leaves requests and credentials as pruned; otherwise the request goes and an approval keeps the last 64 credentials |
| `Pairing.PairingBroker.Cancel` | cmux-tui/crates/cmux-tui-core/src/pairing.rs:192-194 | Cancelling removes exactly that request and tells whether it was there |
| `Pairing.PairingBroker.Authenticate` | cmux-tui/crates/cmux-tui-core/src/pairing.rs:196-204 | Authentication holds exactly for the value of a live credential |
| `Pairing.PairingBroker.Prune` | cmux-tui/crates/cmux-tui-core/src/pairing.rs:213-225 | Pruning keeps exactly what has not expired and forgets peers without recent requests |
| `Pairing.ConstantTimeEq` | cmux-tui/crates/cmux-tui-core/src/pairing.rs:240-248 | Accumulating differences over the longer length answers equality |
| `PairingRuns.AtMostFivePerWindow` | cmux-tui/crates/cmux-tui-core/src/pairing.rs:89-140 | Over every run with non-decreasing time, accepted requests of a peer within one 60-second window number at most five |
| `PairingRuns.AtMostOnePendingPerPeer` | cmux-tui/crates/cmux-tui-core/src/pairing.rs:89-140 | At every moment at most one request per peer and sixteen overall are pending |
| `PairingRuns.ChallengesAnsweredAtMostOnce` | cmux-tui/crates/cmux-tui-core/src/pairing.rs:142-194 | Each answer is the first thing that happens to a challenge after it was opened, and comes before it expires |
| `PairingRuns.AuthenticationIsExact` | cmux-tui/crates/cmux-tui-core/src/pairing.rs:149-204 | A value authenticates exactly when it is among the last 64 issued credentials and unexpired; at most 64 are kept |
| `PairingRuns.CredentialInvariant` | cmux-tui/crates/cmux-tui-core/src/pairing.rs:149-225 | The kept credentials are the unexpired end of the last 64 issued |
| `PairingRuns.WindowInvariant` | cmux-tui/crates/cmux-tui-core/src/pairing.rs:89-140 | The remembered times are the latest accepted ones, the forgotten ones have left the window |
| `PairingRules.RequestIsDecidedExactly` | cmux-tui/crates/cmux-tui-core/src/pairing.rs:89-140 | Each refusal exactly when its reason holds and none before it: a live request of the peer, sixteen live requests, five in the last minute, no usable draw; otherwise a request under the first nonzero unused draw, with a code below a million, open for a minute |
| `PairingRules.AnswerIsDecidedExactly` | cmux-tui/crates/cmux-tui-core/src/pairing.rs:149-190 | Only a live request is answered; a failed draw or commit only prunes; an approval issues one credential for eight hours, the last of at most 64 |
| `PairingRules.PruningKeepsTheLive` | cmux-tui/crates/cmux-tui-core/src/pairing.rs:213-225 | Exactly the unexpired requests and credentials and the times of the last minute stay |
| `PairingRules.RememberedTimesAreSorted` | cmux-tui/crates/cmux-tui-core/src/pairing.rs:89-225 | In every run with non-decreasing time the remembered times are in order, as the two rules ask |
| `ShortId.AssignShortIds` | cmux-tui/crates/cmux-tui-core/src/short_id.rs:10-28 | Probing ends, and gives each id in increasing order the numeral of the first code still free at or after its own value |
| `ShortId.EncodeBase36` | cmux-tui/crates/cmux-tui-core/src/short_id.rs:30-38 | The array loop writes the six low base-36 digits, most significant first |
| `ShortId.DigitsAreFiguresAndLetters` | cmux-tui/crates/cmux-tui-core/src/short_id.rs:30-38 | The digits are the figures and then the small letters |
| `ShortId.NumeralReadsBack` | cmux-tui/crates/cmux-tui-core/src/short_id.rs:30-38 | Reading a numeral back gives the number |
| `ShortId.StringsAreDifferent` | cmux-tui/crates/cmux-tui-core/src/short_id.rs:10-28 | Different ids get different six-character strings |
| `ShortId.CodesDependOnlyOnSet` | cmux-tui/crates/cmux-tui-core/src/short_id.rs:10-28 | The assignment depends only on the set of ids |
| `ShortId.SmallIdsKeepTheirNumeral` | cmux-tui/crates/cmux-tui-core/src/short_id.rs:10-38 | Every id below 36^6 gets its own base-36 numeral |
| `ShortId.LargerIdsChangeNothing` | cmux-tui/crates/cmux-tui-core/src/short_id.rs:10-28 | Inputs that have the same ids up to some id give that id the same code, whatever larger ids each has |
| `ShortId.TooManyIdsHaveNoCodes` | cmux-tui/crates/cmux-tui-core/src/short_id.rs:10-28 | Only up to 36^6 different ids have an assignment at all |

## Left out

- Exact single- and double-precision products: rounding is an arbitrary function. The 16-bit and the 64-bit layout are therefore not claimed to agree cell for cell.
- ScrollingFocus.ScrollingFocusNeverSticks: for projected columns; for other marked trees, which can leave gaps, only optimality of the choice is proved.
- The edge lookup of the scrolling layout (`exact_split_for_pane_edge_with_viewport`).
- Viewport.ColumnsStandSideBySide: for trees shaped like the column projection; for all others MarkedTrees says when panes overlap, not where each column lies.
- MarkedTrees.PanesOverlapExactlyInUnsafeTrees: without room above a column only one direction is claimed (MarkedTrees.SafeTreesNeverOverlap).
- EventBus.Mailbox.Push: after a push has met its number on another key, which takes 2^128 pushes, only the effect on the stores is promised for later pushes, not the plain queue.
- BusObject.PerformAll: says nothing about a mailbox in which two keyed events have met on one number.
- Proportions.ZellijIsBalanced: requires a cell for each column across and a row for each pane of the tallest column; with less room some panes get nothing.
- Payloads of events that no rule looks at are grouped (client notices, session notices), and of a screencast frame only session, data, acknowledgement and generation are kept.
- Blocking receives and condition variables: only the non-blocking receive is modelled.
- Counters of the browser session (frame generations and request ids) are unbounded; their wrap at 2^64 is not modelled. The pointer-motion counter and document-paint events are left out.
- The two-step capture restart and snapshot are modelled by their second, locked step with arbitrary values read in the first, which covers every interleaving.
- CdpQueue.EventQueue.DrainInto: the channel's replies are a list of answers; a channel not heard of any more counts as full.
- Byte sizes of containers are those of a 64-bit platform.
- ShortId.AssignShortIds: requires at most 36^6 distinct ids; beyond, no assignment exists (ShortId.TooManyIdsHaveNoCodes) and the program's probing does not end.
- Pairing: random draws are inputs, a failed allocation counts as a failed draw, and listing pending challenges is left out.
- QuoteArgument.FolderArrivesUnchanged: the program path is assumed nonempty and free of quotation marks, as Windows paths are.
- Layout undo, stack-expansion restore, index rebuilds and provider authority; re-running the automatic layout when a pane is removed.
- Browser launch, the socket and its JSON codec, PTYs, terminal emulation and all user-interface code.
