# Workspace panel packing, modelled in Dafny

The `Workspace` component lays out a list of panels inside a container of
known width. Each panel is measured (width and height), and one *placement
pass* then gives every measured size a top-left position:

- A seed corner list holds the single corner (0, 0).
- The sizes are walked in index order. For each size:
  - the corners are sorted ascending by (top, left);
  - the first corner at which the panel *fits* is taken and spliced out of the list;
  - the new rectangle is recorded.
- Two scans over the rectangles placed so far then add new corners:
  - the *right scan* adds corners on the vertical line `right + GAP`;
  - the *below scan* adds corners on the horizontal line `bottom + GAP`.
- A panel fits at a corner in one of two ways:
  - it stays inside the container and comes within `GAP = 16` of no placed rectangle;
  - or it is too wide for the container and the corner sits at left 0.
- Nothing is placed while every measured width is still zero.
- A panel's column span becomes a pixel width with `128 + 144 * (span - 1)`.

The project models this pass in Dafny and proves what it guarantees.

| file | module | contents |
|---|---|---|
| `geometry.dfy` | `Geometry` | sizes, corners and rectangles; `GAP`; the span-to-width rule; placing a size at a corner; the four-clause gap test |
| `ordering.dfy` | `Ordering` | the corner sort; the stable descending sort by bottom or right edge used by the two scans |
| `frontier.dfy` | `Frontier` | both scans |
| `placement.dfy` | `Placement` | the fit test, the first-fit search, and the pass |
| `properties.dfy` | `PassProperties` | the guarantees of one iteration and of a whole pass |
| `outcomes.dfy` | `Outcomes` | the pass seen panel by panel, and how the position list relates to the panel indices |
| `example.dfy` | `Example` | a worked pass: three equal panels, two side by side and the third wrapped below |

In `frontier.dfy`:

- Each scan keeps some of the placed panels, sorts them, and walks them with a running minimum.
- The running minimum starts at +Infinity, modelled as `None`.
- The sentinel panel the source appends is modelled as an explicit final step.
- Each scan is a function, plus a method with the loop (`WalkRight`, `WalkBelow`) proved to compute that function.

In `placement.dfy`:

- `Step`, `Run` and `Pass` are the pass as functions.
- `PlacePanels` is the pass as the component runs it, threading the corner list and the position list as accumulators. It is proved equal to `Pass`.

Sizes and coordinates are unbounded integers. The container width and the measured sizes are parameters.

### What the pass does not do

These are easy to assume of a packing layout, but the code does not do them. The model follows the code:

- **It does not leave 0×0 panels out.** Once some width is non-zero, every measured size takes part in the loop, including 0×0 ones (src/components/Workspace.tsx:72-74).
- **It does not deduplicate or filter corners.**
  - A corner leaves the list only when it is taken (src/components/Workspace.tsx:98-100).
  - The scans push their corners unconditionally, even beyond the container's width or inside a placed panel (src/components/Workspace.tsx:127-130, 149-152).
  - In the worked example (`Example.RunSecond`), the corner list holds the same corner twice.
- **It does not always add both fallback corners.** The fallback corners (0, right + GAP) and (bottom + GAP, 0) come from the sentinels (src/components/Workspace.tsx:117-122, 139-144).
  - The right scan's fallback appears only when every kept panel has a positive left edge (`RightCornersFallback`, `RightScanShape`).
  - The below scan's fallback appears only when every kept panel has a positive top edge.
- **It does not stop a scan early.** Each scan walks all its kept panels (src/components/Workspace.tsx:124-132, 146-154).
- **It does not keep every pair of panels apart.** The gap test runs only for a panel that ends inside the container. A panel too wide for the container is accepted at left 0 without the test (src/components/Workspace.tsx:84-86, `PassSound`).
- **It does not guard the read by panel index.** The component reads `panelPositions[i]` by panel index (line 162), from a list that grows only when a panel is placed (line 155).
  - The model proves that, with non-negative heights, no panel is ever skipped (`NeverSkips`).
  - The reason: there is always a corner at left 0 below everything placed.
  - So the positions stay index-aligned with the panels (`PositionsFollowPanels`).

## Model

| member | source | states |
|---|---|---|
| Geometry.PixelWidth | src/components/Workspace.tsx:51-54 | the width of a span is span columns of 128 pixels with one GAP between neighbours |
| Geometry.SpansTile | src/components/Workspace.tsx:51-54 | two panels of spans a and b set GAP apart are exactly as wide as one panel of span a + b |
| Geometry.NotTooCloseMeansSeparated | src/components/Workspace.tsx:87-93 | the four-clause test fails exactly when one rectangle lies at least GAP beyond the other along some axis |
| Geometry.TooCloseSymmetric | src/components/Workspace.tsx:87-93 | the gap test does not depend on which rectangle was placed first |
| Ordering.InsertCornerMultiset | src/components/Workspace.tsx:75-80 | inserting a corner adds exactly that corner |
| Ordering.InsertCornerSorted | src/components/Workspace.tsx:75-80 | inserting into a list sorted by (top, left) keeps it sorted |
| Ordering.SortCornersSorts | src/components/Workspace.tsx:75-80 | the corner sort yields a list ascending by top, then left, that is a permutation of its input |
| Ordering.SortedMembers | src/components/Workspace.tsx:75-80 | sorting neither adds nor drops a corner |
| Ordering.SortedPermutationUnique | src/components/Workspace.tsx:75-80 | any two sorted permutations of the same corners are equal, so whatever algorithm the host's sort uses, its result is SortCorners |
| Ordering.SortSortedIsIdentity | src/components/Workspace.tsx:75-80 | sorting an already sorted corner list leaves it unchanged |
| Ordering.InsertDescendingMultiset | src/components/Workspace.tsx:116 | inserting a panel adds exactly that panel |
| Ordering.InsertDescendingSorted | src/components/Workspace.tsx:116 | inserting into a list descending by one edge keeps it descending |
| Ordering.SortDescendingSorts | src/components/Workspace.tsx:116 | the scans' sort yields a permutation of the kept panels, descending by bottom (right scan) or right edge (below scan) |
| Ordering.InsertDescendingStable | src/components/Workspace.tsx:116 | insertion puts a panel ahead of those with the same edge; the sort inserts each panel ahead of the already sorted panels that follow it, so ties keep their order |
| Ordering.SortDescendingStable | src/components/Workspace.tsx:116 | the sort is stable: panels with equal edges keep their placement order |
| Frontier.FilterKeeps | src/components/Workspace.tsx:111-115 | the filter keeps exactly the placed panels that satisfy the scan's condition, and never more panels than were placed |
| Frontier.FilterNone | src/components/Workspace.tsx:111-115 | a filter that keeps none of the placed panels yields an empty list |
| Frontier.RightPanelsMembers | src/components/Workspace.tsx:111-116 | the right scan's panels are exactly the placed ones with right + GAP < p.right and p.bottom < bottom + GAP, descending by bottom, no more than were placed |
| Frontier.BelowPanelsMembers | src/components/Workspace.tsx:133-138 | the below scan's panels are exactly the placed ones with bottom + GAP < p.bottom and p.right < right + GAP, descending by right, no more than were placed |
| Frontier.LeastLeft | src/components/Workspace.tsx:123-126 | the running minimum `maxRight` is still +Infinity exactly when no panel has been walked |
| Frontier.LeastLeftIsLeast | src/components/Workspace.tsx:123-126 | the running minimum is the least left edge among the panels walked, and is attained by one of them |
| Frontier.NewLowLeftMeans | src/components/Workspace.tsx:125 | a panel lowers the running minimum exactly when its left edge is strictly less than that of every panel before it |
| Frontier.RightEmittersStepLeft | src/components/Workspace.tsx:124-131 | the panels that emit corners lie strictly further left, one after the other |
| Frontier.SentinelLeft | src/components/Workspace.tsx:117-126 | the sentinel (left 0) lowers the minimum exactly when every kept panel's left edge is positive |
| Frontier.WalkRight | src/components/Workspace.tsx:117-132 | the loop with the running minimum and the sentinel emits exactly RightScan of the sorted panels |
| Frontier.EmitRightCorners | src/components/Workspace.tsx:111-132 | the right scan (filter, sort, walk) emits exactly RightCorners |
| Frontier.RightScanUpToLength | src/components/Workspace.tsx:124-132 | walking n panels emits at most n corners |
| Frontier.RightScanUpToSound | src/components/Workspace.tsx:124-132 | every emitted corner lies on the line right + GAP, GAP below a panel that lowered the running minimum |
| Frontier.RightScanUpToComplete | src/components/Workspace.tsx:124-132 | every panel that lowers the running minimum emits its corner |
| Frontier.RightScanUpToFrom | src/components/Workspace.tsx:127-130 | each emitted corner's top is GAP below the bottom of a walked panel |
| Frontier.RightScanUpToDescending | src/components/Workspace.tsx:116-132 | over panels by descending bottom, the corners come out by descending top |
| Frontier.RightScanShape | src/components/Workspace.tsx:117-132 | the right scan emits at most one corner more than it walks; all lie on right + GAP; exactly the panels that lower the minimum emit; the top-0 corner appears when all left edges are positive, and only then when bottoms are non-negative |
| Frontier.RightScanDescending | src/components/Workspace.tsx:116-132 | with non-negative bottoms, the corners come out by descending top, the sentinel's last |
| Frontier.LeastTop | src/components/Workspace.tsx:145-148 | the running minimum `maxBottom` is still +Infinity exactly when no panel has been walked |
| Frontier.LeastTopIsLeast | src/components/Workspace.tsx:145-148 | the running minimum is the least top edge among the panels walked, and is attained by one of them |
| Frontier.NewLowTopMeans | src/components/Workspace.tsx:147 | a panel lowers the running minimum exactly when its top edge is strictly less than that of every panel before it |
| Frontier.BelowEmittersStepUp | src/components/Workspace.tsx:146-153 | the panels that emit corners lie strictly higher, one after the other |
| Frontier.SentinelTop | src/components/Workspace.tsx:139-148 | the sentinel (top 0) lowers the minimum exactly when every kept panel's top edge is positive |
| Frontier.WalkBelow | src/components/Workspace.tsx:139-154 | the loop with the running minimum and the sentinel emits exactly BelowScan of the sorted panels |
| Frontier.EmitBelowCorners | src/components/Workspace.tsx:133-154 | the below scan (filter, sort, walk) emits exactly BelowCorners |
| Frontier.BelowScanUpToLength | src/components/Workspace.tsx:146-154 | walking n panels emits at most n corners |
| Frontier.BelowScanUpToSound | src/components/Workspace.tsx:146-154 | every emitted corner lies on the line bottom + GAP, GAP right of a panel that lowered the running minimum |
| Frontier.BelowScanUpToComplete | src/components/Workspace.tsx:146-154 | every panel that lowers the running minimum emits its corner |
| Frontier.BelowScanUpToFrom | src/components/Workspace.tsx:149-152 | each emitted corner's left is GAP right of a walked panel's right edge |
| Frontier.BelowScanUpToDescending | src/components/Workspace.tsx:138-154 | over panels by descending right, the corners come out by descending left |
| Frontier.BelowScanShape | src/components/Workspace.tsx:139-154 | the below scan emits at most one corner more than it walks; all lie on bottom + GAP; exactly the panels that lower the minimum emit; the left-0 corner appears when all top edges are positive, and only then when right edges are non-negative |
| Frontier.BelowScanDescending | src/components/Workspace.tsx:138-154 | with non-negative right edges, the corners come out by descending left, the sentinel's last |
| Frontier.RightCornersFrom | src/components/Workspace.tsx:111-132 | after placing R, the right scan adds at most one corner more than there are placed panels; all have left = R.right + GAP, and top 0 or GAP below a kept panel |
| Frontier.RightCornersFallback | src/components/Workspace.tsx:117-132 | with non-negative placed bottoms, the corner (0, R.right + GAP) is added exactly when no kept panel has left <= 0 |
| Frontier.RightCornersOrdered | src/components/Workspace.tsx:111-132 | with non-negative placed bottoms, the right scan's corners come out by descending top |
| Frontier.BelowCornersFrom | src/components/Workspace.tsx:133-154 | after placing R, the below scan adds at most one corner more than there are placed panels; all have top = R.bottom + GAP, and left 0 or GAP right of a kept panel |
| Frontier.BelowCornersFallback | src/components/Workspace.tsx:139-154 | with non-negative placed right edges, the corner (R.bottom + GAP, 0) is added exactly when no kept panel has top <= 0 |
| Frontier.BelowCornersOrdered | src/components/Workspace.tsx:133-154 | with non-negative placed right edges, the below scan's corners come out by descending left |
| Frontier.RightCornersNoneKept | src/components/Workspace.tsx:111-132 | when no placed panel is kept, the right scan walks only its sentinel and adds exactly the corner (0, right + GAP) |
| Frontier.BelowCornersNoneKept | src/components/Workspace.tsx:133-154 | when no placed panel is kept, the below scan walks only its sentinel and adds exactly the corner (bottom + GAP, 0) |
| Placement.FindFittingCornerFrom | src/components/Workspace.tsx:81-95 | a found index lies at or after the search start and inside the corner list |
| Placement.FindFittingCorner | src/components/Workspace.tsx:81-95 | a found index lies inside the corner list |
| Placement.FindFittingCornerFromIsFirst | src/components/Workspace.tsx:81-95 | the search from a start index returns a fitting corner with no fitting corner between the start and it, or nothing when none fits from the start on |
| Placement.FindFittingCornerIsFirst | src/components/Workspace.tsx:81-95 | findIndex returns a fitting corner with no earlier fitting corner, and -1 (None) exactly when no corner fits |
| Placement.PlacePanels | src/components/Workspace.tsx:62-157 | the component's loop over the sizes, with its two accumulators, computes exactly Pass: nothing unless some width is non-zero, otherwise one Step per size from the seed (0, 0) |
| Placement.PlaceNext | src/components/Workspace.tsx:75-104 | one iteration (sort, findIndex, splice or skip) produces exactly Step's corners and positions |
| Placement.PlaceAtCorner | src/components/Workspace.tsx:99-155 | once corner k fits: it is spliced out, the right scan's and then the below scan's corners are pushed, and the new rectangle is pushed |
| PassProperties.StepSkipsOnlyWhenNothingFits | src/components/Workspace.tsx:81-104 | a panel is skipped exactly when no corner of the list fits it |
| PassProperties.StepTakesFirstFit | src/components/Workspace.tsx:75-109 | a placed panel is anchored at a corner of the list that fits it, and every corner at or before it in (top, left) order, other than the one taken, does not fit |
| PassProperties.OutcomeFits | src/components/Workspace.tsx:84-94 | a placed panel ends inside the container or sits at left 0; one inside the container is not within GAP of any rectangle placed before |
| PassProperties.SeedOutcome | src/components/Workspace.tsx:69-71 | from the seed, the first panel is placed at (0, 0), whatever its size and the container width |
| PassProperties.StepCorners | src/components/Workspace.tsx:96-155 | a skipped panel leaves the positions and the multiset of corners unchanged; a placed panel removes exactly one copy of the corner it took and adds exactly the two scans' corners |
| PassProperties.StepSound | src/components/Workspace.tsx:84-94 | one iteration keeps the anchoring rule and the gap between each in-container rectangle and those before it |
| PassProperties.RunSound | src/components/Workspace.tsx:74-156 | every run keeps the anchoring rule and the gap rule |
| PassProperties.PassSound | src/components/Workspace.tsx:84-94 | after a pass, each rectangle ends inside the container or sits at left 0, and each one inside the container is not within GAP of any earlier rectangle |
| PassProperties.FloorCornerFits | src/components/Workspace.tsx:81-95 | a corner at left 0, GAP or more below every placed rectangle, always fits, so the panel is placed |
| PassProperties.BelowFallbackWhenNothingBelow | src/components/Workspace.tsx:133-154 | when no placed rectangle reaches more than GAP below the new bottom, the below scan offers (bottom + GAP, 0) |
| PassProperties.StepKeepsFloorCorner | src/components/Workspace.tsx:96-155 | with a non-negative height, a layout that has such a floor corner places the panel and still has a floor corner afterwards |
| PassProperties.FloorAfterPlacement | src/components/Workspace.tsx:99-155 | after splicing and pushing, a floor corner survives or the below scan's fallback becomes one |
| PassProperties.RunKeepsFloorCorner | src/components/Workspace.tsx:69-156 | with non-negative heights, every run from the seed has a floor corner |
| PassProperties.NeverSkips | src/components/Workspace.tsx:102-104 | with non-negative heights, the skip branch is never taken |
| PassProperties.StepNonNegative | src/components/Workspace.tsx:106-154 | with a non-negative size, an iteration keeps every corner and every rectangle in the non-negative quadrant |
| PassProperties.NewCornersNonNegative | src/components/Workspace.tsx:111-154 | over non-negative rectangles, both scans add only non-negative corners |
| PassProperties.RunNonNegative | src/components/Workspace.tsx:69-156 | with non-negative sizes, every run stays in the non-negative quadrant |
| PassProperties.PassNonNegative | src/components/Workspace.tsx:69-156 | with non-negative sizes, all corners and all placed top/left coordinates are non-negative |
| PassProperties.UnreadyPass | src/components/Workspace.tsx:69-73 | when every measured width is zero, there are no positions and the only corner is (0, 0) |
| Outcomes.Placed | src/components/Workspace.tsx:155 | the compacted list is never longer than the panel list |
| Outcomes.PlacedAll | src/components/Workspace.tsx:155 | nothing is lost in compaction exactly when every panel was placed |
| Outcomes.PlacedMembers | src/components/Workspace.tsx:155 | every placed panel's rectangle is in the compacted list |
| Outcomes.RunIsCompaction | src/components/Workspace.tsx:102-104 | the position list of a run is the per-panel outcomes with the skipped panels dropped |
| Outcomes.OutcomesPrefix | src/components/Workspace.tsx:74 | a panel's outcome depends only on the sizes before and at it |
| Outcomes.OutcomesShaped | src/components/Workspace.tsx:106-109 | panel i, when placed, has bottom = top + height and right = left + width of size i |
| Outcomes.OutcomesSound | src/components/Workspace.tsx:84-94 | per panel index: each placed panel ends inside the container or sits at left 0, and one inside the container is not within GAP of any earlier placed panel |
| Outcomes.PassIsCompaction | src/components/Workspace.tsx:102-104 | the pass's positions are the per-panel outcomes with the skipped ones dropped; there are never more positions than sizes, and as many exactly when none was skipped |
| Outcomes.FirstPanelAtOrigin | src/components/Workspace.tsx:69-95 | once ready, panel 0 is placed at (0, 0) and is the first recorded position |
| Outcomes.PassOutcomesSound | src/components/Workspace.tsx:84-109 | per panel index: each placed panel has its size's shape, the anchoring rule and the gap rule |
| Outcomes.EveryPanelPlaced | src/components/Workspace.tsx:102-104 | once ready, with non-negative heights, every panel is placed |
| Outcomes.PositionsFollowPanels | src/components/Workspace.tsx:155-162 | once ready, with non-negative heights, there is one position per panel, panelPositions[i] is panel i's placement, and it has size i's shape |
| Example.SeedStep | src/components/Workspace.tsx:69-155 | from the seed, a panel of any size takes (0, 0), and the corner list becomes exactly (0, width + GAP) then (height + GAP, 0) |
| Example.SecondSearch | src/components/Workspace.tsx:75-95 | for a second equal panel, where two fit side by side, the corner (0, width + GAP) sorts first and passes the fit test, so the search picks index 0 |
| Example.SecondScans | src/components/Workspace.tsx:111-154 | after the second panel, neither scan keeps a placed panel, so each adds only its sentinel's corner, (0, 2 width + 2 GAP) and (height + GAP, 0) |
| Example.RunSecond | src/components/Workspace.tsx:74-155 | after two equal panels that fit side by side, the second sits GAP right of the first and the corner (height + GAP, 0) is in the list twice |
| Example.ThirdSort | src/components/Workspace.tsx:75-80 | the third iteration's sort puts the top-row corner first and keeps both copies of (height + GAP, 0) after it |
| Example.ThirdSearch | src/components/Workspace.tsx:81-95 | for a third equal panel, the top-row corner sorts first but fails the fit test, because the panel would cross the container's edge away from left 0; the first (height + GAP, 0) corner is chosen |
| Example.ThirdScans | src/components/Workspace.tsx:111-154 | for the wrapped third panel, the right scan keeps only the second panel, which lowers the running minimum and adds (height + GAP, width + GAP); the sentinel then adds (0, width + GAP); the below scan keeps nothing and adds only (2 height + 2 GAP, 0) |
| Example.ThirdTakes | src/components/Workspace.tsx:75-154 | the third iteration takes sorted corner 1, leaves the other two corners in sorted order, and the scans add the three corners above |
| Example.RunThird | src/components/Workspace.tsx:74-155 | after three equal panels where two but not three fit across, the third wraps to left 0, GAP below the first, and the corner list is exactly the five corners the splice and the scans leave |
| Example.ThreePanels | src/components/Workspace.tsx:69-157 | for three equal panels where two but not three fit across, the pass places two in the top row GAP apart and the third at left 0, GAP below the first |
| Example.SampleLayout | src/components/Workspace.tsx:69-157 | 200×100 panels in a 500-pixel container land at (0, 0), (0, 216) and (116, 0) |

## Left out

- The React component around the pass: the JSX, the inner `Panel` component and the `setPanelSizes` index update (src/components/Workspace.tsx:18-41, 159-187). They render or store values and decide nothing about the layout.
- The resize observer hook (`useElementResize`). The container width and the measured sizes are parameters here. The hook delivers floating-point sizes; the model uses integers.
- Floating point in general. With floats, the sort comparators and the `+ GAP` sums could round or meet NaN; the model's integer arithmetic is exact.
- The other source files are not part of this model: `Panel`, `DummyPanel`, `Dashboard`, `App`, `main`, the error boundary, the router, the random sample data and the debug hooks. They hold no layout logic.
- Dragging and reordering panels. The component has neither; its panel order is the order of `props.panels`.
- Timing: the component re-runs the whole pass from the seed on every render; there is no incremental re-flow. The model covers one pass from given sizes and width.
- The `panelSizes` initial state (every size 0×0). It is covered by `UnreadyPass` rather than modelled as component state.
- Frontier.RightCornersFallback: the "exactly when" holds only when placed bottoms are non-negative. A kept panel with bottom -GAP would emit a top-0 corner of its own. The one-way direction (all kept lefts positive gives the corner) is proved without that premise, in `RightScanShape`. The same holds for `BelowCornersFallback` with right edges.
- PassProperties.NeverSkips: proved only for non-negative heights, which is all a size observer reports. The floor-corner argument needs every rectangle's bottom to be at or below its top. `EveryPanelPlaced` and `PositionsFollowPanels` carry the same premise.
