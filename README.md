# Portfolio site backgrounds and post utilities, modelled in Dafny

This project models the computational core of a React portfolio site: the
animated backgrounds behind its pages and the utilities that read its
markdown blog posts.

- **Posts** (`src/utils/postUtils.js`). `parseFrontmatter` reads the `---`
  block at the head of a post into a dictionary of text values and lists.
  `getPostsByProject` keeps one project's posts, strips their front matter
  and orders them by the `Week N` in their titles with a stable numeric sort.
- **Background selection** (`src/App.jsx`). A decision table picks the
  background component from the route's path name.
- **Star sphere** (`src/components/Background/Background.jsx`). Orbs sit
  on a sphere, visited in the order of a {sides/step} star polygon's index
  walk. Each orb is linked to its nearest groups of tied neighbours, and a
  clamped range map drives the fog fade.
- **Dragon curve** (`dragonsphere.p5.js` and `dragonBackground.jsx`). A
  lattice path is unfolded by quarter turns, fitted into its bounding box
  and wrapped onto a sphere as line segments.
- **Newick tree** (`PhyloBackground.jsx`). A parser turns the tokens of a
  Newick string into a tree. Leaf counts, the maximum depth and an angle
  assignment then place every node on nested spheres.
- **Frame-rate watchdog**. The Newick-tree and dragon-curve animation loops
  take an fps sample once a second and keep the last ten. A full window with
  a mean below 30 fps switches them to low quality for good.
- **Phylogenetic sphere** (`phyloSphere.p5.js` and
  `PhyloExpansionBackground.jsx`, one model for both).
  - Leaves start at Fibonacci-sphere positions.
  - The sketch builds a full binary tree into a global `nodes` array.
  - Each `physicsStep` then:
    - accumulates pairwise repulsion and edge springs;
    - integrates with damping, the root pinned at the centre;
    - keeps leaves on the sphere and internal nodes inside it.
  - `draw` draws each edge once.

Numbers are modelled as reals or integers. `Math.sqrt`, `sin` and `cos` are
function parameters constrained by their defining identities. Random draws
are a stream of values in [0, 1) that a sketch consumes one at a time.

Several properties are proved:

- Phylogenetic sphere:
  - the tree has 2^(D+1) - 1 nodes and 2^D leaves;
  - its edges are reciprocal;
  - `draw` draws each of the |nodes| - 1 edges exactly once;
  - the forces of a step sum to zero (action equals reaction);
  - after every step the root is at rest at the centre, every leaf is on the
    sphere with no radial velocity, and every internal node is inside the
    sphere.
- Dragon curve: it keeps unit lattice steps, and its bounding box is tight.
- Posts: the sort is a stable permutation, and every front-matter key comes
  from a key line while list lines collect exactly the items under their key.

## Model

| member | source | states |
|---|---|---|
| FrontMatter.FirstClose | src/utils/postUtils.js:3 | the lazy `[\s\S]*?` picks the shortest body after which a line-break character and `---` follow, and reports none when no length closes the block |
| FrontMatter.Block | src/utils/postUtils.js:3-8 | the block matches exactly when the content opens with `---` and a line break and some body length closes it; the captured text is then the shortest such body |
| FrontMatter.StripBlock | src/utils/postUtils.js:96 | content without a block is returned unchanged; otherwise the block and at most one line-break character after it are removed |
| FrontMatter.PiecesJoin | src/utils/postUtils.js:14 | splitting at line feeds loses nothing: the pieces joined with line feeds give back the text |
| FrontMatter.PiecesHaveNoBreak | src/utils/postUtils.js:14 | no piece of the split holds a line feed |
| FrontMatter.DropCr | src/utils/postUtils.js:14 | a carriage return before a separating line feed belongs to the separator `\r?\n`, so only a non-final piece loses a trailing `\r` |
| FrontMatter.Lines | src/utils/postUtils.js:14 | `split(/\r?\n/)` yields one line per line-feed piece, never fewer than one |
| FrontMatter.LinesHaveNoBreak | src/utils/postUtils.js:14 | no line of the split holds a line feed |
| FrontMatter.Unquote | src/utils/postUtils.js:30 | the quote-stripping `replace` removes one leading and one trailing quote (either kind, not necessarily matching) exactly when both are present and nothing between them ends a line; otherwise the value is unchanged |
| FrontMatter.ClassifyMeaning | src/utils/postUtils.js:15-41 | a line is skipped when empty once trimmed, is a list item when the trimmed line starts with `-` (its item is the rest, trimmed), is a pair split at its first colon with key and value trimmed, and is ignored otherwise |
| FrontMatter.Classify | src/utils/postUtils.js:15-41 | the kind of a front-matter line after trimming; ClassifyMeaning states each case |
| FrontMatter.Step | src/utils/postUtils.js:20-51 | one callback step keeps the invariant that list mode always has a non-empty current key whose value is a list, and never removes a key |
| FrontMatter.Run | src/utils/postUtils.js:11-14 | starting from empty data, no key and list mode off, the state after any lines satisfies the list-mode invariant |
| FrontMatter.Kinds | src/utils/postUtils.js:14-18 | one classification per line |
| FrontMatter.ParseFrontmatter | src/utils/postUtils.js:2-55 | the data is the run of the callback over the block's lines, and is empty when the block regex does not match |
| FrontMatter.KindsSnoc | src/utils/postUtils.js:14 | the `forEach` over one more line is one more callback step |
| FrontMatter.ForEachLine | src/utils/postUtils.js:14-52 | the loop over the lines leaves in `data` exactly what the callback state machine computes |
| FrontMatter.HandleLine | src/utils/postUtils.js:15-18 | an empty line returns early; any other line is handled through its trimmed form, as the step function says |
| FrontMatter.HandleTrimmed | src/utils/postUtils.js:17-51 | a blank trimmed line is skipped, a `-` line handled as an item, a line without a colon ignored, and a colon line handled as a pair |
| FrontMatter.PairKind | src/utils/postUtils.js:38-41 | a line that is not an item and has a colon is the pair of its trimmed parts around the first colon |
| FrontMatter.HandleItem | src/utils/postUtils.js:21-34 | a `-` line turns the current key's value into an empty list when a key is set and list mode is off, then appends the unquoted item when list mode is on and the item is non-empty |
| FrontMatter.HandlePair | src/utils/postUtils.js:39-50 | a pair line makes the key current, ends list mode and stores a non-empty value unquoted, leaving the data alone for an empty value |
| FrontMatter.IgnoredLine | src/utils/postUtils.js:15-18 | a blank or ignored line anywhere in the input changes nothing in the final state |
| FrontMatter.ItemsBeforeAnyKey | src/utils/postUtils.js:22-26 | `-` lines before any key line leave the state empty |
| FrontMatter.ItemsAfterKey | src/utils/postUtils.js:21-33 | a key line followed by `-` lines makes the key's value exactly the list of the non-empty unquoted items, overwriting any scalar the key line stored |
| FrontMatter.KeyLineStores | src/utils/postUtils.js:40-50 | after a key line the key is current and list mode is off; a non-empty value is stored unquoted and an empty one leaves the data as it was |
| FrontMatter.CurrentKeyNamed | src/utils/postUtils.js:40 | a current key was always named by some pair line |
| FrontMatter.KeysFromPairs | src/utils/postUtils.js:23-49 | every key of the result was named by some pair line |
| FrontMatter.KeysPersist | src/utils/postUtils.js:14-52 | later lines never remove a key |
| JsStrings.Trim | src/utils/postUtils.js:17 | `trim` leaves no white space at either end and never lengthens the text |
| JsStrings.TrimIsSlice | src/utils/postUtils.js:17 | what `trim` keeps is one contiguous slice of the text, and what it removes on either side is all white space |
| JsStrings.IndexOf | src/utils/postUtils.js:38-39 | `indexOf(':')` is -1 exactly when there is no colon, and otherwise the position of the first colon |
| JsStrings.AfterLast | src/utils/postUtils.js:71 | `split('/').pop()` is the suffix after the last `/`: it holds no `/`, and the character before it is a `/` unless it is the whole path |
| Posts.Lookup | src/utils/postUtils.js:76-79 | a front-matter field is present exactly when its key was recorded, and then has the recorded value (otherwise `undefined`) |
| Posts.Slug | src/utils/postUtils.js:71-75 | the slug is the last path segment, with `.md` removed exactly when the segment ends in `.md`, and holds no `/` |
| Posts.FirstWeek | src/utils/postUtils.js:100 | `/Week (\d+)/i` matches at the leftmost position where `week` in any case, a space and a digit start |
| Posts.DigitsFrom | src/utils/postUtils.js:100 | the greedy `\d+` takes every digit from the start position up to the first non-digit |
| Posts.DecimalString | src/utils/postUtils.js:101 | a decimal numeral is a non-empty digit string without a leading zero |
| Posts.DecimalRoundTrip | src/utils/postUtils.js:101 | `parseInt` of the numeral of `n` gives back `n` |
| Posts.WeekTitle | src/utils/postUtils.js:99-102 | a title beginning `Week N` with no further digit sorts under `N` |
| Posts.DigitsPrefix | src/utils/postUtils.js:100 | the digit run at a position is exactly the numeral there when no digit follows it |
| Posts.NoWeekIsZero | src/utils/postUtils.js:101 | a title with no match counts as week 0 |
| Posts.WeekNumber | src/utils/postUtils.js:99-102 | the number after the first `Week ` of the title, or 0; its meaning is stated by WeekTitle and NoWeekIsZero |
| Posts.Summary | src/utils/postUtils.js:64-85 | each entry becomes a post with its path, its slug and the front matter's `project` field |
| Posts.Full | src/utils/postUtils.js:92-97 | each kept post gets the entry's content with its front-matter block stripped |
| Posts.FilterMap | src/utils/postUtils.js:88-97 | the filter then map never yields more posts than entries |
| Posts.ProjectPosts | src/utils/postUtils.js:88 | every post kept has `project` equal to the requested project name |
| Posts.GetPostsByProject | src/utils/postUtils.js:60-108 | the call throws exactly when two or more posts are kept and one lacks a string title; otherwise it returns a permutation of the kept posts sorted ascending by week number |
| Posts.Untitled | src/utils/postUtils.js:100 | finds a post whose title is not a string, or reports that every title is a string |
| Posts.FilterMapMembers | src/utils/postUtils.js:88-97 | a post is in the result exactly when it is the image of a kept entry |
| Posts.FilterMapAll | src/utils/postUtils.js:88-97 | every output satisfies whatever the images of the kept entries all satisfy |
| Posts.FilterMapCount | src/utils/postUtils.js:88-97 | the output has one element per kept entry |
| Posts.ProjectPostsMembers | src/utils/postUtils.js:88-97 | a post is returned exactly when its entry's `project` equals the requested name and it carries that entry's stripped content |
| Posts.ProjectPostsCount | src/utils/postUtils.js:88 | there is one post per entry of the project |
| Posts.SameWeekKeepsOrder | src/utils/postUtils.js:98-107 | posts with the same week number keep the order of their entries |
| Sorting.Insert | src/utils/postUtils.js:98 | inserting adds exactly one element and loses none |
| Sorting.SortBy | src/utils/postUtils.js:98 | the sort returns a permutation of its input |
| Sorting.InsertKeepsSorted | src/utils/postUtils.js:98 | inserting into a sorted sequence keeps it sorted by key |
| Sorting.SortByIsSorted | src/utils/postUtils.js:98-107 | the result is sorted ascending by the comparator's key |
| Sorting.InsertWithKey | src/utils/postUtils.js:98 | an insertion puts the element in front of the others with its key and leaves other keys' elements alone |
| Sorting.SortByIsStable | src/utils/postUtils.js:98-107 | elements with equal keys keep their input order, as the stable `Array.prototype.sort` does |
| BackgroundSelector.SelectBackground | src/App.jsx:20-37 | `/contact`, `/projects` and `/about` select their own backgrounds by exact equality, each exactly then; any other path selects the phylogeny when it contains `espm112l` or `_posts` and the default `Background` otherwise |
| BackgroundSelector.ContainsPastPrefix | src/App.jsx:22 | `includes` of a word whose first letter is not in a prefix sees only past the prefix |
| BackgroundSelector.PostPageBackground | src/App.jsx:22-36 | a `/posts/<slug>` page gets the default background unless the slug itself mentions `espm112l` or `_posts` |
| QualityMonitor.Window | src/components/Background/PhyloBackground.jsx:307-310 | the history holds the last ten samples pushed, or all of them while there are fewer |
| QualityMonitor.WindowPush | src/components/Background/dragonBackground.jsx:197-200 | pushing a sample and shifting once the history exceeds ten yields the window of the samples so far |
| QualityMonitor.PushStep | src/components/Background/PhyloBackground.jsx:307-320 | one sample updates the window as push-then-shift does, and turns high quality low exactly when the shifted window is full and its mean is below 30 |
| QualityMonitor.EverTriggeredStep | src/components/Background/PhyloBackground.jsx:309-315 | the switch has been triggered so far exactly when it was triggered before the last sample or by it |
| QualityMonitor.TriggeredBefore | src/components/Background/PhyloBackground.jsx:309-315 | a trigger before the last sample is a trigger so far |
| QualityMonitor.TriggeredEarlier | src/components/Background/PhyloBackground.jsx:309-315 | a trigger so far that the last sample did not cause happened earlier |
| QualityMonitor.QualityAfterLow | src/components/Background/PhyloBackground.jsx:309-319 | quality is low exactly when it started low or some sample brought a full window's mean below 30 |
| QualityMonitor.QualityAfter | src/components/Background/PhyloBackground.jsx:307-319 | the quality after a series of samples, replayed sample by sample; QualityAfterLow and QualityStaysLow characterise it |
| QualityMonitor.TriggersLow | src/components/Background/PhyloBackground.jsx:309-315 | a sample triggers the switch when more than ten samples have been pushed and the last ten average below 30 |
| QualityMonitor.QualityStaysLow | src/components/Background/dragonBackground.jsx:204-208 | the switch is one-way: once low, quality stays low whatever samples follow |
| QualityMonitor.NoSwitchBeforeFullWindow | src/components/Background/dragonBackground.jsx:199 | with ten samples or fewer the mean is never taken, so the quality keeps its initial value |
| QualityMonitor.Round | src/components/Background/PhyloBackground.jsx:306 | `Math.round` lands within half a unit of its argument |
| QualityMonitor.Monitor.constructor | src/components/Background/dragonBackground.jsx:185-187 | the counter starts at 0, the last time at the current clock reading, the history empty and the quality as the device probe set it |
| QualityMonitor.Monitor.PushSample | src/components/Background/dragonBackground.jsx:196-209 | the history stays the window of all samples (at most ten) and the quality stays the function of the samples, never leaving low; the counter and clock are untouched |
| QualityMonitor.Monitor.Frame | src/components/Background/PhyloBackground.jsx:303-324 | each frame bumps the counter; once a second has passed, the rounded frame rate is pushed as a sample and the counter and clock reset, and otherwise the history and quality are unchanged |
| DragonCurve.RotationIsRigid | dragonsphere.p5.js:97-102 | the quarter turn (dx, dy) to (-dy, dx) about the pivot keeps every distance and fixes the pivot |
| DragonCurve.RotateAbout | dragonsphere.p5.js:97-102 | the quarter turn (dx, dy) to (-dy, dx) about the pivot; RotationIsRigid shows it keeps every distance and fixes the pivot |
| DragonCurve.UnfoldingKeepsSteps | src/components/Background/dragonBackground.jsx:63-77 | every appended point keeps its mirror point's distance to the pivot, and a path of unit lattice steps stays one after unfolding |
| DragonCurve.IterateDragon | dragonsphere.p5.js:93-105 | a path of length n becomes one of length 2n-1 whose first n points are the input and whose appended point k is the quarter turn of point n-2-k about the last point |
| DragonCurve.Unfold | dragonsphere.p5.js:93-105 | the unfolding of a path as a value: the path followed by its reversal turned a quarter turn about the last point, 2n-1 points long |
| DragonCurve.UnfoldingIsUnfold | dragonsphere.p5.js:93-105 | a path has exactly one unfolding, so the loop of `iterateDragon` computes `Unfold` |
| DragonCurve.Unfolded | dragonsphere.p5.js:84-91 | the curve after k unfoldings of the unit segment, with 2^k + 1 points |
| DragonCurve.GenerateDragonCurve | dragonsphere.p5.js:84-91 | the loop's curve is `Unfolded(k)`, k unfoldings of (0,0)-(1,0); it has 2^k + 1 points, starts (0,0),(1,0), has (1,-1) third once k >= 1, and every step is a unit lattice step |
| DragonCurve.BoundsAreTight | src/components/Background/dragonBackground.jsx:80-92 | the min/max fold encloses every point and each of its four bounds is attained by some point; on an empty list it keeps the infinities |
| DragonCurve.Find2DMinMax | dragonsphere.p5.js:108-118 | the accumulator loop computes the fold: plus and minus Infinity for no points, otherwise tight bounds that enclose every point |
| Numeric.MapLinear | src/components/Background/dragonBackground.jsx:114-122 | `mapLinear` takes the first source end to the first target end and the second to the second, and maps the source interval into the target interval |
| DragonSphere.WrapStaysInChart | dragonsphere.p5.js:21-30 | a point inside the bounding box gets a polar angle in [0, pi] and an azimuth in [-pi, pi] |
| DragonSphere.Wrap | dragonsphere.p5.js:21-30 | x and y normalised to [-1, 1] against the box, then y to the polar angle in [0, pi] and x to the azimuth in [-pi, pi]; WrapStaysInChart bounds it |
| DragonSphere.BuildSegments | dragonsphere.p5.js:20-39 | one segment per consecutive pair of curve points, each joining the two wrapped points; consecutive segments share an end; inside the box every end lies in the chart |
| DragonSphere.BuildLinePoints | src/components/Background/dragonBackground.jsx:110-128 | two points per consecutive pair, 2(len-1) in all, the wrapped images of points i and i+1 |
| DragonSphere.UnfoldedCurveSpans | dragonsphere.p5.js:17-18 | a curve unfolded at least once spans a box with width and height, so the normalisation never divides by zero |
| DragonSphere.SetupDragonLines | dragonsphere.p5.js:8-40 | `setup` pushes 2^iterations connected segments, every end inside the chart |
| DragonSphere.CreateDragonCurveOnSphere | src/components/Background/dragonBackground.jsx:104-128 | the component's curve has 2 x 2^iterations line points, all inside the chart |
| StarSphere.DivModUnique | src/components/Background/Background.jsx:39 | the remainder `%` is the unique value in [0, n) that differs from x by a multiple of n |
| StarSphere.ModAddStep | src/components/Background/Background.jsx:39 | stepping from a reduced index gives the same vertex as stepping from the unreduced count |
| StarSphere.FullTurn | src/components/Background/Background.jsx:39-40 | `sides` steps always bring the walk back to 0 |
| StarSphere.EqualPositions | src/components/Background/Background.jsx:39 | two walk positions are equal only when their step counts differ by a whole number of turns |
| StarSphere.StarWalk | src/components/Background/Background.jsx:35-41 | the walk from 0 pushes k x step mod sides at position k and stops at the first positive number of steps that returns to 0; it needs sides > 0 to end |
| StarSphere.StarWalkDistinct | src/components/Background/Background.jsx:35-41 | every index lies in [0, sides), no vertex is visited twice, and so there are at most `sides` points |
| StarSphere.StarWalkUnique | src/components/Background/Background.jsx:35-41 | the walk is determined by sides and step |
| StarSphere.Gcd | src/components/Background/Background.jsx:35-41 | Euclid's greatest common divisor, positive when either argument is, the reference for the walk's length |
| StarSphere.GcdIsGreatest | src/components/Background/Background.jsx:35-41 | `Gcd` divides both arguments and every common divisor divides it |
| StarSphere.StarWalkLength | src/components/Background/Background.jsx:35-41 | the walk visits exactly sides / gcd(sides, step) vertices, so {7/2} visits all seven |
| StarSphere.HeptagramWalk | src/components/Background/Background.jsx:14-15 | for sides 7 and step 2 the walk is 0 2 4 6 1 3 5, all seven vertices |
| StarSphere.BuildStarSphere | src/components/Background/Background.jsx:68-85 | exactly ringCount x ringCount x (star points) orbs, one for every ring, turn and star point |
| StarSphere.RingOrbs | src/components/Background/Background.jsx:73-83 | one ring contributes ringCount x (star points) orbs, one per turn and point |
| StarSphere.TurnOrbs | src/components/Background/Background.jsx:76-82 | one turn contributes one orb per star point, in order |
| StarSphere.BuildDefaultStarSphere | src/components/Background/Background.jsx:14-16 | the sphere as built holds 10 x 10 x 7 = 700 orbs |
| StarSphere.Clamp01 | src/components/Background/Background.jsx:20 | `Math.max(0, Math.min(1, q))` lies in [0, 1] and is q when q already does |
| StarSphere.MapRange | src/components/Background/Background.jsx:19-22 | the result lies between outMin and outMax; with inMin < inMax a value at or below inMin gives outMin and one at or above inMax gives outMax; inside the input interval it is the plain linear map |
| StarSphere.ScaleBetween | src/components/Background/Background.jsx:21 | a fraction in [0, 1] of the way from outMin to outMax lies between them, in either order |
| StarSphere.FractionBounds | src/components/Background/Background.jsx:20 | over a positive denominator a numerator at most 0 gives at most 0, one at least the denominator gives at least 1, and one between gives a fraction in [0, 1] |
| StarSphere.FlattenAppend | src/components/Background/Background.jsx:135-141 | pushing a group appends its members to the concatenation of the groups |
| StarSphere.FlattenSplit | src/components/Background/Background.jsx:145 | the groups linked and those left out together concatenate to all groups |
| StarSphere.GroupByDistance | src/components/Background/Background.jsx:126-142 | with no other orb the source throws; otherwise the sorted list is cut in order into non-empty groups, each member within 1e-12 of its group's first distance, and each new group starts where that tolerance breaks |
| StarSphere.FirstBreakUnique | src/components/Background/Background.jsx:131-138 | the first group can end at only one position |
| StarSphere.TieGroupingEmpty | src/components/Background/Background.jsx:140-142 | there are no groups exactly when there are no distances |
| StarSphere.TieGroupingHead | src/components/Background/Background.jsx:131-138 | the first group of any tie grouping ends where the first tie breaks |
| StarSphere.TieGroupingTail | src/components/Background/Background.jsx:131-138 | after the first group, the remaining groups are the tie grouping of the remaining distances |
| StarSphere.TieGroupingUnique | src/components/Background/Background.jsx:126-142 | the tie grouping of a list is unique, so the loop computes the only possible answer |
| StarSphere.FirstRun | src/components/Background/Background.jsx:131-136 | scanning from a point with no break before it ends at the first tie break of the list |
| StarSphere.TieGroupsIsGrouping | src/components/Background/Background.jsx:126-142 | the run-by-run grouping `TieGroups` is a tie grouping, so by uniqueness it is the grouping loop's result |
| StarSphere.PairKey | src/components/Background/Background.jsx:148 | the key names the unordered pair {i, index}, smaller index first |
| StarSphere.KeysToAppend | src/components/Background/Background.jsx:145-150 | linking to two runs of neighbours adds the union of their keys |
| StarSphere.KeysToSingle | src/components/Background/Background.jsx:148 | linking to one neighbour adds exactly its key |
| StarSphere.KeysToBounded | src/components/Background/Background.jsx:117-122 | every key joins two different orbs, smaller index first, both in range |
| StarSphere.Web.constructor | src/components/Background/Background.jsx:27-28 | the connection set and the lines start empty |
| StarSphere.Web.Link | src/components/Background/Background.jsx:148-150 | a pair's key is added to the set, and a line is drawn exactly when the key was not there yet, so each unordered pair gets at most one line |
| StarSphere.Web.LinkGroups | src/components/Background/Background.jsx:144-150 | the set gains the keys of every neighbour in the first min(5, #groups) groups, and earlier lines stay in place |
| StarSphere.Web.ConnectNearestNeighbors | src/components/Background/Background.jsx:109-150 | a single orb makes the source throw (no neighbour); otherwise the linked pairs are exactly the keys from each orb to the members of the first min(5, #groups) tie groups of its stably sorted neighbours, every line joins two different orbs, and each pair has one line |
| StarSphere.Web.LinkOrb | src/components/Background/Background.jsx:116-150 | one pass of the outer loop throws exactly when orb i has no neighbour; otherwise the set gains exactly the keys from i to NearestOf(i), each joining i to a different orb below n |
| StarSphere.NearestIsLinked | src/components/Background/Background.jsx:117-150 | every orb is linked to each orb at its smallest distance, which lies in its first tie group |
| StarSphere.LinksInclude | src/components/Background/Background.jsx:113-150 | the keys added for orb i stay in the set once later orbs are processed |
| StarSphere.SortedNeighbours | src/components/Background/Background.jsx:124 | sorting keeps every entry another orb in range |
| StarSphere.LinkedNeighbours | src/components/Background/Background.jsx:145 | the linked groups hold only entries of the full list |
| StarSphere.NeighbourList | src/components/Background/Background.jsx:117-123 | the list is `Neighbours(i, n, dist)`: every other orb once, in index order, with its distance, each index other than i and below n |
| Newick.AddChild | src/components/Background/PhyloBackground.jsx:71-73 | a fresh childless node is appended as the last child of the parent, and no other node changes |
| Newick.SetText | src/components/Background/PhyloBackground.jsx:86-97 | a text token sets the current node's name or its branch length and never touches its children |
| Newick.Step | src/components/Background/PhyloBackground.jsx:69-98 | one token keeps every stack entry and the current node inside the arena, or raises one of the two TypeErrors: `,` with an empty stack, or a node token after `)` popped an empty stack |
| Newick.ParseNewick | src/components/Background/PhyloBackground.jsx:62-101 | the loop with its stack, `current` reference and in-place updates computes exactly the token-by-token parse, errors included |
| Newick.BeforeSemi | src/components/Background/PhyloBackground.jsx:84-85 | the tokens the loop reads are the prefix before the first `;` |
| Newick.RunCount | src/components/Background/PhyloBackground.jsx:70-81 | from any state, a successful run adds one node for each `(` and `,` before the `;` |
| Newick.NodeCount | src/components/Background/PhyloBackground.jsx:65-81 | a successful parse has 1 + #`(` + #`,` nodes, counting only tokens before the first `;` |
| Newick.RunIgnoresTail | src/components/Background/PhyloBackground.jsx:84-85 | tokens appended after a `;` never change the run |
| Newick.IgnoresAfterSemi | src/components/Background/PhyloBackground.jsx:84-85 | `;` stops parsing: whatever follows it does not change the result |
| Newick.Shape | src/components/Background/PhyloBackground.jsx:71-78 | the shape lists every node's children |
| Newick.AddChildShape | src/components/Background/PhyloBackground.jsx:71-78 | adding a child adds one index to the parent's list and one empty list for the new node |
| Newick.AddKidAfterParent | src/components/Background/PhyloBackground.jsx:71-78 | after adding a child, every child index still lies after its parent and inside the arena |
| Newick.AddKidInOrder | src/components/Background/PhyloBackground.jsx:73-78 | children stay listed in creation order |
| Newick.AddKidOneParent | src/components/Background/PhyloBackground.jsx:73-78 | no node is ever listed twice, under one parent or two |
| Newick.AddKidConnected | src/components/Background/PhyloBackground.jsx:73-78 | every node but the root keeps a parent |
| Newick.AddChildKeepsTree | src/components/Background/PhyloBackground.jsx:70-79 | adding a child keeps the arena a tree rooted at node 0 |
| Newick.SetTextKeepsShape | src/components/Background/PhyloBackground.jsx:89-96 | naming a node or giving it a length changes no children |
| Newick.StepKeepsTree | src/components/Background/PhyloBackground.jsx:69-98 | every successful step keeps the arena a tree |
| Newick.RunKeepsTree | src/components/Background/PhyloBackground.jsx:68-99 | every successful run keeps the arena a tree |
| Newick.ParseIsTree | src/components/Background/PhyloBackground.jsx:62-101 | a successful parse is a tree rooted at node 0: each other node has exactly one parent, created before it, and children are in creation order |
| Newick.Parse | src/components/Background/PhyloBackground.jsx:62-101 | a successful parse yields a non-empty arena and a failed one names a token position inside the input |
| Newick.Run | src/components/Background/PhyloBackground.jsx:68-99 | a successful run keeps every index inside the arena, and an error names a token at or after the start position |
| Newick.RunShape | src/components/Background/PhyloBackground.jsx:86-97 | how text tokens are read never changes success, errors, or the shape of the run |
| Newick.CorrectionKeepsShape | src/components/Background/PhyloBackground.jsx:86-97 | reading a token after `:` as a length rather than a name changes no error and no tree shape |
| Newick.LengthBecomesName | src/components/Background/PhyloBackground.jsx:88-94 | as written, a token after `:` on a node whose name is the empty string becomes its name, because `""` is falsy |
| Newick.UnnamedRootNamedByLength | src/components/Background/PhyloBackground.jsx:86-97 | as written, `:3;` parses to a root named "3" with no branch length |
| Newick.CorrectedRootKeepsLength | src/components/Background/PhyloBackground.jsx:82-83 | with the correction, `:3;` parses to an unnamed root of branch length 3 |
| Newick.LengthAfterColon | src/components/Background/PhyloBackground.jsx:82-83 | with the correction, a token after `:` is recorded as the branch length of the node it follows and leaves the name alone |
| NewickLayout.ToTree | src/components/Background/PhyloBackground.jsx:65-79 | the object tree hanging from a node has that node's name, length and number of children, with no count or angles set yet |
| NewickLayout.Leaves | src/components/Background/PhyloBackground.jsx:107-118 | every subtree has at least one leaf |
| NewickLayout.WithCounts | src/components/Background/PhyloBackground.jsx:107-118 | setting the counts changes no name, length, angle or number of children |
| NewickLayout.CountedIsLeaves | src/components/Background/PhyloBackground.jsx:107-118 | counts that are 1 at every leaf and the children's sum elsewhere are the numbers of leaves below |
| NewickLayout.WithCountsCounted | src/components/Background/PhyloBackground.jsx:108-117 | after the pass every stored count is 1 at a leaf and the sum of the children's elsewhere, and the root's count is the number of leaves |
| NewickLayout.ComputeLeafCounts | src/components/Background/PhyloBackground.jsx:107-118 | the pass stores every subtree's leaf count and returns the root's, which is at least 1 |
| NewickLayout.MaxOf | src/components/Background/PhyloBackground.jsx:127-131 | the best of the children's depths bounds each of them and is one of them |
| NewickLayout.ChildHeight | src/components/Background/PhyloBackground.jsx:128-130 | a child's subtree is at least one level shallower than its parent's |
| NewickLayout.Height | src/components/Background/PhyloBackground.jsx:123-133 | the number of edges on the longest path down to a leaf; ChildHeight and GetMaxDepth relate it to the recursion |
| NewickLayout.HeightBoundsDepths | src/components/Background/PhyloBackground.jsx:123-133 | no node lies deeper than the start depth plus the subtree height |
| NewickLayout.GetMaxDepth | src/components/Background/PhyloBackground.jsx:123-133 | the result is the start depth plus the subtree height, and the start depth itself at a leaf |
| NewickLayout.Tips | src/components/Background/PhyloBackground.jsx:147-154 | `_leafCount || 1` is at least 1, so the shares never divide by zero |
| NewickLayout.Theta | src/components/Background/PhyloBackground.jsx:141 | the polar angle maps depth 0 to 0 and depth maxDepth to pi, stays in [0, pi] in between, and is NaN when maxDepth is 0 |
| NewickLayout.Wedge | src/components/Background/PhyloBackground.jsx:154-156 | a child's wedge is never below the three-degree minimum |
| NewickLayout.WedgeIsMax | src/components/Background/PhyloBackground.jsx:154-156 | a wedge is the larger of the minimum and the child's leaf share of the available angle |
| NewickLayout.Wedges | src/components/Background/PhyloBackground.jsx:151-159 | one wedge per child, each at least the minimum |
| NewickLayout.WedgesPositive | src/components/Background/PhyloBackground.jsx:152-158 | a node with children has a positive sum of wedges, so the scale never divides by zero |
| NewickLayout.ScaleWithinUnit | src/components/Background/PhyloBackground.jsx:162-165 | for a non-negative available angle the scale lies in [0, 1] |
| NewickLayout.ScaleFills | src/components/Background/PhyloBackground.jsx:162-165 | wedges that reach the available angle are scaled to fill it exactly; wedges that fall short keep scale 1 |
| NewickLayout.Scale | src/components/Background/PhyloBackground.jsx:162-165 | available / sum when the wedges exceed the available angle, else 1; ScaleWithinUnit and ScaleFills state its range and that it fills the angle |
| NewickLayout.Place | src/components/Background/PhyloBackground.jsx:141-143 | each node gets its depth's polar angle and the midpoint of its interval as azimuth, keeping its name, length and count |
| NewickLayout.CutStep | src/components/Background/PhyloBackground.jsx:170-174 | each child's interval starts where the previous one ended and spans its scaled wedge |
| NewickLayout.Cut | src/components/Background/PhyloBackground.jsx:168-175 | where child k's interval starts: the start plus the first k scaled wedges; CutStep and the cut-bound lemmas relate consecutive cuts |
| NewickLayout.ChildTips | src/components/Background/PhyloBackground.jsx:154 | one tip count per child |
| NewickLayout.TipsAddUp | src/components/Background/PhyloBackground.jsx:147-154 | with consistent counts the children's tips add up to the parent's |
| NewickLayout.WedgesDominate | src/components/Background/PhyloBackground.jsx:155-156 | every wedge is at least the child's share of the available angle |
| NewickLayout.SharesFill | src/components/Background/PhyloBackground.jsx:153-159 | with counts from the counting pass, the wedges together cover the available angle |
| NewickLayout.AsReals | src/components/Background/PhyloBackground.jsx:147 | one real per count |
| NewickLayout.TotalAsReal | src/components/Background/PhyloBackground.jsx:114 | the sum of the counts as a real is the sum of the counts as reals |
| NewickLayout.ChildEndAddsWedge | src/components/Background/PhyloBackground.jsx:170-174 | a child's end is its start plus its scaled wedge, and is the next child's start |
| NewickLayout.ChildrenTile | src/components/Background/PhyloBackground.jsx:161-175 | when the wedges cover the interval the scale is at most 1 and the scaled child intervals tile it: the first starts at the start, the last ends at the end, each lies inside |
| NewickLayout.CutsTile | src/components/Background/PhyloBackground.jsx:168-175 | wedges scaled to fill the interval start the cuts at its start and end them at its end |
| NewickLayout.CutInterval | src/components/Background/PhyloBackground.jsx:170-172 | every child interval is ordered and lies inside the parent's interval |
| NewickLayout.CutWithin | src/components/Background/PhyloBackground.jsx:168-174 | every cut lies inside the parent's interval |
| NewickLayout.PhiWiden | src/components/Background/PhyloBackground.jsx:143 | azimuths inside an interval are inside any wider one |
| NewickLayout.PlacedWithin | src/components/Background/PhyloBackground.jsx:139-176 | with consistent counts every node's azimuth lies inside the interval its root was given |
| NewickLayout.PlacedChildWithin | src/components/Background/PhyloBackground.jsx:169-175 | each child's subtree stays inside its own wedge, which lies inside the parent's interval |
| NewickLayout.PlacedThetaWithin | src/components/Background/PhyloBackground.jsx:141 | when maxDepth is positive and bounds every depth, every polar angle is a number in [0, pi] |
| NewickLayout.PlacedChildThetaWithin | src/components/Background/PhyloBackground.jsx:173 | the same holds for each child's subtree, one level deeper |
| NewickLayout.AssignAngles | src/components/Background/PhyloBackground.jsx:139-176 | the two loops, one collecting wedges and their sum and one handing out consecutive scaled intervals, place the tree as the recursive definition does |
| NewickLayout.CollectWedges | src/components/Background/PhyloBackground.jsx:151-159 | the first loop yields every child's wedge and their sum |
| NewickLayout.PlaceChildren | src/components/Background/PhyloBackground.jsx:168-175 | the second loop places child j over the interval between cuts j and j+1 |
| NewickLayout.PlaceFromCuts | src/components/Background/PhyloBackground.jsx:139-175 | children placed at the node's own cuts and scale are the children the recursive placement gives |
| NewickLayout.CreatePhyloTree | src/components/Background/PhyloBackground.jsx:226-241 | the result is the parsed arena turned into a tree, leaf-counted and placed over the full circle with its own height as maxDepth (or the parse error); so counts are consistent, maxDepth is the tree height, the root's azimuth is pi, every azimuth lies in [0, 2 pi], and every polar angle lies in [0, pi] when maxDepth is positive |
| NewickLayout.PlaceKeepsHeight | src/components/Background/PhyloBackground.jsx:139-176 | placement changes no subtree height |
| NewickLayout.PlaceChildKeepsHeight | src/components/Background/PhyloBackground.jsx:173 | placing a child changes no subtree height |
| NewickLayout.PlaceKeepsCounted | src/components/Background/PhyloBackground.jsx:139-176 | placement keeps the stored counts consistent |
| NewickLayout.PlaceChildKeepsCounted | src/components/Background/PhyloBackground.jsx:173 | placing a child keeps its counts consistent |
| SphereSampler.AsWrittenHeight | phyloSphere.p5.js:334 | as written the height is NaN exactly when count is 1, since `i / (count - 1)` is then 0/0 |
| SphereSampler.SinglePointIsNaN | src/components/Background/PhyloExpansionBackground.jsx:274 | as written, a single point has no height at all |
| SphereSampler.HeightAsWritten | phyloSphere.p5.js:333-334 | with two points or more the corrected height is the height as written |
| SphereSampler.Height | phyloSphere.p5.js:333-334 | the height 1 - 2 i / (count - 1), with a single point at the top; HeightWithin, HeightEnds and HeightSteps state its range, ends and spacing |
| SphereSampler.HeightWithin | src/components/Background/PhyloExpansionBackground.jsx:273-275 | every height lies in [-1, 1], so `sqrt(1 - y*y)` is defined |
| SphereSampler.HeightEnds | phyloSphere.p5.js:333 | heights start at +1 and, with two points or more, end at -1 |
| SphereSampler.HeightSteps | phyloSphere.p5.js:332-334 | consecutive heights are evenly spaced, each 2/(count-1) below the one before |
| SphereSampler.PointOnSphere | src/components/Background/PhyloExpansionBackground.jsx:274-279 | every point lies exactly on the sphere of the given radius |
| SphereSampler.Point | phyloSphere.p5.js:334-341 | the unit-sphere point at height y and azimuth i x golden angle, scaled by the radius; PointOnSphere puts it on the sphere |
| SphereSampler.SquareAtMostOne | phyloSphere.p5.js:335 | a height in [-1, 1] leaves `1 - y*y` non-negative |
| SphereSampler.UnitComponents | phyloSphere.p5.js:335-338 | a unit-circle direction scaled by the ring radius, with the height, is a unit vector |
| SphereSampler.FibonacciSpherePositions | phyloSphere.p5.js:328-344 | exactly `count` points, point i at height (corrected) y_i x radius, and each on the sphere of that radius |
| SphereSampler.PointsOnSphere | src/components/Background/PhyloExpansionBackground.jsx:270-282 | every point of the list has its height and lies on the sphere |
| SphereSampler.UnitPointAt | src/components/Background/PhyloExpansionBackground.jsx:274-278 | one iteration computes the unit-sphere point i from the golden angle computed before the loop |
| PhyloTree.SubtreeSizeIs | phyloSphere.p5.js:128-144 | `buildSubtree(p, d, D)` creates 2^(D+2-d) - 2 nodes |
| PhyloTree.LeavesBelowIs | src/components/Background/PhyloExpansionBackground.jsx:117-130 | of which 2^(D+1-d) are leaves, created at depth D |
| PhyloTree.TreeCounts | phyloSphere.p5.js:108-121 | the whole tree has 2^(D+1) - 1 nodes and 2^D leaves (none when D = 0, where the root is the only node) |
| PhyloTree.Reciprocal | phyloSphere.p5.js:136-138 | in a finished tree every edge is listed at both of its ends |
| PhyloTree.Degree | src/components/Background/PhyloExpansionBackground.jsx:122-124 | a leaf has one edge, an internal node three, the root two (none when D = 0) |
| PhyloTree.ParentBeforeChildren | phyloSphere.p5.js:96 | the parent's index is below a node's and its children's above, so the `j > i` test keeps exactly the child edges |
| PhyloTree.EdgesDistinct | src/components/Background/PhyloExpansionBackground.jsx:122-124 | no node lists the same neighbour twice |
| PhyloTree.DepthOfKind | phyloSphere.p5.js:108-188 | the root is index 0 at depth 0, leaves sit at depth D, internal nodes strictly between |
| PhyloTree.GrowsTrans | src/components/Background/PhyloExpansionBackground.jsx:104-130 | appending nodes and pushing edges, done twice, is still appending and pushing |
| PhyloTree.LinkedPreserved | phyloSphere.p5.js:140-143 | a complete node stays complete while later subtrees are built |
| PhyloTree.RangePreserved | src/components/Background/PhyloExpansionBackground.jsx:126-129 | a complete run of nodes stays complete while the right subtree is built |
| PhyloTree.LeafSeq | phyloSphere.p5.js:164 | the leaf positions in index order are never more than the nodes |
| PhyloTree.LeafSeqLength | src/components/Background/PhyloExpansionBackground.jsx:144 | there are as many leaf positions as nodes flagged `isLeaf` |
| PhyloTree.LeafSeqSnoc | phyloSphere.p5.js:186 | pushing one node adds its position when, and only when, it is a leaf |
| PhyloTree.LeafSeqGrows | src/components/Background/PhyloExpansionBackground.jsx:122-124 | pushing edges leaves the leaf positions unchanged |
| PhyloTree.Forward | phyloSphere.p5.js:95-96 | the inner edge loop visits at most as many pairs as the node has edges |
| PhyloTree.ForwardMembers | src/components/Background/PhyloExpansionBackground.jsx:91-92 | `(a, b)` is visited from node i exactly when a = i, b is listed by i and b > i |
| PhyloTree.EdgePairsMembers | phyloSphere.p5.js:93-101 | a pair is drawn exactly when its lower index lists the higher one |
| PhyloTree.ForwardCount | src/components/Background/PhyloExpansionBackground.jsx:188-189 | when the entries above i are those from position u on, `j > i` keeps |es| - u of them |
| PhyloTree.ForwardNone | phyloSphere.p5.js:227-228 | a node listing only lower indices contributes no pair |
| PhyloTree.EdgePairsCount | src/components/Background/PhyloExpansionBackground.jsx:89-97 | the drawing loop draws one line per child edge |
| PhyloTree.SumKidsLeaves | phyloSphere.p5.js:140 | once the tree has levels under the root, every non-leaf has two children |
| PhyloTree.TreeEdgeCount | phyloSphere.p5.js:93-101 | in the finished tree the drawing loop draws |nodes| - 1 lines, one per non-root node |
| PhyloTree.ForwardDistinct | src/components/Background/PhyloExpansionBackground.jsx:91-95 | one node's inner loop never repeats a pair |
| PhyloTree.EdgePairsDistinct | phyloSphere.p5.js:93-101 | no line is drawn twice in a frame |
| PhyloTree.WellLinkedInRange | phyloSphere.p5.js:97 | every edge index of a finished tree names a node, so `nodes[j]` is defined |
| PhyloTree.NumLeavesShape | src/components/Background/PhyloExpansionBackground.jsx:228-230 | moving nodes does not change how many are leaves |
| PhyloTree.ShapeKeepsLinks | phyloSphere.p5.js:243-318 | a layout step that changes only positions and velocities keeps the tree well linked, with as many leaves |
| PhyloTree.LeafCounted | src/components/Background/PhyloExpansionBackground.jsx:142-147 | a leaf anywhere means at least one is counted |
| PhyloTree.ChildOfGrows | src/components/Background/PhyloExpansionBackground.jsx:126-129 | a child stays a child of its parent while the tree grows |
| PhyloTree.NewNodeLinked | phyloSphere.p5.js:133-138 | a new node linked to its parent and given its two children (or none at depth D) is complete |
| PhyloTree.ChildrenGrow | phyloSphere.p5.js:133-134 | adding the two children only appends nodes and pushes edges |
| PhyloTree.EdgesPushed | src/components/Background/PhyloExpansionBackground.jsx:122 | `edges.push` keeps the number of nodes |
| PhyloTree.EdgesPushedGrows | phyloSphere.p5.js:136 | a push appends to one node's edges and changes nothing else |
| PhyloTree.LinkChildren | src/components/Background/PhyloExpansionBackground.jsx:119-124 | two fresh nodes plus the three pushes give the parent its two children and each child its parent, and add the children's positions to the leaf sequence when they are leaves |
| PhyloTree.LinkLeaves | phyloSphere.p5.js:137-138 | the pushes leave the leaf positions as the two new nodes made them |
| PhyloTree.AssembleLeaves | phyloSphere.p5.js:129-138 | at depth D the call appends two complete leaves under the parent |
| PhyloTree.AssembleInner | src/components/Background/PhyloExpansionBackground.jsx:117-130 | above it the call appends the two children and then a complete subtree under each, left first |
| PhyloTree.InnerLinked | phyloSphere.p5.js:140-143 | the two children and everything appended below them are complete |
| PhyloForces.InRangeConcat | src/components/Background/PhyloExpansionBackground.jsx:166-169 | transfers between indices of the force arrays stay in range when joined |
| PhyloForces.Exchange | phyloSphere.p5.js:220-221 | one pair's update keeps the length of the force arrays |
| PhyloForces.Apply | src/components/Background/PhyloExpansionBackground.jsx:181-182 | a sequence of pair updates keeps the length of the force arrays |
| PhyloForces.ApplySnoc | phyloSphere.p5.js:207 | one more pair is one more exchange after the earlier ones |
| PhyloForces.ApplyConcat | src/components/Background/PhyloExpansionBackground.jsx:172-201 | running two loops one after the other applies their transfers in sequence |
| PhyloForces.TotalUpdate | phyloSphere.p5.js:201-203 | changing one entry changes the sum of the forces by the difference |
| PhyloForces.ExchangeMoves | phyloSphere.p5.js:220-238 | one pair's update takes `v` from one node, gives it to the other, and leaves every other node alone |
| PhyloForces.ExchangeConserves | src/components/Background/PhyloExpansionBackground.jsx:197-198 | one pair's update leaves the sum of the forces unchanged |
| PhyloForces.TakeThenGive | src/components/Background/PhyloExpansionBackground.jsx:181-182 | taking `v` from one entry and giving it to another leaves the sum as it was |
| PhyloForces.ApplyConserves | phyloSphere.p5.js:205-241 | any run of pair updates leaves the sum of the forces unchanged |
| PhyloForces.Zeros | phyloSphere.p5.js:201 | `new Array(nCount).fill(0)` has one zero per node |
| PhyloForces.TotalZeros | src/components/Background/PhyloExpansionBackground.jsx:167-169 | the freshly zeroed force arrays sum to zero |
| PhyloForces.AlongDirection | phyloSphere.p5.js:218 | a multiple `c/q` of the direction points along it when non-negative and against it when non-positive |
| PhyloForces.RepulsionPushesApart | phyloSphere.p5.js:208-221 | repulsion pushes node j away from node i |
| PhyloForces.Repulsion | phyloSphere.p5.js:208-221 | the softened inverse-square push of magnitude REPULSION_STRENGTH / (d² + 0.0001) along the unit direction; RepulsionPushesApart gives its direction |
| PhyloForces.SpringTowardsRest | src/components/Background/PhyloExpansionBackground.jsx:190-198 | a spring longer than its rest length pulls the nodes together and a shorter one pushes them apart |
| PhyloForces.Spring | phyloSphere.p5.js:226-238 | the linear spring SPRING_STRENGTH x (dist - rest) along the unit direction; SpringTowardsRest gives its direction |
| PhyloForces.RepulsionRow | src/components/Background/PhyloExpansionBackground.jsx:173 | row i of the repulsion loop has one in-range transfer per `j > i` |
| PhyloForces.RepulsionRows | src/components/Background/PhyloExpansionBackground.jsx:172 | every transfer of the repulsion loop is in range |
| PhyloForces.SpringRow | phyloSphere.p5.js:227-228 | every spring transfer of node i is in range |
| PhyloForces.SpringRows | src/components/Background/PhyloExpansionBackground.jsx:187-188 | every transfer of the spring loop is in range |
| PhyloForces.RepulsionRowStep | phyloSphere.p5.js:220-221 | one more `j` of the repulsion row is one more exchange |
| PhyloForces.SpringRowTaken | phyloSphere.p5.js:228-238 | an edge to a later node adds one spring exchange |
| PhyloForces.SpringRowSkipped | src/components/Background/PhyloExpansionBackground.jsx:189 | an edge to an earlier node adds nothing: that spring was applied from the other end |
| PhyloForces.RepulsionRowsStep | phyloSphere.p5.js:206-207 | one more `i` of the repulsion loop is its row of exchanges |
| PhyloForces.SpringRowsStep | phyloSphere.p5.js:226-227 | one more `i` of the spring loop is its row of exchanges |
| PhyloForces.Forces | src/components/Background/PhyloExpansionBackground.jsx:165-201 | the force arrays after both pair loops have one entry per node |
| PhyloForces.ForcesBalance | phyloSphere.p5.js:199-241 | action equals reaction: the forces of a step sum to zero on each axis |
| PhyloForces.FreeDriftDamped | src/components/Background/PhyloExpansionBackground.jsx:213-220 | without force a node's speed falls by the damping factor each step |
| PhyloForces.Integrated | phyloSphere.p5.js:244-268 | the Euler step changes only position and velocity, and puts the root at the centre at rest |
| PhyloForces.ScaledToRadius | phyloSphere.p5.js:287-288 | scaling by `R / r` puts a point of norm r on the sphere of radius R |
| PhyloForces.UnitNormal | src/components/Background/PhyloExpansionBackground.jsx:244-246 | a point on the sphere divided by the radius is a unit normal |
| PhyloForces.RemoveComponent | phyloSphere.p5.js:291-297 | removing the radial component leaves a velocity orthogonal to the normal |
| PhyloForces.ProjectedOnSphere | src/components/Background/PhyloExpansionBackground.jsx:241-248 | a projected node lies on the sphere and moves only tangentially |
| PhyloForces.Projected | phyloSphere.p5.js:286-297 | projecting onto the sphere changes only position and velocity |
| PhyloForces.Collapsed | phyloSphere.p5.js:276-278 | a leaf within 0.0001 of the centre, which cannot be projected |
| PhyloForces.Constrained | phyloSphere.p5.js:270-318 | the constraint changes only position and velocity, and leaves the root untouched |
| PhyloForces.ConstrainedSettles | phyloSphere.p5.js:270-318 | the constraint keeps depth, flags and edges; leaves the root and an internal node inside the sphere untouched; puts an internal node outside the sphere on it with tangential velocity; re-seeds a collapsed leaf at the pick at rest; and leaves every other node on the sphere (leaves) or inside it (internal nodes) |
| PhyloForces.StepSettles | src/components/Background/PhyloExpansionBackground.jsx:203-266 | integrating then constraining one node leaves the root at the centre at rest, a leaf on the sphere moving tangentially and an internal node in the ball |
| PhyloForces.StepSettlesAll | phyloSphere.p5.js:243-318 | after a whole step every node of a tree is settled |
| PhyloSketch.RandomBelow | phyloSphere.p5.js:280 | `random(n)` lies in [0, n), so its floor indexes `leafPositions` |
| PhyloSketch.FractionBelow | src/components/Background/PhyloExpansionBackground.jsx:236 | a fraction of n below 1 stays below n |
| PhyloSketch.LeavesTaken | src/components/Background/PhyloExpansionBackground.jsx:144 | taking the next two leaf positions extends the prefix used so far |
| PhyloSketch.SphericalRadius | phyloSphere.p5.js:176-178 | an internal node starts at distance exactly r before the jitter |
| PhyloSketch.InteriorRadiusInside | src/components/Background/PhyloExpansionBackground.jsx:150-151 | `depth / MAX_DEPTH * SPHERE_RADIUS` lies strictly inside the sphere for an internal depth |
| PhyloSketch.Sketch.constructor | phyloSphere.p5.js:45-50 | an empty sketch: no nodes, no leaf positions, leaf index 0, no draws taken |
| PhyloSketch.Sketch.Random | src/components/Background/PhyloExpansionBackground.jsx:152-153 | each call takes the next draw of the generator and scales it to [lo, hi) |
| PhyloSketch.Sketch.PushEdges | src/components/Background/PhyloExpansionBackground.jsx:123 | pushes onto one node's edges and changes nothing else |
| PhyloSketch.Sketch.LinkToParent | phyloSphere.p5.js:136-138 | the three pushes of `buildSubtree`, in order |
| PhyloSketch.Sketch.InteriorPosition | phyloSphere.p5.js:170-183 | takes five draws (two angles, three jitters) and returns the interior start they give |
| PhyloSketch.Sketch.RandomJitter | src/components/Background/PhyloExpansionBackground.jsx:157-159 | takes three draws, one per axis, and returns the jitter they give |
| PhyloSketch.Sketch.CreateNodeAtDepth | phyloSphere.p5.js:151-188 | appends a node at rest with no edges at the next index; a leaf takes the next leaf position and no draw, an internal node five draws |
| PhyloSketch.Sketch.AddChildren | src/components/Background/PhyloExpansionBackground.jsx:119-124 | appends the two children linked to the parent, and the leaf positions used are still a prefix |
| PhyloSketch.Sketch.BuildSubtree | phyloSphere.p5.js:128-144 | appends the complete subtree under the parent, uses one leaf position per leaf, in order, and changes nothing else but the parent's edges |
| PhyloSketch.Sketch.BuildBinaryTree | src/components/Background/PhyloExpansionBackground.jsx:104-115 | a well-linked tree of 2^(D+1) - 1 nodes with 2^D leaves (0 when D = 0) rooted at the centre, its leaves at the leaf positions in order |
| PhyloSketch.Sketch.Integrate | phyloSphere.p5.js:243-268 | every node becomes its Euler update, the root pinned at the centre, and the tree's shape is unchanged |
| PhyloSketch.Sketch.Constrain | src/components/Background/PhyloExpansionBackground.jsx:227-266 | every node becomes its constrained form, a collapsed leaf re-seeded at one of the leaf positions |
| PhyloSketch.Sketch.PhysicsStep | phyloSphere.p5.js:199-319 | one step integrates under the balanced forces and then constrains, leaving every node settled and the tree intact |
| PhyloSketch.Sketch.Setup | phyloSphere.p5.js:52-74 | 2^D leaf positions, a tree of 2^(D+1) - 1 nodes with 2^D leaves, every node settled after the warm-up |
| PhyloSketch.Sketch.PlaceLeaves | src/components/Background/PhyloExpansionBackground.jsx:60-62 | one Fibonacci position per leaf |
| PhyloSketch.Sketch.WarmUp | src/components/Background/PhyloExpansionBackground.jsx:67-70 | the tree stays intact and, after at least one step, every node is settled |
| PhyloSketch.Sketch.EdgeSegments | src/components/Background/PhyloExpansionBackground.jsx:89-97 | one line per drawn pair, from the first node's position to the second's |
| PhyloSketch.Sketch.Draw | phyloSphere.p5.js:76-102 | a layout step, then one line per edge of the tree, each once |
| PhyloSketch.ForwardSegments | phyloSphere.p5.js:94-100 | the lines of one node, to each later neighbour, in edge order |
| PhyloSketch.JoinsConcat | src/components/Background/PhyloExpansionBackground.jsx:89-90 | the lines of two rows joined are the lines of their pairs joined |
| PhyloSketch.JoinsSnoc | src/components/Background/PhyloExpansionBackground.jsx:93-94 | one more pair adds the line between its two positions |
| PhyloSketch.ComputeForces | phyloSphere.p5.js:200-241 | a fresh array holding the forces of both pair loops |
| PhyloSketch.Repulse | src/components/Background/PhyloExpansionBackground.jsx:171-184 | the repulsion loop applies every pair `i < j` in loop order |
| PhyloSketch.ZeroForces | src/components/Background/PhyloExpansionBackground.jsx:167 | a fresh array of one zero per node |
| PhyloSketch.RepulseRow | phyloSphere.p5.js:207-222 | row i applies each `j > i` in order |
| PhyloSketch.Springs | src/components/Background/PhyloExpansionBackground.jsx:186-201 | the spring loop applies every edge to a later node in loop order |
| PhyloSketch.SpringRowPass | phyloSphere.p5.js:227-240 | node i applies the spring of each edge to a later node in edge order |
| PhyloSketch.ApplyTransfer | src/components/Background/PhyloExpansionBackground.jsx:197-198 | one pair update on the force arrays in place |
| PhyloSketch.NewRootLinked | phyloSphere.p5.js:110-120 | the root followed by its complete subtree is a well-linked tree, the root listing its two children |
| PhyloSketch.ConstrainKeepsShape | src/components/Background/PhyloExpansionBackground.jsx:228-265 | the constraint pass changes positions and velocities only |

## Left out

- Floating point: every JavaScript number is a mathematical real or integer. Rounding, overflow to Infinity, NaN propagation and `-0` are not modelled, except the NaN that `fibonacciSpherePositions` produces for one point (see Findings).
- `Math.sqrt`, `Math.sin`, `Math.cos` and p5's `sqrt`, `sin`, `cos` are abstract parameters. Only their identities are assumed: the square root squares back, and sin² + cos² = 1.
- `Math.random` and p5's `random` are a stream `uniform(k)` of draws in [0, 1), passed in. Which values it yields is not modelled.
- Rendering is not modelled: three.js scenes, cameras, materials, shaders, `BufferGeometry`, p5 canvases, strokes, rotation by frame count and window resizing. Only the values handed to the renderer are modelled.
- `requestAnimationFrame` and `performance.now` are not modelled. The watchdog takes the current time as a parameter of each frame.
- The initial quality from `detectPerformance` is an input. That probe reads three things: whether a WebGL context exists, whether the `UNMASKED_RENDERER_WEBGL` GPU string matches `intel`, `hd graphics` or `integrated` (any case), and whether `navigator.deviceMemory` is below 4.
- The `fetch` of `phylo.txt` is not modelled: the Newick model starts from the text's token sequence. The regular-expression `split` that produces the tokens is not modelled either.
- `import.meta.glob` is not modelled: the posts are an input sequence of path and raw-content pairs.
- `parseFloat` of a branch length is not modelled: the length is kept as its token text.
- The regular expressions of the post utilities are modelled by their effect, not as a general regex engine: the front-matter block, the key-value line, list items, `Week N` and the title trim.
- Object identity and aliasing of the sketches' node objects are not modelled. Nodes are values in a sequence field that the methods reassign, so an update of `nd.x` through a local alias becomes a replacement of `nodes[i]`.
- The force magnitudes are not bounded, and convergence of the 200 warm-up steps is not modelled. Only direction, balance and the sphere constraints are proved.
- `sphericalToCartesian`, `rotateAround*` and `getSurfacePoint` are not modelled. They are trigonometric placement with no property beyond the abstract sin and cos.
- `OrbitalSimBackground` is not modelled. It is a rendering-only animation with no logic beyond three.js calls.
- The static content components are not modelled. They are CV, Home, Projects, Contact, About, the ESPM112L and Walkthroughs2021 pages, PostView, PostLayout and the `Routes` table. They are UI markup and router matching.
- `Array.prototype.sort` is modelled as a stable insertion sort by key. Since ES2019 the sort must be stable, and a stable sort has exactly one possible outcome.
- Cleanup and dispose handlers on unmount are not modelled.
- StarSphere.MapRange: requires `inMin != inMax`. JavaScript would divide by zero there, but the only callers pass 5 and 25.
- Numeric.MapLinear: requires distinct source ends for the same reason. The dragon-curve callers pass the bounds of a curve with at least one unfolding, which UnfoldedCurveSpans shows have width and height.
- DragonSphere.SetupDragonLines: requires at least one unfolding. With none, the two-point curve has zero height and the source divides by zero; the sources use 9 or 11 unfoldings.
- DragonSphere.CreateDragonCurveOnSphere: requires at least one unfolding, for the same reason.
- NewickLayout.CreatePhyloTree: lays out the corrected parse (see Findings), not the parse as written. Both readings succeed and fail on the same token lists with the same errors and build the same shape (Newick.RunShape). They differ only in the name and length text of a node written `:len` without a name.
- StarSphere.StarWalk: `step` is a natural number. With a negative step, JavaScript's `%` keeps the dividend's sign and the walk would pass through negative indices; the only caller passes 2.

## Findings

| source | as written | input that shows it | evidently intended | confidence | as-written member | corrected member |
|---|---|---|---|---|---|---|
| src/components/Background/PhyloBackground.jsx:88-94 | a token after `:` on a node without a name becomes the node's name, because the empty name is falsy | `:3;` | the token after `:` is the branch length | not executed | Newick.UnnamedRootNamedByLength | Newick.CorrectedRootKeepsLength |
| phyloSphere.p5.js:334 | `i / (count - 1)` is 0/0, so the single point's height is NaN | `count = 1` | a single point at the top of the sphere, height 1 | not executed | SphereSampler.SinglePointIsNaN | SphereSampler.HeightWithin |
