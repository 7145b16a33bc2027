# Art of Constellation: a Dafny model of the sky generator, the link-drafting state machine and line shading

Art of Constellation is a WASM-4 game. The player sees a night sky of stars and drags lines
between bright stars to form constellations. The model covers three parts of the game.

- **The sky generator** (`src/util.rs`). A 32-bit linear congruential generator drives it.
  A 10×10 grid of 64-pixel sections serves as the spatial index. The first star goes in the
  centre section. Each further candidate position is pushed away from stars that are too
  close (closer than 20 pixels, or in the dead zone between 35 and 47 pixels) and pulled
  toward a star it could be linked to. It is committed only when nothing in its 3×3 block
  of sections objects. A committed star may receive a "preset" bright link from its closest
  neighbour. That needs the neighbour to be within 30 pixels and the neighbour's existing
  constellation, found by a stack-based traversal over the links, to be small.
  - The model proves that the generated sky keeps the spacing rules the generator
    documents. No two stars are within 20 pixels of each other, and no star lies in
    another's dead zone.
  - It also proves that every star after the first can be linked to an earlier star.
  - Every preset link is short and bright.
  - The spatial index names exactly the stars, each in the section holding it.
- **The drafting state machine** (`src/sky.rs`, and its near-copy `src/interactive_sky.rs`).
  Each tick it hit-tests the bright stars under the pointer and reacts to the press and
  release edges of the button.
  - A press anchors a dashed draft line at a star.
  - A release over another star commits a bright link. That costs one unit of light. If
    the link completes a constellation, the constellation is dimmed and some light is
    refunded.
  - The draft follows the pointer, is clamped to 35 pixels and snaps to stars.
  - Both sky classes are modelled as classes whose methods are proved against one
    value-level description of a tick.
- **Line shading** (`src/line.rs`). `get_color` computes the 2-bit colour of each pixel of
  a dashed, dim or bright line, with tapered ends and an animated highlight. `draw_line`
  samples the line once per pixel of its longer axis and writes each colour into its two
  bits of the packed framebuffer.

The files:

| file | module | contents |
|---|---|---|
| `arith.dfy` | `Arith` | Rust's truncating signed division; the integer square root `isqrt` |
| `prng.dfy` | `Prng` | `next_random` and the placement jitter |
| `entities.dfy` | `Entities` | stars, links, the draft line, the cursor, the generator's node list |
| `grid.dfy` | `Grid` | sky bounds, sections, `neighboring_section_indices` |
| `graph.dfy` | `Graph` | `get_reachable_star_indices` |
| `distances.dfy` | `Distances` | `check_distances` |
| `generator.dfy` | `Generator` | `add_star`, `get_closest_star_idx`, `handle_preset_line` |
| `generation.dfy` | `Generation` | `generate_sky` and the sky invariants it keeps |
| `line.dfy` | `Line` | `get_color`, `draw_line` |
| `drafting.dfy` | `Drafting` | the value-level tick shared by both sky classes |
| `sky.dfy` | `SkyNode` | class `Sky` of `src/sky.rs` |
| `interactive_sky.dfy` | `InteractiveSkyNode` | class `InteractiveSky` of `src/interactive_sky.rs` |

Parameters stand in for everything the core reads from outside:
- the pointer: the `MOUSE_X`, `MOUSE_Y` and `MOUSE_BUTTONS` globals become a `Pointer` value;
- the focus, i.e. the scroll position;
- the update counter: `timer`;
- the framebuffer: an array of bytes;
- the `PRESET_LINE_CHANCE` comparison: `coin`;
- the operations `src/util.rs` does not define: a `Hooks` value.

## Model

| member | source | states |
|---|---|---|
| Prng.NextRandom | src/util.rs:9-15 | the new state is two LCG steps `s ↦ (s·134775813+1) mod 2³²` on; the draw's low 16 bits are the top 16 bits of the first new state and its high 16 bits those of the second |
| Prng.Jitter | src/util.rs:288-289 | the per-axis jitter `(r & 7) − 3` lies in [−3, 4] |
| Arith.TruncDiv | src/line.rs:83-84 | Rust's signed `/`: the quotient's magnitude is the floor of \|a\|/\|b\| and its sign is that of a·b (zero allowed), i.e. rounding toward zero |
| Arith.Isqrt | src/util.rs:92 | `isqrt(n)` is the r with r² ≤ n < (r+1)² |
| Arith.IsqrtAtLeast | src/util.rs:92-113 | isqrt(n) ≥ k exactly when n ≥ k², which turns the distance thresholds into comparisons of squared distances |
| Arith.IsqrtUnique | src/util.rs:92 | any r with r² ≤ n < (r+1)² is isqrt(n) |
| Arith.IsqrtDominates | src/util.rs:101-112 | each coordinate difference is at most isqrt(dx²+dy²) in magnitude, so the rescaled offsets stay within the target length |
| Grid.SectionOfInBounds | src/util.rs:147-158 | a point is in the sky exactly when its section column and row are in the grid, and then its section index is below 100 and encodes that column and row |
| Grid.NeighboringSectionIndices | src/util.rs:51-71 | at most 9 sections, in increasing (row-major) order; a section is listed exactly when it is in the grid and its column and row differ from the given one's by at most 1; an in-grid section lists itself |
| Grid.FarApart | src/util.rs:17-40 | two in-sky points in non-neighbouring sections are at least 65 pixels apart on some axis, so beyond the dead zone's end (47): the 3×3 check suffices |
| Graph.GetReachableStarIndices | src/util.rs:200-224 | terminates; the result is the far ends of the links incident to each index in the exact last-in-first-out pop order `Traversal`, one per link (so repeats occur); a start without links gives [] and a start with links reappears in the result |
| Graph.PopOrder | src/util.rs:204-221 | the pop order continuing from a stack and an expanded list extends that list, and its next entry is the top of the stack |
| Graph.TraversalIsOrder | src/util.rs:200-224 | the pop order starts at the start, each later index was reached through a link from an earlier one, and every neighbour of a popped index is popped: it covers the start's connected component |
| Graph.PopOrderStep | src/util.rs:204-221 | popping the top and pushing its unexpanded neighbours keeps the stack invariants and leaves the remaining pop order unchanged |
| Graph.PairTraversal | src/util.rs:200-224 | two stars linked only to each other: from one, both are popped and the result has two entries, one per star |
| Graph.ChainTraversal | src/util.rs:200-224 | a chain a − b − c traversed from a pops a, b, c and reports [b, a, c, b] |
| Graph.ChainExample | src/util.rs:200-224 | the three-star chain with links A − B and B − C reports [B, A, C, B] from A |
| Graph.ExpandIndex | src/util.rs:207-220 | expanding one index appends its neighbours in node order to the result and pushes those not yet expanded |
| Graph.VisitNode | src/util.rs:208-219 | a link incident to the expanded index appends its far end to the result and pushes it unless already expanded; any other node changes nothing |
| Graph.TraversalStep | src/util.rs:205-221 | one pop-and-expand keeps the traversal invariant (stack ordering, closure, provenance) and decreases (unexpanded indices, stack height) lexicographically |
| Graph.NeighboursSymmetric | src/util.rs:208-214 | b is reported from a exactly when a is reported from b |
| Graph.LonelyStartReachesNothing | src/util.rs:200-224 | from a star with no links the traversal reports nothing |
| Graph.StartReachedBack | src/util.rs:205-221 | from a star with a link the start itself is reported again |
| Distances.CheckDistances | src/util.rs:73-132 | `None` exactly when no star of the 3×3 block is within 20 pixels or in the dead zone (35, 47] and some star is within 35; the first such conflicting star yields its push; an empty block yields the pull with distance `i32::MAX`; otherwise the pull toward the first closest star |
| Distances.ScanSections | src/util.rs:87-121 | the nested scan over the block's sections and their stars, with the same result characterisation over the stars in scan order |
| Distances.ScanBucket | src/util.rs:88-120 | scanning one section either stops at the first conflicting star with its push, or extends the running first minimum over that section |
| Distances.PushPointsAway | src/util.rs:94-113 | coincident positions give (10, 10); otherwise each component of the push has the sign of candidate − star and magnitude at most 20 (too close) or 35 (dead zone) |
| Distances.PullPointsToward | src/util.rs:123-130 | each component of the pull has the sign of star − candidate and magnitude at most 35 |
| Distances.PullComponent | src/util.rs:124-128 | one axis of the pull, the offset times 35 over the distance rounded toward zero, keeps the offset's sign and is at most 35 in magnitude |
| Distances.LonelyPullIsZero | src/util.rs:83-130 | with no star in the block the correction is (0, 0) |
| Distances.ScanDone | src/util.rs:115-123 | after the scan, some star is within linking distance exactly when the minimum found is at most 35 |
| Distances.DistBelowMax | src/util.rs:85 | two in-sky points are closer than `i32::MAX`, so the first star scanned always replaces the initial minimum |
| Generator.AddStar | src/util.rs:141-167 | out of the sky: `None` and nothing changes; in the sky: the star is appended to the nodes, its node index to exactly its section, the section to the filled list only if absent, and (section, last slot) is returned; the index invariant is kept |
| Generator.AddStarKeepsIndex | src/util.rs:158-164 | every entry of every section names a star node lying in that section, every star node is indexed, and the filled list holds exactly the non-empty sections without repeats |
| Generator.ClosestOtherIsClosest | src/util.rs:169-198 | the star chosen is one of the other stars of the block, the distance returned is the isqrt distance to it, and no other star of the block is closer; with no other star the result is (0, isqrt(`i32::MAX`) = 46340) |
| Generator.GetClosestStarIdx | src/util.rs:169-198 | the scan skipping the star itself returns that closest other star and its distance |
| Generator.ClosestInBucket | src/util.rs:180-195 | scanning one section (skipping the base slot) extends the running first minimum of squared distances and tracks its node index |
| Generator.LonelyDistIsRoot | src/util.rs:175-197 | isqrt(`i32::MAX`) is 46340, beyond the 30-pixel preset limit |
| Generator.DistSqBelowMax | src/util.rs:175-191 | two in-sky stars have squared distance below `i32::MAX`, so no real candidate is lost to the initial value |
| Generator.HandlePresetLine | src/util.rs:226-253 | nothing changes when the closest star is farther than 30 pixels (always so when it is alone); otherwise, for the exact traversal from the closest star: with 3 or more reported entries nothing changes, else one draw is consumed and the bright link (closest, new star) is appended exactly when `coin` accepts it |
| Generator.UnlinkedStarIsOffered | src/util.rs:240-252 | a near closest star without links is always offered the link: one draw is consumed and the link is appended exactly when `coin` accepts |
| Generator.PairedStarIsOffered | src/util.rs:240-252 | so is a near closest star linked only to a star linked only back to it: its traversal reports 2 entries, fewer than 3 |
| Generation.GenerateSky | src/util.rs:255-311 | the result has its first star bright in the centre section, every star in the sky and bright, no two stars within 20 pixels or in each other's dead zone, every later star within 35 pixels of an earlier one, only bright links of at most 30 pixels between stars, and at most 350 stars |
| Generation.PlaceFirstStar | src/util.rs:256-274 | the first `add_star` always succeeds: one star, in [320, 384)², and the invariant holds, so the filled list is not empty for the `%` at line 276 |
| Generation.PlaceStar | src/util.rs:276-307 | up to 50 adjustments keep the invariant; when a star is added the old nodes are kept as a prefix, the star count grows by one and the next node is a bright star at a position that passes `is_in_bounds` and `check_distances == None`; otherwise nothing changes |
| Generation.CommitStar | src/util.rs:290-305 | committing an accepted candidate keeps the old nodes, appends that bright star and then at most one link, grows the star count by one and keeps the invariant |
| Generation.AddedStarKeeps | src/util.rs:24-40 | a star accepted by `check_distances` keeps every documented spacing rule, the linkability of later stars, and the index |
| Generation.SpacedAfterAdd | src/util.rs:24-40 | a new star clear of every existing star keeps the sky spaced |
| Generation.CandidateOrFar | src/util.rs:87-113 | a star the 3×3 scan did not see is more than 64 pixels away, so accepting a candidate clears it of every star |
| Generation.PresetLinkKeeps | src/util.rs:244-252 | the preset link, when added, keeps the invariant and the star count |
| Generation.StarCountAppend | src/util.rs:274-296 | the star counter grows by one exactly when a star node is appended |
| Line.GetColor | src/line.rs:12-67 | for progress < steps (no u32 underflow, table indices 0..4): dashed is 0 below 4 and otherwise 1 exactly when (progress − (timer/6) % 5) % 5 < 3; dim is 0 within 3 of either end, otherwise the taper value (at most 1) and 1 in the middle; bright is 0 within 4 of either end, otherwise the taper plus 1 exactly in [(timer & 0xff)·2, +6), so 1 to 3; other styles 0 |
| Line.DashPeriodic | src/line.rs:33-39 | the dash pattern repeats every 5 pixels |
| Line.DashScrolls | src/line.rs:34 | 6 ticks later the dash pattern has moved one pixel along the line |
| Line.ShadeSymmetric | src/line.rs:40-63 | the dim shading, and the bright one away from the highlight, read the same from both ends |
| Line.EndShadeMirror | src/line.rs:41-54 | the end taper at progress and at steps − progress agree |
| Line.DrawLine | src/line.rs:69-111 | the framebuffer afterwards is the old one painted with samples 0 … max(\|dx\|, \|dy\|) − 1 in order; coincident endpoints paint nothing and divide by nothing |
| Line.DrawSample | src/line.rs:83-109 | one sample: off-screen or colour 0 leaves the buffer alone, otherwise its two bits are set |
| Line.WritePixel | src/line.rs:101-109 | the masked write sets the pixel's two bits in its byte |
| Line.SetPixelEffect | src/line.rs:101-109 | only byte pixel_idx >> 2 changes; in it the bits at (pixel_idx & 3)·2 become the colour and all other bits are kept |
| Line.PaintedFrame | src/line.rs:82-110 | a byte that no sample touches keeps its value |
| Line.PixelInFramebuffer | src/line.rs:86-102 | an on-screen pixel's byte is inside the framebuffer |
| Line.SampleOffsetBounds | src/line.rs:83-84 | each sample offset trunc(d·(2i+1)/(2·steps)) has magnitude at most \|d\| and the sign of d |
| Line.SampleOffsetDominant | src/line.rs:80-84 | along the longer axis sample i is offset by exactly ±i |
| Drafting.InitialConsistent | src/sky.rs:34-48 | a new sky has no draft shown and satisfies the state invariant |
| Drafting.FirstHitIsLowest | src/sky.rs:50-64 | the hit test returns the lowest index of a bright star within the ±3 box, and `None` exactly when there is none |
| Drafting.CursorShowsHit | src/sky.rs:74-93 | the cursor is shown exactly when a bright star is hit, then at the lowest such star's coordinates, and otherwise is (0, 0, hidden) |
| Drafting.LimitKeepsShortDraft | src/sky.rs:153-168 | clamping keeps the start and visibility, leaves an end within 35 pixels (dx²+dy² ≤ 35²) unchanged and otherwise places it at the shortened offset from the start star |
| Drafting.UnbrightenedSpec | src/sky.rs:179-181 | exactly the listed stars stop being bright; positions and all other stars are kept |
| Drafting.DimmedSpec | src/sky.rs:183-185 | exactly the listed links get the dim style; endpoints and all other links are kept |
| Drafting.LinkAddedStarCount | src/sky.rs:170-189 | adding a link never changes the number of stars |
| Drafting.LinkAddedBelowThreshold | src/sky.rs:170-176 | below the threshold exactly the bright link (start, end) is appended and the light drops by one (wrapping at 0); nothing else changes |
| Drafting.LinkAddedCompletes | src/sky.rs:176-188 | on completion the light changes by len − 5 modulo 256, the appended link joins start and end, no star moves, no earlier link changes endpoints, and the draft, cursor and button state are kept |
| Drafting.LinkAddedFrame | src/sky.rs:176-188 | un-brightening, dimming and `dim_lonely_stars` change only brightness and styles |
| Drafting.RefundWraps | src/sky.rs:173-177 | spending one unit and refunding len − 4, each with u8 wrap-around, nets len − 5 modulo 256 |
| Drafting.Tracked | src/sky.rs:192-199 | the first step of a tick changes only the draft line, keeping its start and visibility |
| Drafting.MouseStepKeepsConsistent | src/sky.rs:191-245 | a mouse step keeps the invariant (a shown draft starts at a star and is only shown while the button was held), remembers the button and keeps the star count and sections |
| Drafting.PressAnchors | src/sky.rs:208-214 | a press edge over a bright star shows a draft anchored at the lowest-index hit star, its end on that star; a press over no star leaves the draft hidden; links, stars and light are untouched |
| Drafting.ReleaseCommits | src/sky.rs:215-222 | a release edge over a bright star other than the draft's start performs `add_link` exactly once, appending the link (start, hit star), and hides the draft |
| Drafting.ReleaseLinksStaleStart | src/sky.rs:215-222 | the release branch does not check the draft's visibility, so a hidden draft's old start index is linked |
| Drafting.NoLinkWithoutRelease | src/sky.rs:207-222 | without such a release no link is added, no star changes and no light is spent |
| Drafting.SettleFacts | src/sky.rs:224-244 | at the end of a tick the button is remembered; with the button up the draft is hidden; with it held and a star hit the shown draft's end is that star's position |
| Drafting.TickCursor | src/sky.rs:247-259 | a tick changes nothing beyond the mouse step but the cursor; with the button up the cursor is the one for the pointer's world position |
| SkyNode.Sky.constructor | src/sky.rs:34-48 | the new sky holds the given stars, links and sections, with no draft, a hidden cursor, light 8 and the button up |
| SkyNode.Sky.GetBrightStarIdxAt | src/sky.rs:50-64 | returns the lowest-index bright star hit at (x, y) |
| SkyNode.Sky.GetEffectiveMousePos | src/sky.rs:66-72 | the draft end while the draft is shown, otherwise the pointer plus the focus |
| SkyNode.Sky.UpdateCursor | src/sky.rs:74-93 | only the cursor changes, to the cursor for the effective position |
| SkyNode.Sky.DraftLineLimitLen | src/sky.rs:153-168 | only the draft line changes, to its clamped form |
| SkyNode.Sky.UnbrightenStars | src/sky.rs:179-181 | only the stars change, the listed ones becoming dark |
| SkyNode.Sky.DimLinks | src/sky.rs:183-185 | only the links change, the listed ones becoming dim |
| SkyNode.Sky.CompleteConstellation | src/sky.rs:176-188 | refunds len − 4 (wrapping), un-brightens and dims the constellation, then applies `dim_lonely_stars` |
| SkyNode.Sky.AddLink | src/sky.rs:170-189 | the new state is the value-level `add_link` |
| SkyNode.Sky.UpdateMouseState | src/sky.rs:191-245 | the new state is the value-level mouse step |
| SkyNode.Sky.PreUpdate | src/sky.rs:247-259 | the new state is the value-level tick at the given focus, and the invariant is kept |
| InteractiveSkyNode.InteractiveSky.constructor | src/interactive_sky.rs:28-39 | the new interactive sky wraps a fresh sky of the given stars and links, with no draft, a hidden cursor, light 8 and the button up |
| InteractiveSkyNode.InteractiveSky.GetBrightStarIdxAt | src/interactive_sky.rs:41-55 | returns the lowest-index bright star of the embedded sky hit at (x, y) |
| InteractiveSkyNode.InteractiveSky.GetEffectiveMousePos | src/interactive_sky.rs:57-63 | the draft end while the draft is shown, otherwise the pointer plus the focus |
| InteractiveSkyNode.InteractiveSky.UpdateCursor | src/interactive_sky.rs:65-84 | only the cursor changes, shown exactly at the hit bright star, else (0, 0, hidden) |
| InteractiveSkyNode.InteractiveSky.DraftLineLimitLen | src/interactive_sky.rs:86-101 | only the draft line changes, to its clamped form |
| InteractiveSkyNode.InteractiveSky.UnbrightenStars | src/interactive_sky.rs:112-114 | only the embedded sky's stars change, the listed ones becoming dark |
| InteractiveSkyNode.InteractiveSky.DimLinks | src/interactive_sky.rs:116-118 | only the embedded sky's links change, the listed ones becoming dim |
| InteractiveSkyNode.InteractiveSky.CompleteConstellation | src/interactive_sky.rs:109-121 | refunds len − 4 (wrapping), un-brightens and dims the constellation, then applies `dim_lonely_stars` |
| InteractiveSkyNode.InteractiveSky.AddLink | src/interactive_sky.rs:103-122 | the new state is the value-level `add_link` over the embedded sky's stars and links |
| InteractiveSkyNode.InteractiveSky.UpdateMouseState | src/interactive_sky.rs:124-178 | the new state is the value-level mouse step |
| InteractiveSkyNode.InteractiveSky.PreUpdate | src/interactive_sky.rs:180-186 | the returned focus is exactly the focus given (no scrolling), the new state is the value-level tick, and the invariant is kept |

## Left out

- `update_focus` (`src/sky.rs:95-151`) is not modelled: it does floating-point scroll easing and viewport clamping. `SkyNode.Sky.PreUpdate` takes as a parameter the focus that `update_focus` would have produced.
- The scaling branch of `draft_line_limit_len` (`src/sky.rs:161-167`, `src/interactive_sky.rs:94-99`) uses `f32` `sqrt`. It is the `shorten` function of `Hooks`, so the results hold for any shortening. The guard, dx²+dy² > 35², is modelled exactly; it is equivalent to the `f32` comparison for integer coordinates.
- `get_constellation`, `dim_lonely_stars` and `CONSTELLATION_THRESHOLD` are imported from `src/util.rs` but are not defined in that file's revision, so they are not part of this model. They are fields of `Hooks`.
  - What the drafting proofs assume about them (`HooksFit`): the threshold is at least 4, so the refund `len − 4` does not underflow; the constellation's star and link indices are in range; `dim_lonely_stars` changes only star brightness and link styles.
- The `PRESET_LINE_CHANCE` comparison (`src/util.rs:245`) compares floating-point values. It is the `coin` predicate on the u32 draw.
- `Generation.GenerateSky`: the source loops until 350 stars are placed, and that loop has no termination argument. The model tries at most `attempts` candidate positions. It proves the invariants and the bound of at most 350 stars for whatever it has placed, but not that 350 stars are reached.
- The generator's return type differs between files. `src/util.rs:255` returns the node list, while `src/sky.rs:35` and `src/interactive_sky.rs:29` destructure a triple (sections, stars, links). The model follows `src/util.rs` for the generator, and both sky constructors take the sections, stars and links they are built from.
- `src/interactive_sky.rs:32` calls `Sky::new(stars, links)`, which does not match the `Sky::new(seed)` of `src/sky.rs`. The model builds the embedded sky with the same constructor over the given sections, stars and links.
- `Drafting.UnbrightenedUpTo` and `Drafting.DimmedUpTo` skip an out-of-range index, where the source would panic. Under `HooksFit` no index is out of range, so this case never arises in the classes.
- Light (`hud.light`, a `u8`) wraps modulo 256, as in a release build. A debug build would panic when light is spent at 0.
- Integer widths.
  - i16/i32 overflow is not modelled. `Line.DrawLine` requires coordinates and focus within ±4096 (`Drawable`), which rules out overflow in `dx·(2i+1)`. The hit test and pointer arithmetic use unbounded integers.
  - The generator's coordinates stay within the sky and a few pixels beyond, far inside i16.
  - The `as u16` casts of indices are not modelled.
- `render` methods, the palette, framebuffer clearing, `blit`/`draw_sub` calls, the HUD and cursor drawing, and `src/star.rs` rendering are not modelled: they are pixel output through foreign calls. `draw_line` is modelled.
- `src/lib.rs` is not part of this model. It holds the global allocator, the game instance, the panic hook and the wasm exports.
- The `skylite` node macros and `try_as_type` downcasting become the `Node` datatype. An `unwrap` that cannot fail becomes a precondition that the index names a star node.
