# Schulte table: a verified model of the puzzle session

A Schulte table is a grid of tiles labelled 1 to W×H in random order. The player
presses them in ascending order as fast as possible. The repository has three
versions of the same core:

- `src/main.rs` is a console version. It shuffles the labels and spawns one
  entity per label with its grid position. It then rebuilds the table from the
  entities and prints it.
- `src/lib.rs` is a first interactive Bevy version. The `NextExpected` and
  `Score` resources track progress. `button_click_handler` judges each press
  and checks for the end of the game after every press. `blink_system` restores
  a tile's default colour 0.2 s after it was pressed.
- `src/game.rs` is the second interactive version, a plugin. `game_setup` resets
  both counters on every entry and re-deals the grid. `game` checks for the end
  of the game once per frame, after all presses.

The model has six modules:

- `Wrappers` defines `Option`.
- `OneShot` models a Bevy once-mode `Timer` in integer nanoseconds.
- `Numbers` models collecting a label range and the in-place Fisher–Yates
  shuffle. It works on an `array`, and the random swap partner is left open.
- `Rules` is the session as values. It covers one press, a frame's presses, both
  completion checks, the blink feedback, and the `u8` counter as written.
- `Session` holds the Bevy world of both interactive versions as the class
  `World`. Its fields are the two counters and, per tile, a label, a colour and
  an optional blink timer. Each system is a method, proved against the functions and lemmas
  of `Rules`.
- `Table` is the console version. `setup` lays the labels out row-major.
  `print_table` fills an `array2` and renders it to a string.

## Model

| member | source | states |
|---|---|---|
| Numbers.CastU8 | src/game.rs:65 | `(WIDTH * HEIGHT) as u8` keeps the low eight bits: the result is below 256 and at most the product, and it equals the product when that is below 256 |
| Numbers.PermutationFacts | src/lib.rs:83-85 | a label vector that is a permutation of 1..=n has n entries, each in 1..=n, pairwise distinct, and every label occurs in it |
| Numbers.Swap | src/lib.rs:85 | one exchange inside the shuffle: exactly the two entries trade places, and the multiset is unchanged |
| Numbers.Shuffle | src/main.rs:28 | the Fisher–Yates shuffle permutes the vector in place for every sequence of swap partners |
| Numbers.Shuffled | src/main.rs:26-28 | collecting lo..hi and shuffling gives a permutation of lo..hi |
| Numbers.GridLabels | src/game.rs:65-67 | the labels of a w×h grid are a permutation of 1..=(w*h as u8); each is between 1 and w*h; there are exactly w*h of them when w*h < 256 |
| OneShot.Start | src/game.rs:153 | a new timer has the given duration and nothing elapsed |
| OneShot.Tick | src/game.rs:170-171 | ticking keeps the duration, never decreases the elapsed time or lets it pass the duration, and the timer is finished exactly when the old elapsed time plus delta reaches the duration |
| OneShot.TickAdditive | src/game.rs:170-171 | ticking a clamped timer by one frame's delta and then the next's is the same as ticking it once by their sum, so a blink depends only on the total time passed |
| Rules.Press | src/game.rs:143-154 | a press on the tile labelled NextExpected advances NextExpected and Score by one and turns that tile CORRECT; any other press leaves both counters and turns the tile INCORRECT; the tile gets a fresh 0.2 s blink timer either way; no other tile changes |
| Rules.Apply | src/game.rs:142-157 | a `Pressed` entry is exactly `Press` on its tile; any other interaction leaves the state unchanged |
| Rules.ApplyAll | src/game.rs:141-158 | over one frame's query entries, NextExpected never decreases, grows by at most one per press, and Score grows by exactly as much |
| Rules.ApplyAllConcat | src/game.rs:141 | handling two batches of entries one after the other is the same as handling them together |
| Rules.ApplyAllKeepsInvariant | src/game.rs:144-146 | presses keep Score + 1 == NextExpected <= W*H + 1 on a grid whose labels lie in 1..=W*H |
| Rules.NextMonotone | src/lib.rs:152-157 | NextExpected after a prefix of the entries is at most its value after any longer prefix |
| Rules.RequestsStartAtCompletingPress | src/lib.rs:169-172 | `Rules.RequestAt` is the per-press check at entry k; the check first requests GameOver at the press that takes NextExpected past W*H, which is a press of the tile labelled W*H; no earlier entry requests it; every later press requests it again |
| Rules.ExistsCompletingPress | src/lib.rs:152-172 | a frame that takes NextExpected from at most W*H to past W*H contains a press that does it |
| Rules.CompletionChecksAgree | src/game.rs:159-161 | the per-press check of the first version requests GameOver in a frame exactly when that frame has a press and NextExpected exceeds W*H after it; so on frames with a press the two checks coincide, while on a frame without a press only the once-per-frame check of the second version can fire |
| Rules.RequestMeansComplete | src/lib.rs:169-172 | a frame in which some press requests GameOver has a press, and NextExpected still exceeds W*H at the end of the frame |
| Rules.CompleteMeansRequest | src/game.rs:159-161 | a frame with a press that ends with NextExpected above W*H has some press at which the per-press check requests GameOver |
| Rules.InOrder | src/game.rs:144 | the presses of the tiles labelled 1, 2, ..., k, in that order, each on an existing tile |
| Rules.InOrderAdvances | src/game.rs:144-146 | from NextExpected 1, pressing the tiles labelled 1..k in order brings NextExpected to k + 1 |
| Rules.SessionCompletable | src/game.rs:159-161 | a fresh session on a grid that holds each of 1..=n once is completed by the n in-order presses and by no shorter prefix of them, and no frame of fewer than n entries completes it |
| Rules.TickBlinks | src/game.rs:169-175 | applies `Rules.TickTile` to each tile: every blinking tile's timer advances by delta; when it finishes, the tile returns to DEFAULT and loses its blink; otherwise the colour stays; tiles that are not blinking and both counters are unchanged |
| Rules.TickMany | src/game.rs:164-176 | frames without presses keep the counters and the labels |
| Rules.BlinkLifetime | src/lib.rs:184-191 | a blinking tile keeps its colour while less than the timer's remaining time passes, with the timer at exactly the elapsed sum; once the remaining time has passed, it is DEFAULT with no blink |
| Rules.IdleTileUnchanged | src/lib.rs:184-191 | a tile without a blink keeps its colour, and still has no blink, however many frames pass |
| Rules.PressFeedback | src/lib.rs:163-167 | after a press, the tile shows CORRECT or INCORRECT (by whether its label was expected) while less than TIMER_DURATION passes, then DEFAULT with no blink |
| Rules.PressU8 | src/game.rs:143-154 | the press as written, with `u8` counters: a correct press takes NextExpected and Score to their successors mod 256 and turns the tile CORRECT; an incorrect press leaves both counters and turns it INCORRECT; the tile gets a fresh timer and no other tile changes |
| Rules.ApplyAllU8 | src/game.rs:141-158 | a frame's entries with `u8` counters keep both counters below 256 and the labels unchanged |
| Rules.U8AgreesBelow255 | src/game.rs:144-146 | on a grid of at most 254 tiles the `u8` counters never wrap: a frame with them gives exactly the unbounded `ApplyAll` result, and Score + 1 == NextExpected <= W*H + 1 holds for the program as written |
| Rules.PressU8AgreesBelow255 | src/game.rs:144-146 | one press with the `u8` counters, on a grid of at most 254 tiles satisfying the session invariant, is exactly the unbounded press |
| Rules.U8CounterStuckAtZero | src/game.rs:144-161 | once the `u8` NextExpected is 0, no tile (all labelled at least 1) matches it, so it stays 0 through any later entries and the completion check never fires |
| Rules.U8CounterWrapsOnFullGrid | src/game.rs:145 | on a 255-tile grid the last correct press wraps the `u8` NextExpected to 0: the invariant breaks and no sequence of later entries ends the game, while the unbounded counter completes the session with that press |
| Session.World.constructor | src/lib.rs:69-70 | the resources start at NextExpected 1 and Score 0, with no tiles, and the session invariant holds |
| Session.World.SpawnTiles | src/lib.rs:113-140 | one tile per number, appended in order, each with the DEFAULT colour and no blink; the counters are unchanged |
| Session.World.Setup | src/lib.rs:78-143 | the added tiles carry a permutation of 1..=(W*H as u8), all DEFAULT and not blinking; earlier tiles and the counters are unchanged |
| Session.World.GameSetup | src/game.rs:56-132 | whatever the previous session left, NextExpected is 1 and Score is 0 again, and the restored invariant holds; a shuffled set of tiles is spawned as in `setup` |
| Session.World.PressTile | src/game.rs:143-154 | the `Pressed` arm updates the world exactly as `Rules.Press` says and keeps the invariant |
| Session.World.Game | src/game.rs:134-162 | after the frame the world is `ApplyAll` of the entries and the invariant holds; GameOver is requested exactly when NextExpected exceeds W*H |
| Session.World.ButtonClickHandler | src/lib.rs:145-177 | after the frame the world is `ApplyAll` of the entries; GameOver is requested exactly when some press of the frame leaves NextExpected above W*H |
| Session.World.BlinkSystem | src/game.rs:164-176 | the world after the system is `TickBlinks` of the world before it |
| Table.ChunksFlatten | src/main.rs:29 | `Table.Chunks`, the model of `slice::chunks`, loses, adds and reorders nothing when it cuts the labels into rows |
| Table.ChunksOfGrid | src/main.rs:29 | w*h labels cut into rows of w give h rows of w, with cell (x, y) holding flat label y*w + x (that index lies in the vector by `Table.IndexInGrid`) |
| Table.Setup | src/main.rs:25-36 | w*h tiles whose labels are a permutation of 1..=w*h, tile k at column k % w of row k / w; every position is in the grid, no two tiles share one, and every cell has a tile |
| Table.SpawnedLayout | src/main.rs:31-35 | tiles spawned from the shuffled labels, tile k at the position of flat index k, carry those labels, at column k % w of row k / w, inside the grid, on distinct cells that cover it |
| Table.LayoutFacts | src/main.rs:31-35 | the row-major positions of the first w*h flat indices cover the w×h grid, each cell exactly once |
| Table.CellOfUniqueTile | src/main.rs:40-42 | `Table.Cell` is the last label written at a position, or the filler 1; when no two tiles share a position, the cell at a tile's position holds that tile's label |
| Table.GridOfLayout | src/main.rs:38-42 | `Table.Grid` is the HEIGHT×WIDTH table of `Table.Cell`s; on the layout `setup` spawns, each tile's label lands at its position, the filled table equals the rows `setup` cut, and reading it row by row gives the labels back |
| Table.DecimalRoundTrip | src/main.rs:46 | the decimal digits of a label read back as the label |
| Table.FieldRoundTrip | src/main.rs:46 | `Table.Field`, the model of `{:>2} `, gives at least three characters ending in a space, exactly three for labels below 100, and the field reads back as the label |
| Table.RenderConcat | src/main.rs:44-50 | output is row-ordered: the output of a table is the output of its first rows followed by that of the rest |
| Table.RenderLines | src/main.rs:44-50 | the output has one newline per row; when every row has w labels below 100, its length is rows × (3w + 1) |
| Table.CellBound | src/main.rs:39-42 | a table cell holds a tile's label or the filler 1, so a bound on the labels bounds every cell |
| Table.PrintedLayout | src/main.rs:21 | after `setup`, `print_table` prints the shuffled labels in rows of w: h lines; when w*h < 100 every row's fields are 3w characters before its newline (h·(3w + 1) in all); every field reads back as its label |
| Table.PrintTable | src/main.rs:38-51 | the printed string is the rendering of the table filled with 1 and then overwritten with each tile's label at its position |
| Table.PrintRows | src/main.rs:44-50 | the nested printing loops produce exactly the rendering of the table's rows |
| Table.PrintRow | src/main.rs:45-48 | the inner loop produces exactly the fields of one row, left to right |

## Left out

- Rendering is not modelled: the Bevy UI and its node hierarchy, styles, fonts,
  the window, the camera and the clear colour. Colours are reduced to the three
  values DEFAULT, CORRECT and INCORRECT.
- App and plugin wiring are not modelled: `main`, `run_game`, `game_plugin`, the
  system schedules and the run conditions. The source does not order the press
  system and `blink_system` within a frame (src/game.rs:27, src/lib.rs:72-73), so
  the order of the calls is left to the caller of the methods.
- Other screens are not modelled: the splash and game-over screens,
  `despawn_screen` and the `GameState`/`AppState` machine. A GameOver request is
  the method's boolean result. `NextState::set` is not modelled further.
- Randomness: `thread_rng` is not modelled. The shuffle may pick any swap partner
  within its range, so each property holds for every possible shuffle.
- Time: `Res<Time>` becomes the frame's delta in whole nanoseconds, passed as a
  parameter. Floating-point seconds and `Duration` rounding are not modelled.
- Deferred commands take effect at once: inserting or removing `TileBlink` sets
  or clears the tile's blink at once. In Bevy, a timer inserted by a press is
  only ticked from the next command flush onwards. A second consequence is also
  lost. Suppose a tile is pressed in the same frame in which its old blink
  finishes. `blink_system` then queues a removal (src/game.rs:173) and the press
  system queues an insertion (src/game.rs:152), and the two systems are not
  ordered. If the removal is applied last, it deletes the fresh blink, and the
  tile keeps CORRECT or INCORRECT with no timer to restore DEFAULT.
- The query: `Changed<Interaction>` filtering and the query's iteration order are
  not modelled. A frame is an arbitrary sequence of (tile, interaction) entries
  on existing tiles.
- Entities: tiles are numbered by spawn order. `SpawnTiles` appends to the
  vectors. Despawning on leaving the game state is not modelled, so `GameSetup`
  is stated for whatever tiles are already present.
- Console output: the text `print!` and `println!` would write is returned as a
  string, not written to standard output.
- Table.Setup: requires w >= 1, because `chunks(0)` panics. It also requires
  w*h + 1 <= 255: above that, the `u8` constant `WIDTH*HEIGHT+1` of the console
  version overflows, and the source does not compile.
- Table.PrintedLayout: takes the tiles in spawn order. `print_table`'s query
  may visit them in any order. Since no two tiles share a position, the filled
  table does not depend on that order, but the lemma does not state this for
  other orders. `Table.PrintTable` itself accepts the tiles in any order.
- Table.PrintTable: requires every position to be inside the table, because
  the source would panic on an out-of-bounds index. The spawned layout always
  meets this.
- Rules.Press: the counters are unbounded naturals. The `u8` counters as
  written are modelled by `Rules.PressU8` and `Rules.ApplyAllU8`. They agree
  with the unbounded ones exactly on grids of up to 254 tiles
  (`Rules.U8AgreesBelow255`). On 255 tiles they wrap (see Findings). A debug
  build would panic instead, and that is not modelled.
- Session.World.ButtonClickHandler: the first version runs its handler in
  every frame, even after GameOver was requested. The method models one frame
  and leaves it to the caller whether it runs after GameOver.
- Scoring: the code counts correct presses in `Score`. It has no elapsed-time
  or penalty score and does not persist scores, so none of those are modelled.

## Findings

| source | as written | input that shows it | evidently intended | confidence | as-written member | corrected member |
|---|---|---|---|---|---|---|
| src/game.rs:145 | `NextExpected` is a `u8`, and the correct press of label 255 increments it to 256, which wraps to 0 (a debug build panics instead). The check `next_expected > WIDTH * HEIGHT` then never fires. The same line is in src/lib.rs:156. | WIDTH * HEIGHT = 255 (for example a 15 × 17 grid), with the tiles pressed in order 1..255 | the counter can hold W*H + 1, so pressing the last label ends the game | low; not executed | Rules.U8CounterWrapsOnFullGrid | Rules.SessionCompletable |
