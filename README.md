# Portfolio game and widgets, modelled in Dafny

This project models the parts of a React portfolio site that have definite rules:

- **The snake game on the "page not found" view** (`NotFound`). The snake wraps around a grid of `floor(width/20)` × `floor(height/20)` cells. It ends the game when its new head meets any segment, including the tail. It grows and scores 10 when it eats. Arrow keys turn it, with a rule against reversing, and they also start the game; a click on the canvas starts or restarts it. The best score is kept.
- **The custom cursor** (`CustomCursor`). It holds its position, a hover flag, a click flag and a visibility flag, plus a trail of the last eight pointer positions. A periodic prune filters the trail.
- **The visitor counter** (`VisitorCounter`). This is the transaction updater `(v || 0) + 1`, and the six-digit zero-padded display rendered one element per digit.
- **The projects section** (`Projects`). A category filter runs over a fixed project list, and `"all"` shows everything.

`Sequences` holds what these share: the array `filter`, order-preserving subsequences and duplicate-free sequences.

The game component keeps two kinds of state. `score`, `highScore`, `gameStarted` and `gameOver` are component state. `snake`, `food` and `direction` are variables local to an effect that React re-creates whenever `gameStarted` or `gameOver` changes. The model gives each handler a pure function over a `GameState` snapshot (`Updated`, `KeyHandled`, `ClickHandled`). It models the effect re-creation as `Rerun`, and one event as the handler followed by `Rerun` (`Step`). The class `SnakeGame` does the same steps in place, and each of its methods is proved equal to the corresponding function.

The reachable states satisfy `Consistent`. In them:
- the two flags are never both set;
- the snake is non-empty and has no repeated cell;
- the direction is either still or a unit vector;
- `0 <= score <= highScore` and the score is a multiple of 10;
- while running, the snake's length is `score / 10 + 1`.

`Run` carries this invariant over any sequence of events, together with a best score that never decreases.

Behaviour of the code worth knowing, each stated as the code does it:
- **Collision includes the tail.** The new head is checked against every segment, tail included, even on a tick where the tail moves away (src/components/pages/NotFound.jsx:87).
- **A start key loses its direction.** The arrow that starts the game sets `direction`, but the effect re-run resets it to `(0, 0)`. On a canvas of at least 220 pixels each way, the next tick then has the head meet itself and ends the game, unless another arrow arrives first (`StartKeyThenTickEndsGame`). On a smaller canvas the wrap moves the off-grid start cell onto the grid instead. The on-screen hints "Press Arrow Keys to Start" and "Use Arrow Keys to Move" (src/components/pages/NotFound.jsx:194) suggest the starting arrow was meant to move the snake.
- **The game-over screen shows the start snake.** `update` leaves the snake, food and score as they were. The re-run that follows the flag change then shows the initial snake and food (`CollisionThenRerun`).
- **Food is placed without looking at the snake.** Its coordinates are drawn over `width/20` without flooring, so on a canvas that is not a multiple of 20 pixels it can land one column or row outside the grid. There it is never eaten (`FoodCanLandOffGrid`, `OffGridFoodIsNeverEaten`).
- **The start cell can be off the grid.** The grid is `floor(width/20)` × `floor(height/20)` cells, so on a canvas under 220 pixels the start cell `(10, 10)` lies outside it (`StartCellOnGrid`).
- **A click starts the game from idle** as well as restarting it after a game over (src/components/pages/NotFound.jsx:180-188).
- **A key takes effect at once.** It changes `direction` immediately, so two turns between ticks can reverse the snake (`TwoTurnsReverse`).

## Model

| member | source | states |
|---|---|---|
| `NotFound.Initial` | src/components/pages/NotFound.jsx:7-22 | the state on mount is idle, with score 0, the stored best score, snake `[(10,10)]`, food `(15,15)`, direction `(0,0)`, and it satisfies the invariant |
| `NotFound.Wrap` | src/components/pages/NotFound.jsx:78-84 | on a grid at least one cell wide the wrapped coordinate lies in `[0, n)`; for a step of at most one cell it equals the toroidal position `v mod n` |
| `NotFound.NextHead` | src/components/pages/NotFound.jsx:75-84 | the new head is on the grid whenever the grid has at least one cell; from a cell on the grid, with a unit or zero direction, it is the neighbouring cell modulo the grid size |
| `NotFound.FoodAxis` | src/components/pages/NotFound.jsx:105-106 | a relocated food coordinate lies in `[0, floor(size/20)]`, and strictly below `size/20` when the size is a positive multiple of 20 |
| `NotFound.PlaceFood` | src/components/pages/NotFound.jsx:104-107 | the relocated food cell lies within one column and one row past the grid |
| `NotFound.Updated` | src/components/pages/NotFound.jsx:72-117 | a tick does nothing unless running; if the new head meets any segment, tail included, the game ends with direction `(0,0)` and snake, food and score unchanged; eating prepends the head, adds one segment and exactly 10 points, relocates the food, and sets the best to the new score if it is higher; any other move prepends the head and drops the tail, so the length holds; the best score never falls and changes only to a new score above it |
| `NotFound.KeyHandled` | src/components/pages/NotFound.jsx:131-145 | a non-arrow key changes nothing; an arrow while not started sets running with score 0 and snake `[(10,10)]`; while started, snake, score and flags are unchanged; an arrow opposite to the current direction leaves it unchanged, and any other arrow replaces a unit or zero direction with its own vector |
| `NotFound.ClickHandled` | src/components/pages/NotFound.jsx:180-188 | a click after a game over restarts with score 0; a click when idle starts the game without touching the score; a click while running changes nothing; snake, food, direction and best score are untouched |
| `NotFound.Rerun` | src/components/pages/NotFound.jsx:164 | when the flags differ from those the effect was created with, snake, food and direction return to `[(10,10)]`, `(15,15)`, `(0,0)`; otherwise nothing changes; score, best score and flags are always kept |
| `NotFound.Step` | src/components/pages/NotFound.jsx:147-164 | one event (timer tick, key or click, each followed by the effect re-run) never lowers the best score |
| `NotFound.StepPreservesConsistent` | src/components/pages/NotFound.jsx:72-145 | every event keeps the invariant: flags exclusive, a non-empty duplicate-free snake, a unit or zero direction, `0 <= score <= best` in steps of 10, and running length `score/10 + 1` |
| `NotFound.Run` | src/components/pages/NotFound.jsx:150-157 | after any sequence of events from a consistent state the state is still consistent, and the best score has not decreased |
| `NotFound.UpdatedStaysOnBoard` | src/components/pages/NotFound.jsx:75-110 | on a grid at least one cell across, a tick keeps every segment on the grid apart from the fixed start cell |
| `NotFound.StepPreservesOnBoard` | src/components/pages/NotFound.jsx:75-145 | the same for every kind of event |
| `NotFound.RunStaysOnBoard` | src/components/pages/NotFound.jsx:75-92 | the same after any sequence of events |
| `NotFound.StartCellOnGrid` | src/components/pages/NotFound.jsx:78-79 | the start cell `(10,10)` is on the grid exactly when both canvas sides are at least 220 pixels |
| `NotFound.StillSnakeCollides` | src/components/pages/NotFound.jsx:75-90 | a running tick with direction `(0,0)` and the head on the grid always ends the game |
| `NotFound.RightEdgeWraps` | src/components/pages/NotFound.jsx:81-84 | stepping right from the last column gives column 0 on the same row |
| `NotFound.OffGridFoodIsNeverEaten` | src/components/pages/NotFound.jsx:95-107 | food off the grid is never eaten: the tick leaves the score and the food as they were |
| `NotFound.FoodCanLandOffGrid` | src/components/pages/NotFound.jsx:104-107 | on a 390-pixel canvas (19 columns) a draw of 0.99 puts the food in column 19, off the grid |
| `NotFound.StartKeyThenTickEndsGame` | src/components/pages/NotFound.jsx:131-164 | an arrow when not started gives a running game with score 0, snake `[(10,10)]` and direction `(0,0)`; on a canvas of at least 220 pixels the next tick ends the game |
| `NotFound.TurnThenTick` | src/components/pages/NotFound.jsx:139-144 | while running, a non-reversing arrow takes effect, and the next head is one cell that way, modulo the grid |
| `NotFound.TwoTurnsReverse` | src/components/pages/NotFound.jsx:140-143 | moving right, Up then Left before a tick leaves the snake heading left, the reverse of its direction |
| `NotFound.ClickRestarts` | src/components/pages/NotFound.jsx:180-184 | a click after a game over restarts with score 0, the initial snake, food and direction, and the best score kept |
| `NotFound.CollisionThenRerun` | src/components/pages/NotFound.jsx:87-90 | after a collision the game is over with score and best score unchanged, and the re-run shows the initial snake and food |
| `NotFound.SnakeGame.constructor` | src/components/pages/NotFound.jsx:7-22 | the mounted component holds the initial state for its canvas size and stored best score |
| `NotFound.SnakeGame.Update` | src/components/pages/NotFound.jsx:72-111 | updating in place gives `Updated` of the old state, with the food drawn from the two random draws |
| `NotFound.SnakeGame.HandleGameOver` | src/components/pages/NotFound.jsx:113-117 | sets `gameOver`, clears `gameStarted` and resets the direction, changing nothing else |
| `NotFound.SnakeGame.HandleKey` | src/components/pages/NotFound.jsx:131-145 | updating in place gives `KeyHandled` of the old state |
| `NotFound.SnakeGame.HandleClick` | src/components/pages/NotFound.jsx:180-188 | updating in place gives `ClickHandled` of the old state |
| `NotFound.SnakeGame.RerunEffect` | src/components/pages/NotFound.jsx:16-22 | updating in place gives `Rerun` for the flags the effect was created with |
| `NotFound.SnakeGame.Tick` | src/components/pages/NotFound.jsx:150-157 | a timer tick gives the `Step` of a timer event and keeps the invariant |
| `NotFound.SnakeGame.Key` | src/components/pages/NotFound.jsx:131-147 | a key press gives the `Step` of a key event and keeps the invariant |
| `NotFound.SnakeGame.Click` | src/components/pages/NotFound.jsx:177-189 | a click gives the `Step` of a click event and keeps the invariant |
| `CustomCursor.Appended` | src/components/ui/CustomCursor.jsx:16-20 | the new point is always last; a trail of at most 8 stays at most 8; below 8 nothing is dropped (`prev + [p]`); at 8 exactly the oldest is dropped (`prev[1..] + [p]`) |
| `CustomCursor.TrailKeepsNewest` | src/components/ui/CustomCursor.jsx:11-22 | after any sequence of moves the trail is exactly the newest eight points seen |
| `CustomCursor.PruneAsWrittenEmpties` | src/components/ui/CustomCursor.jsx:56-61 | the prune as written, whose age test subtracts a string id and is always false, empties the trail |
| `CustomCursor.Cursor.constructor` | src/components/ui/CustomCursor.jsx:5-9 | the cursor starts at `(0,0)` with every flag false and an empty trail |
| `CustomCursor.Cursor.MouseMove` | src/components/ui/CustomCursor.jsx:11-22 | a move sets the position to the pointer coordinates, makes the cursor visible and updates the trail by `Appended`, keeping it at most 8 long |
| `CustomCursor.Cursor.MouseDown` | src/components/ui/CustomCursor.jsx:24 | sets `isClicking`, nothing else |
| `CustomCursor.Cursor.MouseUp` | src/components/ui/CustomCursor.jsx:25 | clears `isClicking`, nothing else |
| `CustomCursor.Cursor.MouseLeave` | src/components/ui/CustomCursor.jsx:26 | clears `isVisible`, nothing else |
| `CustomCursor.Cursor.MouseEnter` | src/components/ui/CustomCursor.jsx:27 | sets `isVisible`, nothing else |
| `CustomCursor.Cursor.MouseOver` | src/components/ui/CustomCursor.jsx:37-41 | sets `isHovering` to whether the target is hoverable, nothing else |
| `CustomCursor.Cursor.Prune` | src/components/ui/CustomCursor.jsx:56-61 | the trail becomes the points passing the age test, in order, never longer than before |
| `CustomCursor.YoungAsWritten` | src/components/ui/CustomCursor.jsx:58 | the age test, with the id converted to `NaN`, a subtraction that propagates `NaN` and a comparison that is false on `NaN`, holds for no point |
| `Sequences.Filter` | src/components/sections/Projects.jsx:47 | the result is an order-preserving subsequence of the input, never longer, holding exactly the elements that pass the test, each as many times as in the input |
| `VisitorCounter.OrZero` | src/components/ui/VisitorCounter.jsx:36 | the count the listener shows (`data` or else 0) is the stored number itself for every number, 0 included, and 0 only for null |
| `VisitorCounter.Increment` | src/components/ui/VisitorCounter.jsx:24-26 | an absent, null or 0 value yields 1; any other number `n` yields `n + 1` |
| `VisitorCounter.IncrementAddsOneToShown` | src/components/ui/VisitorCounter.jsx:24-38 | the updated value, as the listener shows it, is exactly one more than the count shown before |
| `VisitorCounter.Decimal` | src/components/ui/VisitorCounter.jsx:46 | `toString` of a non-negative integer is a non-empty digit string, with no leading zero for a positive number |
| `VisitorCounter.NumberText` | src/components/ui/VisitorCounter.jsx:46 | `toString` of a non-negative integer is a digit string whose decimal value is the integer; of a negative one, a `-` followed by the digits of its magnitude |
| `VisitorCounter.PadStart` | src/components/ui/VisitorCounter.jsx:46 | padding gives length `max(len, length of s)` and only adds `'0'`s in front |
| `VisitorCounter.DisplayCount` | src/components/ui/VisitorCounter.jsx:46 | a falsy count displays as `"000000"`; otherwise the display has length `max(6, digits)`, is the number's text with zeros in front, and a count of 6 or more characters is shown unchanged |
| `VisitorCounter.DisplayRoundTrip` | src/components/ui/VisitorCounter.jsx:46 | reading the display of a non-negative count as a decimal number gives the count back |
| `VisitorCounter.DisplayStripsToDecimal` | src/components/ui/VisitorCounter.jsx:46 | stripping the leading zeros from the display of a positive count gives its decimal string |
| `VisitorCounter.SpansFrom` | src/components/ui/VisitorCounter.jsx:52-54 | one element per character, in order, keyed by position |
| `VisitorCounter.RenderDigits` | src/components/ui/VisitorCounter.jsx:52-54 | the counter renders one digit element per character of the display, at least six, in order, keyed by index |
| `Projects.FilteredProjects` | src/components/sections/Projects.jsx:45-47 | `"all"` returns the list unchanged; any other filter returns only projects of that category, returns every such project as many times as it occurs, keeps their order and is never longer than the list |
| `Projects.FiltersCoverProjects` | src/components/sections/Projects.jsx:13-47 | the first button is `"all"`; every listed project appears under some other button; a button other than `"all"` shows nothing only when no project has its category |
| `Projects.ListedData` | src/components/sections/Projects.jsx:13-43 | with the listed projects, `"ai"` yields none, `"web"` only project 1 and `"mobile"` only project 2 |

## Left out

- Canvas drawing (`draw`, `drawGrid`), colours and shadows are left out because they are rendering only.
- Timing is left out: the 100 ms `setInterval` cadence and the `requestAnimationFrame` loop, which is defined but never started. Ticks are explicit events.
- `resizeCanvas` and the window listeners are left out. The canvas size is a fixed non-negative parameter of the game. The browser's handling of a negative size, when the window is narrower than 40 pixels, is not modelled.
- React batching is left out, and so are events that arrive between a flag change and the effect re-run. Each event is followed at once by its re-run.
- The stale `highScore` captured by the effect is not modelled. `Updated` compares with the current best score. Within one game the two agree, because the score restarts from 0 at every start and only rises.
- `localStorage` is modelled only as the stored best score, a non-negative number given at mount. A missing entry reads as 0. Stored text that is not a number is not modelled; the code would compare against `NaN` and never update the best score. The write on a new best score is the update of `highScore`.
- JavaScript numbers are doubles; the model's integers are unbounded. Above 2^53 the `+ 1` of the visitor updater (src/components/ui/VisitorCounter.jsx:25) and the `+ 10` of the score (src/components/pages/NotFound.jsx:97) are no longer exact, and from 1e21 on `toString` (src/components/ui/VisitorCounter.jsx:46) gives exponent notation instead of `Decimal`'s digits. None of this is modelled.
- For `Math.random`, each random draw is a parameter in `[0, 1)`. Real arithmetic is exact, so floating-point rounding of `random * (size / 20)` is not modelled.
- `CustomCursor.YoungAsWritten`: JavaScript's conversion of strings to numbers is not modelled in general. The id `"<time>-<random>"` is taken to convert to `NaN` (the constant `IdAsNumber`). `Prune` takes any test.
- Pointer coordinates are integers. Fractional CSS pixel coordinates and the trail's opacity and scale arithmetic are not modelled.
- For the visitor counter, the Firebase `runTransaction`/`onValue` plumbing, the `sessionStorage` once-per-session check and the `loading` placeholder are left out because they are foreign calls and UI. Node values other than null or an integer are not modelled.
- Everything else in the repository is left out: 3D scenes, scroll animation, the loading screen, routing, the blog and admin pages, and the contact form. These are animation over floating-point maths, foreign calls into Firebase, or static markup.
