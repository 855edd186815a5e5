# Draw-ball game: a verified model of its game state

The draw-ball game is a browser lottery: a board of 59 numbered balls, a
player tracker of six picks, a "Lucky Dip" button that fills the empty picks
at random, a "Start Game" button that draws six winning values and counts the
matches, a prize table, and a "Reset" button. All of its logic lives in
`src/scripts/app.ts`, next to the drawing code. This project models that game
state and its click handlers in Dafny and proves what they do.

- `slots.dfy` (module `Slots`): the six-slot trackers as sequences in which 0
  marks an empty slot, JavaScript's `indexOf` over them (`IndexOf`), the
  tracker invariants, the match count `Matches`, and lemmas about them. The
  lemmas cover the size of the intersection, the all-matched case, symmetry,
  and the existence of a value the random draw can still pick.
- `game.dfy` (module `Game`): the prize table `Payout`, `FillBallsTracker`,
  a `Button` class holding the `interactive` and `buttonMode` flags, and the
  class `GameState`. `GameState` holds the picked and winning trackers as
  six-element arrays, the number of winning balls on display (the length of
  `winningBallArray`) and the three buttons. Its methods are the source's
  handlers. The object invariant `Valid()` says:
  - no picked ball occurs twice, and each lies in 1..59;
  - either no winning ball is drawn and shown, or six distinct values in
    1..58 are drawn and six are shown;
  - each button's two flags agree;
  - the reset and lucky-dip buttons are on or off together.
- `scenarios.dfy` (module `Scenarios`): click sequences run from a fresh game.
  They show how the start-game button, which is flipped rather than set,
  follows the picks, and that a lucky-dip round returns to the start-up state.

Random numbers: `Math.floor(Math.random() * 58 + 1)` yields 1..58, so the
model draws each random value by a nondeterministic choice
`r :| 1 <= r <= 58 && r !in tracker`. This stands for the source's loop that
retries with `i--` until the value is new. `FreshValueExists` proves that such
a value always exists. Ball 59 can be picked by clicking but is never chosen
at random.

The model keeps these behaviours of the code, which differ from what a player
might expect of the game:
- values are drawn from 1..58, not 1..59;
- buttons are flipped, not set from the number of picks. Unpicking a ball of a
  full tracker leaves "Start Game" on (`Scenarios.UnpickAfterFull`). A click on
  a new ball, or a lucky dip, while the tracker is full switches it off again
  (`Scenarios.SeventhBallAfterFull`, `Scenarios.LuckyDipAfterFull`);
- a reset flips the reset and lucky-dip buttons, so two resets in a row do not
  leave the same button state as one;
- the match count counts winning slots whose value occurs among the picks. For
  trackers without repeats this equals the number of picks that were drawn
  (`Slots.MatchesSymmetric`).

## Model

| member | source | states |
|---|---|---|
| Slots.IndexOf | src/scripts/app.ts:95-96 | `indexOf` gives -1 exactly when the value is absent; otherwise the lowest index holding it |
| Slots.Matches | src/scripts/app.ts:228-234 | the match count never exceeds the number of winning slots (0..6 for the trackers) |
| Slots.FreshValueExists | src/scripts/app.ts:143-146 | a tracker shorter than the random range always leaves a value in 1..hi that it does not hold, so the retry loop has a value to accept |
| Slots.MatchesIsIntersection | src/scripts/app.ts:228-234 | for winning values without repeats, the match count is the size of the intersection of the two trackers' values |
| Slots.AllMatchedIff | src/scripts/app.ts:228-234 | the count equals the number of winning slots exactly when every winning value is among the picks |
| Slots.MatchesSymmetric | src/scripts/app.ts:228-234 | for two trackers without repeats, counting winning values among picks and picks among winning values agree |
| Game.Payout | src/scripts/app.ts:238-244 | the prize is the table entry for 3, 4, 5 or 6 matches (50, 100, 200, 500) and 0 for any other count |
| Game.PayoutPositiveIff | src/scripts/app.ts:238-250 | a prize (the "won" message) is given exactly for 3 to 6 matches |
| Game.PayoutMonotonic | src/scripts/app.ts:238-244 | within 0..6 matches, more matches never pay less |
| Game.FillBallsTracker | src/scripts/app.ts:60-66 | the result has `max` entries, all false |
| Game.Button.constructor | src/scripts/app.ts:222-223 | a new button has both flags off |
| Game.Button.ActivateDeactivate | src/scripts/app.ts:277-280 | both flags are negated, so flags that agreed still agree |
| Game.GameState.constructor | src/scripts/app.ts:42-52 | start-up state: 59 unpicked balls, both trackers empty, no winning ball shown, all three buttons off, the invariant holds |
| Game.GameState.Create | src/scripts/app.ts:305-306 | the reset and lucky-dip buttons are flipped (switched on at start-up) |
| Game.GameState.HandleBallClick | src/scripts/app.ts:94-118 | a picked ball's slot alone is emptied and the buttons are untouched; otherwise the ball fills the lowest empty slot, or nothing changes when none is empty, and start game flips exactly when no slot is left empty; picks stay distinct and in 1..59 |
| Game.GameState.RandomPick | src/scripts/app.ts:137-158 | afterwards no slot is empty, filled slots are kept, newly filled slots hold values in 1..58, all six values are distinct, start game is flipped |
| Game.GameState.RandomDraw | src/scripts/app.ts:160-189 | a full winning tracker is left as it is; otherwise all six slots get distinct values in 1..58 and six more winning balls are shown |
| Game.GameState.GetAmountNumberMatched | src/scripts/app.ts:228-234 | the loop's count is `Matches` of the two trackers |
| Game.GameState.Reset | src/scripts/app.ts:253-275 | every picked slot and every shown winning slot is emptied and the rest are kept, so both trackers end empty; nothing is shown; reset and lucky dip are flipped and start game is untouched |
| Game.GameState.StartGame | src/scripts/app.ts:282-287 | the draw as above, then the returned count is the match count, which is the size of the intersection and at most 6; all three buttons are flipped |
| Game.GameState.FinishRound | src/scripts/app.ts:288-291 | the prize for the passed count is returned, then the reset effect |
| Scenarios.NewGame | src/scripts/app.ts:295-306 | after loading, the trackers are empty, reset and lucky dip are on and start game is off |
| Scenarios.ClickIntoSlot | src/scripts/app.ts:104-117 | a click on an unpicked ball lands in the given lowest empty slot |
| Scenarios.PickOneToSix | src/scripts/app.ts:94-118 | clicking balls 1 to 6 fills the slots in order and switches start game on |
| Scenarios.UnpickAfterFull | src/scripts/app.ts:95-103 | unpicking from a full tracker returns before the flip: start game stays on with an empty slot |
| Scenarios.SeventhBallAfterFull | src/scripts/app.ts:104-117 | a new ball clicked on a full tracker changes no slot but switches start game off |
| Scenarios.LuckyDipAfterFull | src/scripts/app.ts:137-158 | a lucky dip on a full tracker changes no slot but switches start game off |
| Scenarios.LuckyDipRound | src/scripts/app.ts:282-291 | lucky dip, start game and end of round pay `Payout` of a count of at most 6 and return to the start-up state |

## Left out

- Rendering: the `Engine` class, PIXI shapes and texts, ball and button
  creation visuals, and redrawing a ball on pick, unpick or reset. These belong
  to a foreign rendering library.
- Layout: ball positions, radius arithmetic and button text scaling. These are
  presentation only and use floating point.
- The 1500 ms `setTimeout` and the `alert` messages. These are timing and I/O.
  The callback is the ordinary step `FinishRound`, which returns the prize
  instead of showing a message.
- `window.onload`, `load`, `render` and `requestAnimationFrame`. These are the
  host's event loop. `Scenarios.NewGame` stands for load followed by create.
- Delivery of clicks: the rendering library calls a button's handler only
  while its `interactive` flag is on. The model's handlers may be called in any
  order, and their contracts hold whatever the flags are.
- Uniformity of `Math.random`: each random value is a nondeterministic choice
  in 1..58. Because the model has no stream of random numbers, it does not
  show that `randomPick` also consumes one for each already filled slot.
- Termination of the `i--` retry loops: it holds only with probability 1. The
  model collapses each retry loop into one choice of a value not yet in the
  tracker.
- The contents of `ballsTracker`: only its length (59 balls) is used, to bound
  the ball index of a click.
