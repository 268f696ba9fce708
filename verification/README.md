# Follow-me memory game: the turn-taking core

This project models the core of the BrainRecall "follow me" game, a Simon
Says memory game for Android. The computer plays back a random sequence of
button presses. The player must press the same buttons in the same order.
Each cleared level makes the next sequence one entry longer. A wrong press
ends the game and reports a score to the high-score store.

Three modules:

- `Timing` holds the pacing policy. `ClickDelay` is the wait before each
  simulated press. `PressDuration` is how long a press stays down. Both are
  step functions of the level.
- `Playback` holds the background task of the computer's turn. The random
  generator is replaced by a caller-supplied list of draws, each in [0, 4).
  The task's work is a timeline of actions in the order the task performs
  them: `Wait(ms)`, `Record(i)` (append to the sequence) and `Toggle(i)`
  (publish to the display, which flips the pressed state of button `i`).
  `Run` is the task's loop. `Schedule` is its reference definition.
- `Game` holds the state machine. A `Game` value carries the state
  (GameOver, ComputerTurn, PlayerTurn), the recorded sequence, the cursor,
  the buttons-clickable and start-enabled flags, and the length requested
  from the playback task. Each handler is a pure function. The background
  task is one atomic step, `FinishComputerTurn`, from the computer's turn to
  the player's turn. `Step` and `Run` drive the game with a list of events.
  `Inv` is the invariant of every reachable game.

The score is modelled as the code computes it. `doGameOver` passes the
length of the sequence the player failed on. That is one more than the
number of levels cleared. So a player who clears levels 1 and 2 and then
misses on level 3 reports 3 (`ThirdLevelMistakeScenario`). A "levels
cleared" reading of the game would report 2.

## Model

| member | source | states |
|---|---|---|
| Game.StartGame | BrainRecall/src/com/ultraswift/brainrecall/FollowMeGameActivity.java:112-115 | Start disables the start button and begins a computer turn with the buttons off. The sequence is cleared and the requested length is the old length plus one. |
| Game.DoComputerTurn | BrainRecall/src/com/ultraswift/brainrecall/FollowMeGameActivity.java:170-183 | A computer turn sets the state to ComputerTurn and turns the buttons off. It requests a playback one entry longer than the sequence just finished, then clears that sequence. It leaves the start button and the cursor as they were. |
| Game.DoGameOver | BrainRecall/src/com/ultraswift/brainrecall/FollowMeGameActivity.java:188-200 | Game over turns the buttons off and enables start. The score handed to the high-score check is the sequence length before clearing. The sequence is then empty. |
| Game.ButtonClicked | BrainRecall/src/com/ultraswift/brainrecall/FollowMeGameActivity.java:149-164 | Outside the player's turn a press changes nothing and reports nothing. A match before the last entry advances the cursor by one and changes nothing else. A match on the last entry starts a computer turn for old length plus one, with the buttons off and no score. A mismatch ends the game with score equal to the sequence length. |
| Game.FinishComputerTurn | BrainRecall/src/com/ultraswift/brainrecall/FollowMeGameActivity.java:244-291 | Completing the playback appends exactly the first `pending` draws, the indices the task's timeline records. Then the player's turn begins with cursor 0 and clickable buttons. |
| Game.InitialInv | BrainRecall/src/com/ultraswift/brainrecall/FollowMeGameActivity.java:38-68 | The game as first shown (GameOver, empty sequence, buttons off, start enabled) satisfies the invariant. |
| Game.PressAlwaysHandled | BrainRecall/src/com/ultraswift/brainrecall/FollowMeGameActivity.java:155 | In every game satisfying the invariant, the sequence entry read under the cursor exists. |
| Game.StepPreservesInv | BrainRecall/src/com/ultraswift/brainrecall/FollowMeGameActivity.java:149-200 | Every event keeps the invariant. Player's turn means 0 <= cursor < length, length >= 1, and the length equals the requested level. Computer's turn means an empty sequence and a request of length >= 1. Game over means an empty sequence. Buttons are clickable exactly in the player's turn. Start is enabled exactly in game over. All entries are in [0, 4). |
| Game.RunPreservesInv | BrainRecall/src/com/ultraswift/brainrecall/FollowMeGameActivity.java:112-291 | Any run of events from a game satisfying the invariant ends in a game satisfying it. |
| Game.ReachableInv | BrainRecall/src/com/ultraswift/brainrecall/FollowMeGameActivity.java:38-46 | Every game reachable from the initial screen satisfies the invariant. In particular, in every reachable player's turn the sequence length is the level that was requested. |
| Game.StartBeginsAtLevelOne | BrainRecall/src/com/ultraswift/brainrecall/FollowMeGameActivity.java:112-115 | Start from game over requests level 1, disables start and leaves the buttons off. Start at any other time has no effect, because the start button is disabled then. |
| Game.PressOutsidePlayerTurnIgnored | BrainRecall/src/com/ultraswift/brainrecall/FollowMeGameActivity.java:151-153 | A press outside the player's turn leaves the whole game unchanged and reports no score. |
| Game.OutOfRangePressEndsGame | BrainRecall/src/com/ultraswift/brainrecall/FollowMeGameActivity.java:155-163 | A press that is not a button index, during the player's turn, is a mismatch: the game ends with score equal to the sequence length. |
| Game.PlaybackStartsPlayerTurn | BrainRecall/src/com/ultraswift/brainrecall/FollowMeGameActivity.java:286-291 | Completing the playback in a reachable game starts the player's turn. The sequence has exactly the requested length (at least 1) and equals the first draws. The cursor is 0 and the buttons are clickable. |
| Game.NoLevelSkipped | BrainRecall/src/com/ultraswift/brainrecall/FollowMeGameActivity.java:170-182 | Any event that begins a computer turn requests the old length plus one. From game over that is level 1. From the player's turn it is only a correct press. |
| Game.FullReplay | BrainRecall/src/com/ultraswift/brainrecall/FollowMeGameActivity.java:155-158 | Pressing the rest of the sequence correctly from any cursor position is always accepted. It ends in a computer turn requesting old length plus one, with the buttons off and no score reported. |
| Game.WrongPressEndsGame | BrainRecall/src/com/ultraswift/brainrecall/FollowMeGameActivity.java:155-163 | Correct presses up to entry k followed by a different button end the game. Exactly one score is reported, equal to the sequence length. |
| Game.LevelAdvance | BrainRecall/src/com/ultraswift/brainrecall/FollowMeGameActivity.java:170-183 | A cleared level followed by a finished playback leaves the player facing a sequence exactly one entry longer, made of the new draws, with cursor 0 and no score reported. |
| Game.FirstLevelScenario | BrainRecall/src/com/ultraswift/brainrecall/FollowMeGameActivity.java:112-158 | Start, playback of [2], press 2 leads to a computer turn for level 2. |
| Game.ThirdLevelMistakeScenario | BrainRecall/src/com/ultraswift/brainrecall/FollowMeGameActivity.java:188-196 | On sequence [1, 3, 0], pressing 1, 3, 2 ends the game with the single score 3. |
| Playback.Run | BrainRecall/src/com/ultraswift/brainrecall/FollowMeGameActivity.java:244-262 | The task's loop yields exactly `Schedule(n, draws)`. It records exactly the first `n` draws, all in [0, 4). It publishes each recorded entry twice in a row. Its waits total 1500 + n * (ClickDelay(n) + PressDuration(n)). |
| Playback.ScheduleContent | BrainRecall/src/com/ultraswift/brainrecall/FollowMeGameActivity.java:245-259 | A playback of length `n` records the first `n` draws in order. It publishes each of them twice in a row. It waits the 1500 ms lead-in plus one click delay and one press duration per entry. |
| Playback.RoundsContent | BrainRecall/src/com/ultraswift/brainrecall/FollowMeGameActivity.java:252-259 | The loop body over a list of draws records exactly that list, publishes the list doubled, and waits clickDelay + pressDuration per entry. |
| Playback.RoundContent | BrainRecall/src/com/ultraswift/brainrecall/FollowMeGameActivity.java:253-258 | One iteration records its index once, publishes it twice and waits one click delay plus one press duration. |
| Playback.Doubled | BrainRecall/src/com/ultraswift/brainrecall/FollowMeGameActivity.java:256-258 | The publication order is twice as long as the sequence, and entry i of it is sequence entry i / 2. |
| Playback.ToggleParity | BrainRecall/src/com/ultraswift/brainrecall/FollowMeGameActivity.java:271-277 | Each publication flips the pressed state of its button. After a list of publications, a button's state differs from before exactly when that button was published an odd number of times. |
| Playback.TogglePair | BrainRecall/src/com/ultraswift/brainrecall/FollowMeGameActivity.java:271-277 | Publishing the same index twice leaves every button's pressed state as it was. |
| Playback.PairsRestore | BrainRecall/src/com/ultraswift/brainrecall/FollowMeGameActivity.java:271-277 | After the whole playback, every button's pressed state equals its state before the playback. |
| Playback.ShownEntryOnly | BrainRecall/src/com/ultraswift/brainrecall/FollowMeGameActivity.java:271-277 | While an entry is shown, between its two publications, only that button's pressed state differs from before the playback. |
| Timing.ClickDelay | BrainRecall/src/com/ultraswift/brainrecall/FollowMeGameActivity.java:303-311 | The wait before each simulated press is 600 ms exactly at levels up to 4 and 400 ms exactly above. |
| Timing.PressDuration | BrainRecall/src/com/ultraswift/brainrecall/FollowMeGameActivity.java:319-327 | A simulated press stays down 500 ms exactly at levels up to 7 and 300 ms exactly above. |
| Timing.PaceNonIncreasing | BrainRecall/src/com/ultraswift/brainrecall/FollowMeGameActivity.java:303-327 | Neither delay grows with the level. |
| Timing.RoundLength | BrainRecall/src/com/ultraswift/brainrecall/FollowMeGameActivity.java:249-257 | One simulated press takes 1100 ms at levels 1 to 4, 900 ms at levels 5 to 7 and 700 ms from level 8 on. |

## Left out

- Android lifecycle and view wiring (`onCreate`, `findViewById`, level and status text, colours, `invalidate`) is not modelled. Only the clickable and start-enabled flags are kept. The start button is assumed enabled when the screen is first shown, because the layout is not part of this model.
- `button0Clicked` to `button3Clicked` only forward their index to `buttonClicked`. They are the `ButtonPressed(i)` event.
- `setState` and `setButtonsClickable` are folded into field updates of the game record.
- `saveHighScore` and `SavedData` (`isHighScore`, `getLastPlayer`, `saveScore`, the name dialog) are not modelled. `SavedData` is not part of this model. Only the score value handed to the high-score check is recorded, in `Transition.score` and `Trace.scores`.
- `AsyncTask` threading, `Thread.sleep` and the swallowed `InterruptedException` are not modelled. The playback is one atomic step, and delays are `Wait` actions carrying the milliseconds the policy returns.
- `java.util.Random` is replaced by a caller-supplied list of draws. Each draw must be in [0, 4), the range of `nextInt(4)`.
- The background thread's writes to the sequence interleaving with UI events are not modelled. The model is sequential. Line 151's state guard covers presses that arrive during playback.
- A playback task finishing outside the computer's turn is not modelled, because in the sequential model the task exists only after a computer turn has begun.
- Game.ButtonClicked: requires the cursor to be in bounds during the player's turn. The Java code would throw an index exception otherwise. `Game.PressAlwaysHandled` shows that the invariant guarantees it.
- The level and cursor are unbounded integers. Java's 32-bit `int` could only wrap after about two billion levels.
