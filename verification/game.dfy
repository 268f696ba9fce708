/** The turn-taking state machine of the "follow me" memory game. The game
    alternates between a computer turn, in which a random sequence one entry
    longer than the last is played back, and a player turn, in which the
    player must press the buttons of that sequence in order. A wrong press
    ends the game and reports a score to the high-score store.

    The state is an immutable record; every entry point of the game is a
    pure transition. The background playback task is one atomic transition
    from the computer's turn to the player's turn, and its random draws are
    supplied by the caller. */
module Game {
  import Playback

  /** The three states the game can be in. */
  datatype GameState = GameOver | ComputerTurn | PlayerTurn

  /** The game's mutable fields as a value:
      - `state`: the current turn;
      - `clicks`: the sequence the computer played (the player's target);
      - `cursor`: how many entries of `clicks` the player has reproduced;
      - `clickable`: whether the four game buttons accept clicks;
      - `startEnabled`: whether the start button accepts clicks;
      - `pending`: the length handed to the most recently started playback
        task (the level being played). */
  datatype Game = Game(
    state: GameState,
    clicks: seq<int>,
    cursor: nat,
    clickable: bool,
    startEnabled: bool,
    pending: nat)

  datatype Option<T> = None | Some(value: T)

  /** The game after one event, with the score handed to the high-score
      check if the event ended the game. */
  datatype Transition = Transition(next: Game, score: Option<nat>)

  /** The game when the screen is first shown: no game running, empty
      sequence, game buttons not clickable, start button enabled. */
  const Initial: Game := Game(GameOver, [], 0, false, true, 0)

  /** Starts a computer turn: buttons off, and a playback is requested whose
      length is one more than the sequence just finished, which is cleared. */
  function DoComputerTurn(g: Game): (r: Game)
    ensures r.state == ComputerTurn && !r.clickable
    ensures r.clicks == [] && r.pending == |g.clicks| + 1
    ensures r.startEnabled == g.startEnabled && r.cursor == g.cursor
  {
    g.(state := ComputerTurn, clickable := false, clicks := [], pending := |g.clicks| + 1)
  }

  /** The start button's handler: disables the start button and begins a
      computer turn. */
  function StartGame(g: Game): (r: Game)
    ensures r.state == ComputerTurn && !r.clickable && !r.startEnabled
    ensures r.clicks == [] && r.pending == |g.clicks| + 1
  {
    DoComputerTurn(g.(startEnabled := false))
  }

  /** Ends the game: buttons off, the current sequence's length reported as
      the score, the sequence cleared and the start button enabled again. */
  function DoGameOver(g: Game): (t: Transition)
    ensures t.next.state == GameOver && !t.next.clickable && t.next.startEnabled
    ensures t.next.clicks == [] && t.score == Some(|g.clicks|)
  {
    Transition(g.(state := GameOver, clickable := false, clicks := [], startEnabled := true), Some(|g.clicks|))
  }

  /** During the player's turn the cursor designates an entry of the
      sequence; the button handler reads that entry. */
  predicate CursorInBounds(g: Game)
  {
    g.state == PlayerTurn ==> g.cursor < |g.clicks|
  }

  /** The handler of game button `button`. Outside the player's turn it does
      nothing. Otherwise the press is compared with the entry under the
      cursor: a match advances the cursor, and starts the next computer turn
      once the whole sequence is reproduced; a mismatch ends the game. */
  function ButtonClicked(g: Game, button: int): (t: Transition)
    requires CursorInBounds(g)
    ensures g.state != PlayerTurn ==> t.next == g && t.score == None
    ensures g.state == PlayerTurn && button == g.clicks[g.cursor] && g.cursor + 1 < |g.clicks| ==>
              t.next == g.(cursor := g.cursor + 1) && t.score == None
    ensures g.state == PlayerTurn && button == g.clicks[g.cursor] && g.cursor + 1 == |g.clicks| ==>
              t.next.state == ComputerTurn && !t.next.clickable && t.next.clicks == []
              && t.next.pending == |g.clicks| + 1 && t.next.startEnabled == g.startEnabled
              && t.score == None
    ensures g.state == PlayerTurn && button != g.clicks[g.cursor] ==>
              t.next.state == GameOver && !t.next.clickable && t.next.startEnabled
              && t.next.clicks == [] && t.score == Some(|g.clicks|)
  {
    if g.state != PlayerTurn then Transition(g, None)
    else if g.clicks[g.cursor] == button then
      var advanced := g.(cursor := g.cursor + 1);
      if |advanced.clicks| == advanced.cursor then Transition(DoComputerTurn(advanced), None)
      else Transition(advanced, None)
    else DoGameOver(g)
  }

  /** The playback task, run to completion: the indices its timeline records
      for the requested length are appended to the sequence, then the
      player's turn begins with the cursor at the first entry and the
      buttons clickable. */
  function FinishComputerTurn(g: Game, draws: seq<int>): (r: Game)
    requires g.state == ComputerTurn
    requires g.pending <= |draws|
    ensures r.state == PlayerTurn && r.cursor == 0 && r.clickable
    ensures r.clicks == g.clicks + draws[..g.pending]
    ensures r.startEnabled == g.startEnabled && r.pending == g.pending
  {
    var recorded := Playback.Recorded(Playback.Schedule(g.pending, draws));
    Playback.ScheduleContent(g.pending, draws);
    g.(clicks := g.clicks + recorded, cursor := 0, state := PlayerTurn, clickable := true)
  }

  /** The events the game reacts to. */
  datatype Event = StartPressed | ButtonPressed(button: int) | PlaybackDone(draws: seq<int>)

  /** Whether `e` can be handled in `g`: a press needs the cursor in bounds,
      and a playback can only finish during the computer's turn, with enough
      random draws, each a button index. */
  predicate CanStep(g: Game, e: Event)
  {
    match e
    case StartPressed => true
    case ButtonPressed(_) => CursorInBounds(g)
    case PlaybackDone(draws) => g.state == ComputerTurn && g.pending <= |draws| && Playback.AllButtons(draws)
  }

  /** One event. A disabled start button delivers no click. */
  function Step(g: Game, e: Event): Transition
    requires CanStep(g, e)
  {
    match e
    case StartPressed => Transition(if g.startEnabled then StartGame(g) else g, None)
    case ButtonPressed(b) => ButtonClicked(g, b)
    case PlaybackDone(draws) => Transition(FinishComputerTurn(g, draws), None)
  }

  /** Whether every event of `es`, in order, can be handled from `g`. */
  predicate Valid(g: Game, es: seq<Event>)
    decreases |es|
  {
    |es| == 0 || (CanStep(g, es[0]) && Valid(Step(g, es[0]).next, es[1..]))
  }

  /** The final game after a run of events and the scores reported on the
      way, in order. */
  datatype Trace = Trace(final: Game, scores: seq<nat>)

  function Run(g: Game, es: seq<Event>): Trace
    requires Valid(g, es)
    decreases |es|
  {
    if |es| == 0 then Trace(g, [])
    else
      var t := Step(g, es[0]);
      var rest := Run(t.next, es[1..]);
      Trace(rest.final, (if t.score.Some? then [t.score.value] else []) + rest.scores)
  }

  /** The player pressing the buttons `bs` in order. */
  function Presses(bs: seq<int>): (es: seq<Event>)
    ensures |es| == |bs|
    ensures forall i :: 0 <= i < |bs| ==> es[i] == ButtonPressed(bs[i])
  {
    seq(|bs|, i requires 0 <= i < |bs| => ButtonPressed(bs[i]))
  }

  /** What holds of every reachable game:
      - in the player's turn the cursor designates an entry of a non-empty
        sequence whose length is the level that was requested;
      - in the computer's turn the sequence has been cleared for a playback
        of length at least one;
      - when no game runs the sequence is empty;
      - game buttons are clickable exactly in the player's turn, and the
        start button is enabled exactly when no game runs;
      - every recorded entry is a button index. */
  predicate Inv(g: Game)
  {
    && (g.state == PlayerTurn ==> 1 <= |g.clicks| && g.cursor < |g.clicks| && |g.clicks| == g.pending)
    && (g.state == ComputerTurn ==> g.clicks == [] && g.pending >= 1)
    && (g.state == GameOver ==> g.clicks == [])
    && (g.clickable <==> g.state == PlayerTurn)
    && (g.startEnabled <==> g.state == GameOver)
    && Playback.AllButtons(g.clicks)
  }

  lemma InitialInv()
    ensures Inv(Initial)
  {
  }

  /** In a reachable game every button press can be handled: the entry read
      during the player's turn is never out of bounds. */
  lemma PressAlwaysHandled(g: Game, b: int)
    requires Inv(g)
    ensures CanStep(g, ButtonPressed(b))
  {
  }

  /** Every event keeps the invariant. */
  lemma StepPreservesInv(g: Game, e: Event)
    requires Inv(g) && CanStep(g, e)
    ensures Inv(Step(g, e).next)
  {
    if e.PlaybackDone? {
      assert Step(g, e).next.clicks == e.draws[..g.pending];
    }
  }

  /** Every run of events from a reachable game ends in a game that keeps
      the invariant. */
  lemma {:induction false} RunPreservesInv(g: Game, es: seq<Event>)
    requires Inv(g) && Valid(g, es)
    ensures Inv(Run(g, es).final)
    decreases |es|
  {
    if |es| > 0 {
      StepPreservesInv(g, es[0]);
      RunPreservesInv(Step(g, es[0]).next, es[1..]);
    }
  }

  /** Every game reached from the initial screen satisfies the invariant. */
  lemma ReachableInv(es: seq<Event>)
    requires Valid(Initial, es)
    ensures Inv(Run(Initial, es).final)
  {
    InitialInv();
    RunPreservesInv(Initial, es);
  }

  /** Start when no game runs begins level 1 with the start button disabled;
      at any other time the start button is disabled and nothing happens. */
  lemma StartBeginsAtLevelOne(g: Game)
    requires Inv(g)
    ensures g.state == GameOver ==>
              var r := Step(g, StartPressed).next;
              r.state == ComputerTurn && r.pending == 1 && r.clicks == []
              && !r.startEnabled && !r.clickable
    ensures g.state != GameOver ==> Step(g, StartPressed) == Transition(g, None)
  {
  }

  /** A press outside the player's turn changes nothing and reports no
      score. */
  lemma PressOutsidePlayerTurnIgnored(g: Game, b: int)
    requires g.state != PlayerTurn
    ensures CanStep(g, ButtonPressed(b))
    ensures Step(g, ButtonPressed(b)) == Transition(g, None)
  {
  }

  /** A press of something that is not a button index during the player's
      turn is a mismatch: the game ends and nothing breaks. */
  lemma OutOfRangePressEndsGame(g: Game, b: int)
    requires Inv(g) && g.state == PlayerTurn
    requires !Playback.IsButton(b)
    ensures Step(g, ButtonPressed(b)).next.state == GameOver
    ensures Step(g, ButtonPressed(b)).score == Some(|g.clicks|)
  {
    assert Playback.IsButton(g.clicks[g.cursor]);
  }

  /** Finishing the playback in a reachable computer turn begins the
      player's turn on a sequence of exactly the requested length, made of
      the first draws, with the cursor at its first entry. */
  lemma PlaybackStartsPlayerTurn(g: Game, draws: seq<int>)
    requires Inv(g) && CanStep(g, PlaybackDone(draws))
    ensures var r := Step(g, PlaybackDone(draws)).next;
            r.state == PlayerTurn && r.cursor == 0 && r.clickable && !r.startEnabled
            && r.clicks == draws[..g.pending] && |r.clicks| == g.pending >= 1
            && Inv(r)
  {
    StepPreservesInv(g, PlaybackDone(draws));
  }

  /** No single event skips a level: every computer turn that begins
      requests one entry more than the sequence that was running, which
      means level 1 when it begins a game. */
  lemma NoLevelSkipped(g: Game, e: Event)
    requires Inv(g) && CanStep(g, e)
    requires g.state != ComputerTurn && Step(g, e).next.state == ComputerTurn
    ensures Step(g, e).next.pending == |g.clicks| + 1
    ensures g.state == GameOver ==> Step(g, e).next.pending == 1
    ensures g.state == PlayerTurn ==> e.ButtonPressed? && e.button == g.clicks[g.cursor]
  {
  }

  /** Pressing the rest of the sequence correctly, from wherever the cursor
      stands, starts the next level: a computer turn whose playback is one
      entry longer, with no score reported. */
  lemma {:induction false} FullReplay(g: Game)
    requires Inv(g) && g.state == PlayerTurn
    ensures Valid(g, Presses(g.clicks[g.cursor..]))
    ensures var t := Run(g, Presses(g.clicks[g.cursor..]));
            t.final.state == ComputerTurn && t.final.pending == |g.clicks| + 1
            && !t.final.clickable && t.final.clicks == [] && t.scores == []
    decreases |g.clicks| - g.cursor
  {
    var es := Presses(g.clicks[g.cursor..]);
    var t := Step(g, es[0]);
    assert es[0] == ButtonPressed(g.clicks[g.cursor]);
    if g.cursor + 1 < |g.clicks| {
      assert t.next == g.(cursor := g.cursor + 1);
      assert es[1..] == Presses(g.clicks[g.cursor + 1..]);
      FullReplay(t.next);
    } else {
      assert es[1..] == [];
    }
  }

  /** Pressing the sequence correctly up to entry `k` and then pressing a
      different button ends the game, and the score reported is the length
      of the sequence the player failed on. */
  lemma {:induction false} WrongPressEndsGame(g: Game, k: nat, b: int)
    requires Inv(g) && g.state == PlayerTurn
    requires g.cursor <= k < |g.clicks| && b != g.clicks[k]
    ensures Valid(g, Presses(g.clicks[g.cursor..k] + [b]))
    ensures var t := Run(g, Presses(g.clicks[g.cursor..k] + [b]));
            t.final.state == GameOver && t.final.startEnabled && !t.final.clickable
            && t.final.clicks == [] && t.scores == [|g.clicks|]
    decreases k - g.cursor
  {
    var bs := g.clicks[g.cursor..k] + [b];
    var es := Presses(bs);
    var t := Step(g, es[0]);
    if g.cursor == k {
      assert es == [ButtonPressed(b)];
      assert es[1..] == [];
    } else {
      assert es[0] == ButtonPressed(g.clicks[g.cursor]);
      assert t.next == g.(cursor := g.cursor + 1);
      assert es[1..] == Presses(g.clicks[g.cursor + 1..k] + [b]);
      WrongPressEndsGame(t.next, k, b);
    }
  }

  /** Running `a` then `b` is running `a + b`: the scores of both parts are
      reported in order. */
  lemma {:induction false} RunAppend(g: Game, a: seq<Event>, b: seq<Event>)
    requires Valid(g, a) && Valid(Run(g, a).final, b)
    ensures Valid(g, a + b)
    ensures Run(g, a + b) == Trace(Run(Run(g, a).final, b).final, Run(g, a).scores + Run(Run(g, a).final, b).scores)
    decreases |a|
  {
    if |a| == 0 {
      assert a + b == b;
    } else {
      assert (a + b)[0] == a[0];
      assert (a + b)[1..] == a[1..] + b;
      RunAppend(Step(g, a[0]).next, a[1..], b);
    }
  }

  /** One cleared level: after the player reproduces the whole sequence and
      the next playback finishes, the player faces a sequence exactly one
      entry longer, made of the new draws, from its first entry. */
  lemma LevelAdvance(g: Game, draws: seq<int>)
    requires Inv(g) && g.state == PlayerTurn && g.cursor == 0
    requires |g.clicks| + 1 <= |draws| && Playback.AllButtons(draws)
    ensures Valid(g, Presses(g.clicks) + [PlaybackDone(draws)])
    ensures var t := Run(g, Presses(g.clicks) + [PlaybackDone(draws)]);
            t.final.state == PlayerTurn && t.final.cursor == 0
            && |t.final.clicks| == |g.clicks| + 1 && t.final.clicks == draws[..|g.clicks| + 1]
            && t.scores == []
  {
    assert g.clicks[g.cursor..] == g.clicks;
    FullReplay(g);
    var mid := Run(g, Presses(g.clicks)).final;
    var done := [PlaybackDone(draws)];
    assert done[1..] == [];
    assert Valid(mid, done);
    RunAppend(g, Presses(g.clicks), done);
  }

  /** A first level played from the initial screen: the playback draws 2,
      the player presses 2, and level 2 is requested. */
  lemma FirstLevelScenario()
    ensures Valid(Initial, [StartPressed, PlaybackDone([2]), ButtonPressed(2)])
    ensures var t := Run(Initial, [StartPressed, PlaybackDone([2]), ButtonPressed(2)]);
            t.final.state == ComputerTurn && t.final.pending == 2 && t.scores == []
  {
    var g1 := Step(Initial, StartPressed).next;
    assert g1.pending == 1;
    var g2 := Step(g1, PlaybackDone([2])).next;
    assert g2.clicks == [2];
    var es := [StartPressed, PlaybackDone([2]), ButtonPressed(2)];
    assert es[1..] == [PlaybackDone([2]), ButtonPressed(2)];
    assert es[1..][1..] == [ButtonPressed(2)];
    assert es[1..][1..][1..] == [];
  }

  /** A player on level 3 with sequence [1, 3, 0] who presses 1, 3, 2 loses
      on the third press; the score reported is 3, the length of the failed
      sequence, not the 2 levels cleared. */
  lemma ThirdLevelMistakeScenario()
    ensures var g := Game(PlayerTurn, [1, 3, 0], 0, true, false, 3);
            Valid(g, Presses([1, 3, 2]))
            && Run(g, Presses([1, 3, 2])).final.state == GameOver
            && Run(g, Presses([1, 3, 2])).scores == [3]
  {
    var g := Game(PlayerTurn, [1, 3, 0], 0, true, false, 3);
    assert g.clicks[0..2] + [2] == [1, 3, 2];
    WrongPressEndsGame(g, 2, 2);
  }
}
