/** The computer's turn: the background task that draws `n` random button
    indices, records each one and shows it by pressing and releasing the
    button on screen. The random generator is replaced by a supplied list of
    draws, and every wait and every screen update becomes an `Action` in a
    timeline, in the order the task performs them. */
module Playback {
  import Timing

  /** Number of game buttons on screen. */
  const ButtonCount: int := 4

  /** Lead-in wait before the first simulated press, in milliseconds. */
  const LeadIn: int := 1500

  predicate IsButton(b: int)
  {
    0 <= b < ButtonCount
  }

  predicate AllButtons(s: seq<int>)
  {
    forall i :: 0 <= i < |s| ==> IsButton(s[i])
  }

  /** One observable step of the playback task: a timed wait, appending a
      drawn index to the recorded sequence, or publishing an index to the
      display (which flips that button's pressed state). */
  datatype Action = Wait(millis: int) | Record(button: int) | Toggle(button: int)

  /** What the task does for one drawn index `b`. */
  function Round(b: int, clickDelay: int, pressDuration: int): seq<Action>
  {
    [Wait(clickDelay), Record(b), Toggle(b), Wait(pressDuration), Toggle(b)]
  }

  /** The rounds for the drawn indices `s`, in drawing order. */
  function Rounds(s: seq<int>, clickDelay: int, pressDuration: int): seq<Action>
  {
    if |s| == 0 then []
    else Rounds(s[..|s| - 1], clickDelay, pressDuration) + Round(s[|s| - 1], clickDelay, pressDuration)
  }

  /** The complete timeline of one playback of length `n`: the lead-in, then
      one round per draw, paced for level `n`. */
  function Schedule(n: nat, draws: seq<int>): seq<Action>
    requires n <= |draws|
  {
    [Wait(LeadIn)] + Rounds(draws[..n], Timing.ClickDelay(n), Timing.PressDuration(n))
  }

  /** The indices a timeline appends to the recorded sequence. */
  function Recorded(t: seq<Action>): seq<int>
  {
    if |t| == 0 then []
    else (if t[0].Record? then [t[0].button] else []) + Recorded(t[1..])
  }

  /** The indices a timeline publishes to the display. */
  function Toggles(t: seq<Action>): seq<int>
  {
    if |t| == 0 then []
    else (if t[0].Toggle? then [t[0].button] else []) + Toggles(t[1..])
  }

  /** Total time a timeline spends waiting. */
  function WaitTotal(t: seq<Action>): int
  {
    if |t| == 0 then 0
    else (if t[0].Wait? then t[0].millis else 0) + WaitTotal(t[1..])
  }

  /** Every entry of `s` twice in a row: entry `i` of the result is entry
      `i / 2` of `s`. */
  function Doubled(s: seq<int>): (r: seq<int>)
    ensures |r| == 2 * |s|
    ensures forall i :: 0 <= i < |r| ==> r[i] == s[i / 2]
  {
    if |s| == 0 then []
    else
      var prefix := s[..|s| - 1];
      var d := Doubled(prefix);
      assert forall i :: 0 <= i < |d| ==> d[i] == s[i / 2];
      d + [s[|s| - 1], s[|s| - 1]]
  }

  lemma {:induction false} RecordedAppend(a: seq<Action>, b: seq<Action>)
    ensures Recorded(a + b) == Recorded(a) + Recorded(b)
  {
    if |a| == 0 {
      assert a + b == b;
    } else {
      assert (a + b)[0] == a[0];
      assert (a + b)[1..] == a[1..] + b;
      RecordedAppend(a[1..], b);
    }
  }

  lemma {:induction false} TogglesAppend(a: seq<Action>, b: seq<Action>)
    ensures Toggles(a + b) == Toggles(a) + Toggles(b)
  {
    if |a| == 0 {
      assert a + b == b;
    } else {
      assert (a + b)[0] == a[0];
      assert (a + b)[1..] == a[1..] + b;
      TogglesAppend(a[1..], b);
    }
  }

  lemma {:induction false} WaitTotalAppend(a: seq<Action>, b: seq<Action>)
    ensures WaitTotal(a + b) == WaitTotal(a) + WaitTotal(b)
  {
    if |a| == 0 {
      assert a + b == b;
    } else {
      assert (a + b)[0] == a[0];
      assert (a + b)[1..] == a[1..] + b;
      WaitTotalAppend(a[1..], b);
    }
  }

  /** One round records its index once, publishes it twice and waits one
      click delay and one press duration. */
  lemma RoundContent(b: int, clickDelay: int, pressDuration: int)
    ensures Recorded(Round(b, clickDelay, pressDuration)) == [b]
    ensures Toggles(Round(b, clickDelay, pressDuration)) == [b, b]
    ensures WaitTotal(Round(b, clickDelay, pressDuration)) == clickDelay + pressDuration
  {
    var r := Round(b, clickDelay, pressDuration);
    assert r[1..][1..][1..][1..][1..] == [];
    assert Recorded(r[1..][1..][1..][1..]) == [];
    assert Recorded(r[1..][1..]) == [];
    assert Toggles(r[1..][1..][1..][1..]) == [b];
    assert Toggles(r[1..][1..]) == [b, b];
    assert WaitTotal(r[1..][1..][1..][1..]) == 0;
    assert WaitTotal(r[1..][1..][1..]) == pressDuration;
    assert WaitTotal(r[1..]) == pressDuration;
  }

  /** The rounds for `s` record exactly `s`, publish every entry twice in a
      row, and wait `clickDelay + pressDuration` per entry. */
  lemma {:induction false} RoundsContent(s: seq<int>, clickDelay: int, pressDuration: int)
    ensures Recorded(Rounds(s, clickDelay, pressDuration)) == s
    ensures Toggles(Rounds(s, clickDelay, pressDuration)) == Doubled(s)
    ensures WaitTotal(Rounds(s, clickDelay, pressDuration)) == |s| * (clickDelay + pressDuration)
  {
    if |s| > 0 {
      var prefix := s[..|s| - 1];
      var b := s[|s| - 1];
      var head := Rounds(prefix, clickDelay, pressDuration);
      var round := Round(b, clickDelay, pressDuration);
      RoundsContent(prefix, clickDelay, pressDuration);
      RecordedAppend(head, round);
      TogglesAppend(head, round);
      WaitTotalAppend(head, round);
      RoundContent(b, clickDelay, pressDuration);
      assert prefix + [b] == s;
    }
  }

  /** The timeline of a playback of length `n`: it records the first `n`
      draws in order, publishes each of them twice in a row, and waits the
      lead-in plus one click delay and one press duration per entry. */
  lemma ScheduleContent(n: nat, draws: seq<int>)
    requires n <= |draws|
    ensures Recorded(Schedule(n, draws)) == draws[..n]
    ensures Toggles(Schedule(n, draws)) == Doubled(draws[..n])
    ensures WaitTotal(Schedule(n, draws)) == LeadIn + n * (Timing.ClickDelay(n) + Timing.PressDuration(n))
  {
    var cd := Timing.ClickDelay(n);
    var pd := Timing.PressDuration(n);
    var lead := [Wait(LeadIn)];
    var body := Rounds(draws[..n], cd, pd);
    RoundsContent(draws[..n], cd, pd);
    RecordedAppend(lead, body);
    TogglesAppend(lead, body);
    WaitTotalAppend(lead, body);
  }

  /** The background task for a requested length `n`: waits the lead-in,
      then for each of `n` draws waits the click delay, records the draw,
      publishes it, waits the press duration and publishes it again. Returns
      the recorded indices and the timeline of everything it did. */
  method Run(n: nat, draws: seq<int>) returns (clicks: seq<int>, timeline: seq<Action>)
    requires n <= |draws|
    requires AllButtons(draws)
    ensures timeline == Schedule(n, draws)
    ensures clicks == draws[..n]
    ensures Recorded(timeline) == clicks
    ensures AllButtons(clicks)
    ensures Toggles(timeline) == Doubled(clicks)
    ensures WaitTotal(timeline) == LeadIn + n * (Timing.ClickDelay(n) + Timing.PressDuration(n))
  {
    var clickDelay := Timing.ClickDelay(n);
    var pressDuration := Timing.PressDuration(n);
    clicks := [];
    timeline := [Wait(LeadIn)];
    var i := 0;
    while i < n
      invariant 0 <= i <= n
      invariant clicks == draws[..i]
      invariant timeline == [Wait(LeadIn)] + Rounds(draws[..i], clickDelay, pressDuration)
    {
      var buttonIndex := draws[i];
      timeline := timeline + [Wait(clickDelay)];
      clicks := clicks + [buttonIndex];
      timeline := timeline + [Record(buttonIndex)];
      timeline := timeline + [Toggle(buttonIndex)];
      timeline := timeline + [Wait(pressDuration)];
      timeline := timeline + [Toggle(buttonIndex)];
      assert draws[..i + 1][..i] == draws[..i];
      i := i + 1;
    }
    ScheduleContent(n, draws);
  }

  /** The on-screen pressed state of the buttons after the display handles
      each published index in `events`: every publication flips the pressed
      state of its button. */
  function ApplyToggles(pressed: seq<bool>, events: seq<int>): (r: seq<bool>)
    requires |pressed| == ButtonCount
    requires AllButtons(events)
    ensures |r| == ButtonCount
    decreases |events|
  {
    if |events| == 0 then pressed
    else ApplyToggles(pressed[events[0] := !pressed[events[0]]], events[1..])
  }

  /** A button ends up flipped exactly when it was published an odd number
      of times, whatever the order of the publications. */
  lemma {:induction false} ToggleParity(pressed: seq<bool>, events: seq<int>, j: int)
    requires |pressed| == ButtonCount
    requires AllButtons(events)
    requires IsButton(j)
    ensures ApplyToggles(pressed, events)[j] == (pressed[j] != (multiset(events)[j] % 2 == 1))
    decreases |events|
  {
    if |events| > 0 {
      assert events == [events[0]] + events[1..];
      ToggleParity(pressed[events[0] := !pressed[events[0]]], events[1..], j);
    }
  }

  lemma {:induction false} ApplyTogglesAppend(pressed: seq<bool>, a: seq<int>, b: seq<int>)
    requires |pressed| == ButtonCount
    requires AllButtons(a) && AllButtons(b)
    ensures AllButtons(a + b)
    ensures ApplyToggles(pressed, a + b) == ApplyToggles(ApplyToggles(pressed, a), b)
    decreases |a|
  {
    assert forall i :: 0 <= i < |a + b| ==> (a + b)[i] == if i < |a| then a[i] else b[i - |a|];
    if |a| == 0 {
      assert a + b == b;
    } else {
      assert (a + b)[0] == a[0];
      assert (a + b)[1..] == a[1..] + b;
      ApplyTogglesAppend(pressed[a[0] := !pressed[a[0]]], a[1..], b);
    }
  }

  /** Publishing the same index twice leaves the display as it was. */
  lemma TogglePair(pressed: seq<bool>, b: int)
    requires |pressed| == ButtonCount
    requires IsButton(b)
    ensures ApplyToggles(pressed, [b, b]) == pressed
  {
    var once := pressed[b := !pressed[b]];
    assert [b, b][1..] == [b];
    assert [b][1..] == [];
    assert ApplyToggles(once, [b]) == once[b := !once[b]];
    assert once[b := !once[b]] == pressed;
  }

  /** After every complete press-and-release pair of a playback, each
      button's pressed state is what it was before the playback. */
  lemma {:induction false} PairsRestore(pressed: seq<bool>, s: seq<int>)
    requires |pressed| == ButtonCount
    requires AllButtons(s)
    ensures AllButtons(Doubled(s))
    ensures ApplyToggles(pressed, Doubled(s)) == pressed
  {
    var d := Doubled(s);
    assert forall i :: 0 <= i < |d| ==> IsButton(d[i]) by {
      forall i | 0 <= i < |d| ensures IsButton(d[i]) {
        assert d[i] == s[i / 2];
      }
    }
    if |s| > 0 {
      var prefix := s[..|s| - 1];
      var b := s[|s| - 1];
      assert AllButtons(prefix);
      PairsRestore(pressed, prefix);
      ApplyTogglesAppend(pressed, Doubled(prefix), [b, b]);
      assert d == Doubled(prefix) + [b, b];
      TogglePair(pressed, b);
    }
  }

  /** While entry `b` is shown (between its press and its release), button
      `b` is the only one whose pressed state differs from before the
      playback. */
  lemma ShownEntryOnly(pressed: seq<bool>, s: seq<int>, b: int)
    requires |pressed| == ButtonCount
    requires AllButtons(s) && IsButton(b)
    ensures AllButtons(Doubled(s) + [b])
    ensures ApplyToggles(pressed, Doubled(s) + [b]) == pressed[b := !pressed[b]]
  {
    PairsRestore(pressed, s);
    ApplyTogglesAppend(pressed, Doubled(s), [b]);
  }
}
