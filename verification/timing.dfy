/** Pacing of the computer's playback: how long to wait before each simulated
    press and how long each press stays down, both as step functions of the
    level (the length of the sequence being played). All values are in
    milliseconds. */
module Timing {

  /** Wait before each simulated press: 600 ms up to level 4, 400 ms above. */
  function ClickDelay(level: int): (r: int)
    ensures r == 600 <==> level <= 4
    ensures r == 400 <==> level > 4
  {
    if level <= 4 then 600 else 400
  }

  /** Time a simulated press stays down: 500 ms up to level 7, 300 ms above. */
  function PressDuration(level: int): (r: int)
    ensures r == 500 <==> level <= 7
    ensures r == 300 <==> level > 7
  {
    if level <= 7 then 500 else 300
  }

  /** Playback never slows down as the level grows. */
  lemma PaceNonIncreasing(lo: int, hi: int)
    requires lo <= hi
    ensures ClickDelay(hi) <= ClickDelay(lo)
    ensures PressDuration(hi) <= PressDuration(lo)
    ensures ClickDelay(hi) + PressDuration(hi) <= ClickDelay(lo) + PressDuration(lo)
  {
  }

  /** One simulated press takes 1100 ms at levels 1..4, 900 ms at 5..7 and
      700 ms from level 8 on. */
  lemma RoundLength(level: int)
    ensures level <= 4 ==> ClickDelay(level) + PressDuration(level) == 1100
    ensures 5 <= level <= 7 ==> ClickDelay(level) + PressDuration(level) == 900
    ensures 8 <= level ==> ClickDelay(level) + PressDuration(level) == 700
  {
  }
}
