/** Round and session control: the game modes, the screen states of the
    game (`gameState`) and the one-second countdown of the time-bound mode. */
module Round {

  /** 'time' (time-bound, 60 seconds) or 'survival' (life-bound, 3 lives). */
  datatype Mode = Time | Survival

  /** The values `gameState` takes. */
  datatype Phase = Loading | Ready | Playing | Finished | Error

  /** What can move `gameState`: the camera stream becoming ready, the
      initialisation failing, a round starting, a round ending, and the
      "back to menu" button. */
  datatype Event = VideoReady | InitFailed | Start(mode: Mode) | End | Menu

  const RoundTime := 60

  /** Whether an event can occur in a phase: initialisation settles only
      while loading; the start buttons are offered on the ready screen and
      (as "play again") on the result screen; the round ends while playing,
      and a second end signal inside the same frame finds the round already
      finished; the menu button is on the result screen only. */
  predicate Enabled(p: Phase, e: Event) {
    match e
    case VideoReady => p == Loading
    case InitFailed => p == Loading
    case Start(_) => p == Ready || p == Finished
    case End => p == Playing || p == Finished
    case Menu => p == Finished
  }

  /** `setGameState` is unconditional: each event names its target phase. */
  function Next(e: Event): (p: Phase)
    ensures p == Playing <==> e.Start?
    ensures p == Finished <==> e == End
  {
    match e
    case VideoReady => Ready
    case InitFailed => Error
    case Start(_) => Playing
    case End => Finished
    case Menu => Ready
  }

  /** The phase after a sequence of events; the run stops at the first event
      that is not enabled in the phase it meets. */
  function Run(p: Phase, es: seq<Event>): Phase
    decreases |es|
  {
    if es == [] || !Enabled(p, es[0]) then p else Run(Next(es[0]), es[1..])
  }

  predicate AllEnabled(p: Phase, es: seq<Event>)
    decreases |es|
  {
    es == [] || (Enabled(p, es[0]) && AllEnabled(Next(es[0]), es[1..]))
  }

  /** The error screen is final: no event leaves it. */
  lemma {:induction false} ErrorIsFinal(es: seq<Event>)
    ensures Run(Error, es) == Error
  {
  }

  /** No round is ever played unless the camera became ready first: a run
      of enabled events from Loading that ends in Playing starts with
      VideoReady. */
  lemma {:induction false} PlayingNeedsReady(es: seq<Event>)
    requires AllEnabled(Loading, es)
    requires Run(Loading, es) == Playing
    ensures |es| > 0 && es[0] == VideoReady
  {
  }

  /** A round can only be finished after one was started: from any phase
      other than Playing and Finished, a run of enabled events that reaches
      Finished contains a Start event. */
  lemma {:induction false} FinishedNeedsStart(p: Phase, es: seq<Event>)
    requires p != Playing && p != Finished
    requires AllEnabled(p, es)
    requires Run(p, es) == Finished
    ensures exists i :: 0 <= i < |es| && es[i].Start?
    decreases |es|
  {
    if !es[0].Start? {
      FinishedNeedsStart(Next(es[0]), es[1..]);
      var i :| 0 <= i < |es[1..]| && es[1..][i].Start?;
      assert es[i + 1].Start?;
    }
  }

  /** The reducer given to `setTimeLeft` once per second: it returns the new
      time left and whether it called `endGame`. */
  function CountdownStep(prev: int): (r: (int, bool))
    ensures r.1 <==> prev <= 1
    ensures r.0 >= 0 && (prev >= 1 ==> r.0 == prev - 1)
  {
    if prev <= 1 then (0, true) else (prev - 1, false)
  }

  /** The time left after k consecutive seconds, starting from t. */
  function TimeAfter(t: int, k: nat): int
    decreases k
  {
    if k == 0 then t else CountdownStep(TimeAfter(t, k - 1)).0
  }

  /** Starting a round with t >= 1 seconds, the first t - 1 seconds tick
      down silently and the t-th second ends the round with 0 left: the end
      fires exactly once, at the expected second. */
  lemma {:induction false} CountdownEndsOnTime(t: int, k: nat)
    requires 1 <= t && k < t
    ensures TimeAfter(t, k) == t - k
    ensures CountdownStep(TimeAfter(t, k)).1 <==> k == t - 1
    ensures k == t - 1 ==> CountdownStep(TimeAfter(t, k)).0 == 0
  {
    if k > 0 {
      CountdownEndsOnTime(t, k - 1);
    }
  }

  /** A full time-bound round lasts RoundTime seconds. */
  lemma RoundLastsSixtySeconds()
    ensures forall k :: 0 <= k < RoundTime - 1 ==> !CountdownStep(TimeAfter(RoundTime, k)).1
    ensures CountdownStep(TimeAfter(RoundTime, RoundTime - 1)) == (0, true)
  {
    forall k | 0 <= k < RoundTime - 1
      ensures !CountdownStep(TimeAfter(RoundTime, k)).1
    {
      CountdownEndsOnTime(RoundTime, k);
    }
    CountdownEndsOnTime(RoundTime, RoundTime - 1);
  }
}
