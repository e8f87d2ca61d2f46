/**
 * The player's state mirror (`PlayerManager`): three observable fields that
 * the view reads, overwritten by the transport calls `play` and `pause` and by
 * the playback engine's notifications.
 *
 * The engine itself is not modelled. Its notifications arrive as method calls,
 * already serialised on the main queue: a periodic time tick, the item's
 * duration, the player's rate, and the answer to a seek. A seek handed to the
 * engine waits in `inFlight` until the engine answers it, oldest first, with
 * `finished` or not. `C` is the type of the completion callbacks callers pass
 * to `Seek`; the manager never runs one itself, it hands back the one that
 * must run.
 */
module Playback {
  import opened Options
  import opened Doubles

  /** A seek handed to the engine: its target and the caller's completion */
  datatype SeekRequest<C> = SeekRequest(target: Double, completion: Option<C>)

  class PlayerManager<C> {
    var isPlaying: bool
    var currentTime: Double
    var duration: Double
    /** Seeks handed to the engine that it has not answered yet, oldest first */
    var inFlight: seq<SeekRequest<C>>

    /** A new manager: paused, at time 0, with duration 0 until the item reports one */
    constructor ()
      ensures !isPlaying && currentTime == Zero && duration == Zero
      ensures inFlight == []
    {
      isPlaying := false;
      currentTime := Zero;
      duration := Zero;
      inFlight := [];
    }

    /** `play()`: starts the engine and shows playing at once */
    method Play()
      modifies this
      ensures isPlaying
      ensures currentTime == old(currentTime) && duration == old(duration)
      ensures inFlight == old(inFlight)
    {
      isPlaying := true;
    }

    /** `pause()`: stops the engine and shows paused at once */
    method Pause()
      modifies this
      ensures !isPlaying
      ensures currentTime == old(currentTime) && duration == old(duration)
      ensures inFlight == old(inFlight)
    {
      isPlaying := false;
    }

    /** `seek(to:completion:)`: hands the target to the engine and changes no
        observable field; `currentTime` moves only with a later tick. */
    method Seek(time: Double, completion: Option<C>)
      modifies this
      ensures isPlaying == old(isPlaying)
      ensures currentTime == old(currentTime) && duration == old(duration)
      ensures inFlight == old(inFlight) + [SeekRequest(time, completion)]
    {
      inFlight := inFlight + [SeekRequest(time, completion)];
    }

    /** The engine answers the oldest seek. Its completion is returned, to be
        run once, exactly when the engine reports the seek finished and the
        caller gave one; the request is gone either way, so it never runs again. */
    method OnSeekResult(finished: bool) returns (run: Option<C>)
      requires inFlight != []
      modifies this
      ensures run == (if finished then old(inFlight[0].completion) else None)
      ensures (if run.Some? then [run.value] else []) == CompletionsRun(old(inFlight), [finished])
      ensures inFlight == old(inFlight[1..])
      ensures isPlaying == old(isPlaying)
      ensures currentTime == old(currentTime) && duration == old(duration)
    {
      run := if finished then inFlight[0].completion else None;
      inFlight := inFlight[1..];
    }

    /** The periodic time observer reports the playhead position */
    method OnTick(seconds: Double)
      modifies this
      ensures currentTime == seconds
      ensures isPlaying == old(isPlaying) && duration == old(duration)
      ensures inFlight == old(inFlight)
    {
      currentTime := seconds;
    }

    /** The current item reports its duration */
    method OnDuration(seconds: Double)
      modifies this
      ensures duration == seconds
      ensures isPlaying == old(isPlaying) && currentTime == old(currentTime)
      ensures inFlight == old(inFlight)
    {
      duration := seconds;
    }

    /** The player reports its rate: playing exactly when the rate is above
        zero, so a rate of zero, a negative rate or NaN shows paused. */
    method OnRate(rate: Double)
      modifies this
      ensures isPlaying <==> Greater(rate, Zero)
      ensures currentTime == old(currentTime) && duration == old(duration)
      ensures inFlight == old(inFlight)
    {
      isPlaying := Greater(rate, Zero);
    }
  }

  /** The completions the engine's answers run, in order, when it answers the
      oldest `|finished|` seeks of `inFlight` with the given results. */
  function CompletionsRun<C>(inFlight: seq<SeekRequest<C>>, finished: seq<bool>): (r: seq<C>)
    requires |finished| <= |inFlight|
    ensures |r| <= |finished|
    ensures (forall j :: 0 <= j < |finished| ==> !finished[j]) ==> r == []
  {
    if finished == [] then []
    else
      var first := if finished[0] && inFlight[0].completion.Some?
        then [inFlight[0].completion.value] else [];
      first + CompletionsRun(inFlight[1..], finished[1..])
  }

  /** Number of times `x` occurs in `s` */
  function Occurrences<T(==)>(s: seq<T>, x: T): nat {
    multiset(s)[x]
  }

  /** A seek whose completion no other in-flight seek shares has that
      completion run exactly once if the engine reports it finished and
      never if it reports it not finished. */
  lemma {:induction false} CompletionRunsOnceIfFinished<C>(
    inFlight: seq<SeekRequest<C>>, finished: seq<bool>, k: nat, c: C)
    requires |finished| <= |inFlight| && k < |finished|
    requires inFlight[k].completion == Some(c)
    requires forall j :: 0 <= j < |inFlight| && j != k ==> inFlight[j].completion != Some(c)
    ensures Occurrences(CompletionsRun(inFlight, finished), c) == if finished[k] then 1 else 0
  {
    var first := if finished[0] && inFlight[0].completion.Some?
      then [inFlight[0].completion.value] else [];
    var rest := CompletionsRun(inFlight[1..], finished[1..]);
    assert CompletionsRun(inFlight, finished) == first + rest;
    assert multiset(first + rest) == multiset(first) + multiset(rest);
    if k == 0 {
      assert Occurrences(rest, c) == 0 by {
        NeverRun(inFlight[1..], finished[1..], c);
      }
    } else {
      assert inFlight[0].completion != Some(c);
      CompletionRunsOnceIfFinished(inFlight[1..], finished[1..], k - 1, c);
    }
  }

  /** A completion that no answered seek carries is never run. */
  lemma {:induction false} NeverRun<C>(inFlight: seq<SeekRequest<C>>, finished: seq<bool>, c: C)
    requires |finished| <= |inFlight|
    requires forall j :: 0 <= j < |finished| ==> inFlight[j].completion != Some(c)
    ensures Occurrences(CompletionsRun(inFlight, finished), c) == 0
  {
    if finished != [] {
      var first := if finished[0] && inFlight[0].completion.Some?
        then [inFlight[0].completion.value] else [];
      var rest := CompletionsRun(inFlight[1..], finished[1..]);
      assert multiset(first + rest) == multiset(first) + multiset(rest);
      NeverRun(inFlight[1..], finished[1..], c);
    }
  }

  /** Seeks issued later, which join the back of the queue, do not change
      which completions the answers to the seeks already in flight run. */
  lemma {:induction false} CompletionsRunIgnoresLaterSeeks<C>(
    inFlight: seq<SeekRequest<C>>, later: seq<SeekRequest<C>>, finished: seq<bool>)
    requires |finished| <= |inFlight|
    ensures CompletionsRun(inFlight + later, finished) == CompletionsRun(inFlight, finished)
  {
    if finished != [] {
      assert (inFlight + later)[1..] == inFlight[1..] + later;
      CompletionsRunIgnoresLaterSeeks(inFlight[1..], later, finished[1..]);
    }
  }

  /** Answering the seek at the front of `inFlight` with `finished[i]` runs
      its completion, if any, before those of the answers that follow. */
  lemma CompletionsRunStep<C>(inFlight: seq<SeekRequest<C>>, finished: seq<bool>, i: nat)
    requires i < |finished| && |finished| - i <= |inFlight|
    ensures CompletionsRun(inFlight, finished[i..]) ==
      (if finished[i] && inFlight[0].completion.Some? then [inFlight[0].completion.value] else [])
      + CompletionsRun(inFlight[1..], finished[i + 1..])
  {
    assert finished[i..][0] == finished[i];
    assert finished[i..][1..] == finished[i + 1..];
  }

  /** The engine answers the oldest `|finished|` seeks in turn; the
      completions the manager hands back to run are `CompletionsRun` of the
      queue before the answers, and those seeks leave the queue. */
  method AnswerAll<C>(m: PlayerManager<C>, finished: seq<bool>) returns (ran: seq<C>)
    requires |finished| <= |m.inFlight|
    modifies m
    ensures ran == CompletionsRun(old(m.inFlight), finished)
    ensures m.inFlight == old(m.inFlight)[|finished|..]
    ensures m.isPlaying == old(m.isPlaying)
    ensures m.currentTime == old(m.currentTime) && m.duration == old(m.duration)
  {
    ghost var queue := m.inFlight;
    ran := [];
    var i := 0;
    while i < |finished|
      invariant 0 <= i <= |finished|
      invariant m.inFlight == queue[i..]
      invariant ran + CompletionsRun(m.inFlight, finished[i..]) == CompletionsRun(queue, finished)
      invariant m.isPlaying == old(m.isPlaying)
      invariant m.currentTime == old(m.currentTime) && m.duration == old(m.duration)
    {
      ghost var before := m.inFlight;
      var run := m.OnSeekResult(finished[i]);
      var first := if run.Some? then [run.value] else [];
      ghost var rest := CompletionsRun(m.inFlight, finished[i + 1..]);
      CompletionsRunStep(before, finished, i);
      assert ran + (first + rest) == (ran + first) + rest;
      ran := ran + first;
      i := i + 1;
    }
    assert finished[i..] == [];
  }
}
