/**
 * The trailing one-second debounce every reader puts in front of its progress write:
 * an effect that re-runs clears the pending `setTimeout` (its cleanup) and arms a new
 * one, so only the last position of a burst is written. Time is explicit: `Tick(now)`
 * says that the clock has reached `now`.
 */
module Debounce {
  import opened Wrappers

  /** The delay of every progress write, in milliseconds. */
  const QuietPeriod: int := 1000

  /** One `setTimeout` handle: nothing pending, or `payload` due at `deadline`. */
  datatype Timer<T> = Idle | Armed(payload: T, deadline: int)

  /** What an effect re-run leaves behind: the old timer cleared, and a fresh one
      armed at `now` when the effect asks for a write. */
  function Rearm<T>(request: Option<T>, now: int): (t: Timer<T>)
    ensures t.Armed? <==> request.Some?
    ensures t.Armed? ==> t.payload == request.value && t.deadline == now + QuietPeriod
  {
    if request.Some? then Armed(request.value, now + QuietPeriod) else Idle
  }

  /** The clock reaches `now`: a due timer fires once and is gone; otherwise nothing happens. */
  function Tick<T>(t: Timer<T>, now: int): (r: (Timer<T>, Option<T>))
    ensures r.1.Some? <==> t.Armed? && t.deadline <= now
    ensures r.1.Some? ==> r.1.value == t.payload && r.0 == Idle
    ensures r.1.None? ==> r.0 == t
  {
    if t.Armed? && t.deadline <= now then (Idle, Some(t.payload)) else (t, None)
  }

  // ---------------------------------------------------------------------
  // Traces

  /** A position change observed at `at`, or the clock reaching `at`. */
  datatype Event<T> = Change(payload: T, at: int) | Elapse(at: int)

  /** The timer and the writes (none or one) after a single event. */
  function Step<T>(t: Timer<T>, e: Event<T>): (r: (Timer<T>, seq<T>))
    ensures |r.1| <= 1
  {
    match e
    case Change(p, at) => (Rearm(Some(p), at), [])
    case Elapse(at) =>
      var fired := Tick(t, at);
      (fired.0, if fired.1.Some? then [fired.1.value] else [])
  }

  /** The timer and the writes (in order) after a trace of events. */
  function Run<T>(t: Timer<T>, evs: seq<Event<T>>): (Timer<T>, seq<T>)
    decreases |evs|
  {
    if evs == [] then (t, [])
    else
      var s := Step(t, evs[0]);
      var r := Run(s.0, evs[1..]);
      (r.0, s.1 + r.1)
  }

  lemma {:induction false} RunAppend<T>(t: Timer<T>, a: seq<Event<T>>, b: seq<Event<T>>)
    ensures Run(t, a + b).0 == Run(Run(t, a).0, b).0
    ensures Run(t, a + b).1 == Run(t, a).1 + Run(Run(t, a).0, b).1
    decreases |a|
  {
    if a != [] {
      assert (a + b)[0] == a[0];
      assert (a + b)[1..] == a[1..] + b;
      RunAppend(Step(t, a[0]).0, a[1..], b);
    } else {
      assert a + b == b;
    }
  }

  /** A burst whose changes all fall in `[w, w + QuietPeriod)`, and whose clock
      readings come before the window closes, writes nothing and leaves only the
      last change pending. */
  lemma {:induction false} BurstLeavesLastPending<T>(t: Timer<T>, evs: seq<Event<T>>, w: int)
    requires |evs| > 0 && evs[|evs| - 1].Change?
    requires t.Idle? || t.deadline >= w + QuietPeriod
    requires forall i :: 0 <= i < |evs| ==> evs[i].at < w + QuietPeriod
    requires forall i :: 0 <= i < |evs| && evs[i].Change? ==> w <= evs[i].at
    ensures Run(t, evs) == (Armed(evs[|evs| - 1].payload, evs[|evs| - 1].at + QuietPeriod), [])
    decreases |evs|
  {
    var s := Step(t, evs[0]);
    assert s.1 == [];
    if |evs| == 1 {
      assert evs[1..] == [];
      assert Run(s.0, evs[1..]) == (s.0, []);
    } else {
      BurstLeavesLastPending(s.0, evs[1..], w);
      assert evs[1..][|evs[1..]| - 1] == evs[|evs| - 1];
    }
    assert s.1 + Run(s.0, evs[1..]).1 == [];
  }

  /** Once only the clock moves, a pending write happens exactly when some reading
      reaches its deadline, and then exactly once. */
  lemma {:induction false} QuietWritesPendingOnce<T>(p: T, d: int, evs: seq<Event<T>>)
    requires forall i :: 0 <= i < |evs| ==> evs[i].Elapse?
    ensures Run(Armed(p, d), evs).1 == if exists i :: 0 <= i < |evs| && evs[i].at >= d then [p] else []
    decreases |evs|
  {
    if evs != [] {
      if evs[0].at >= d {
        IdleStaysQuiet(evs[1..]);
      } else {
        QuietWritesPendingOnce(p, d, evs[1..]);
        if exists i :: 0 <= i < |evs| && evs[i].at >= d {
          var i :| 0 <= i < |evs| && evs[i].at >= d;
          assert evs[1..][i - 1].at >= d;
        }
      }
    }
  }

  lemma {:induction false} IdleStaysQuiet<T>(evs: seq<Event<T>>)
    requires forall i :: 0 <= i < |evs| ==> evs[i].Elapse?
    ensures Run(Idle, evs) == (Idle, [])
    decreases |evs|
  {
    if evs != [] {
      assert Step(Idle, evs[0]) == (Idle, []);
      IdleStaysQuiet(evs[1..]);
      assert [] + Run(Idle, evs[1..]).1 == [];
    }
  }

  predicate Chronological<T>(evs: seq<Event<T>>) {
    forall i, j :: 0 <= i < j < |evs| ==> evs[i].at <= evs[j].at
  }

  /**
   * Trailing debounce: changes arriving within one quiet period, with the clock
   * read in between, followed only by clock readings, produce exactly one write,
   * the last change's payload, and only if the clock reaches one quiet period
   * after that change; otherwise nothing is written.
   */
  lemma DebounceWritesLastOfBurst<T>(burst: seq<Event<T>>, tail: seq<Event<T>>, w: int)
    requires |burst| > 0 && burst[|burst| - 1].Change?
    requires forall i :: 0 <= i < |burst| && burst[i].Change? ==> w <= burst[i].at < w + QuietPeriod
    requires forall i :: 0 <= i < |tail| ==> tail[i].Elapse?
    requires Chronological(burst + tail)
    ensures var last := burst[|burst| - 1];
      Run(Idle, burst + tail).1
        == if exists i :: 0 <= i < |tail| && tail[i].at >= last.at + QuietPeriod then [last.payload] else []
  {
    var last := burst[|burst| - 1];
    assert forall i :: 0 <= i < |burst| ==> burst[i].at <= last.at by {
      forall i | 0 <= i < |burst| ensures burst[i].at <= last.at {
        if i < |burst| - 1 {
          assert (burst + tail)[i] == burst[i] && (burst + tail)[|burst| - 1] == last;
        }
      }
    }
    BurstLeavesLastPending(Idle, burst, w);
    RunAppend(Idle, burst, tail);
    QuietWritesPendingOnce(last.payload, last.at + QuietPeriod, tail);
  }
}
