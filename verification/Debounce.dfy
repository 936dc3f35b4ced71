/**
 Debouncing of a polled GPIO key, 6.18 gpio-button-hotplug.c. Samples and
 states are true for "pressed"; the text of an event is left out.
 */
module Debounce {
  import opened Machine
  import opened Option
  import opened Arith

  // --------------------------------------------------------------------
  // The settled state, by looking back at the samples
  // --------------------------------------------------------------------

  /** The last threshold + 1 of the first i samples are all v. */
  predicate Window(threshold: nat, samples: seq<bool>, i: nat, v: bool)
    requires i <= |samples|
  {
    i > threshold && forall j :: i - threshold - 1 <= j < i ==> samples[j] == v
  }

  /** The state of a key after i samples: released at first, the other one once a whole window says so. */
  function Settled(threshold: nat, samples: seq<bool>, i: nat): bool
    requires i <= |samples|
  {
    if i == 0 then false
    else
      var before := Settled(threshold, samples, i - 1);
      if Window(threshold, samples, i, !before) then !before else before
  }

  /** What the driver should report for sample i. */
  function Expected(threshold: nat, samples: seq<bool>, i: nat): Option<bool>
    requires i < |samples|
  {
    if Settled(threshold, samples, i + 1) != Settled(threshold, samples, i) then Some(samples[i]) else None
  }

  /** How many of the first i samples, from the last one back, are v. */
  function Trail(samples: seq<bool>, i: nat, v: bool): (n: nat)
    requires i <= |samples|
    ensures n <= i && forall j :: i - n <= j < i ==> samples[j] == v
    ensures n < i ==> samples[i - n - 1] != v
  {
    if i == 0 || samples[i - 1] != v then 0 else 1 + Trail(samples, i - 1, v)
  }

  lemma WindowIff(threshold: nat, samples: seq<bool>, i: nat, v: bool)
    requires i <= |samples|
    ensures Window(threshold, samples, i, v) <==> Trail(samples, i, v) > threshold
  {
  }

  // --------------------------------------------------------------------
  // The driver's state
  // --------------------------------------------------------------------

  datatype Level = Unknown | Known(pressed: bool)

  datatype State = State(last: Level, count: nat)

  /** gpio_keys_handle_button for a sample: the new state and the event. */
  function Handle(key: bool, threshold: nat, s: State, sample: bool): (State, Option<bool>) {
    if s.last.Unknown? && key && !sample then (State(Known(sample), 0), None)
    else if s.last == Known(sample) then (State(s.last, 0), None)
    else if s.count < threshold then (State(s.last, s.count + 1), None)
    else (State(Known(sample), 0), Some(sample))
  }

  function HandleAll(key: bool, threshold: nat, s: State, samples: seq<bool>): (r: (State, seq<Option<bool>>))
    ensures |r.1| == |samples|
  {
    if samples == [] then (s, [])
    else
      var n := |samples| - 1;
      var (before, events) := HandleAll(key, threshold, s, samples[..n]);
      var (after, event) := Handle(key, threshold, before, samples[n]);
      (after, events + [event])
  }

  // --------------------------------------------------------------------
  // Every run of a key
  // --------------------------------------------------------------------

  lemma {:induction false} SettledPrefix(threshold: nat, samples: seq<bool>, n: nat, i: nat)
    requires i <= n <= |samples|
    ensures Settled(threshold, samples[..n], i) == Settled(threshold, samples, i)
  {
    if i > 0 {
      SettledPrefix(threshold, samples, n, i - 1);
    }
  }

  lemma {:induction false} TrailPrefix(samples: seq<bool>, n: nat, i: nat, v: bool)
    requires i <= n <= |samples|
    ensures Trail(samples[..n], i, v) == Trail(samples, i, v)
  {
    if i > 0 {
      TrailPrefix(samples, n, i - 1, v);
    }
  }

  /** The level stands for the settled state, the counter for the run against it. */
  predicate Tracks(threshold: nat, samples: seq<bool>, s: State) {
    var now := Settled(threshold, samples, |samples|);
    && (if s.last.Unknown? then !now else s.last.pressed == now)
    && s.count == Trail(samples, |samples|, !now) <= threshold
  }

  /** One more sample keeps the state in step and reports what the samples say. */
  lemma HandleTracks(threshold: nat, samples: seq<bool>, s: State, sample: bool)
    requires Tracks(threshold, samples, s)
    ensures var (after, event) := Handle(true, threshold, s, sample);
      && Tracks(threshold, samples + [sample], after)
      && event == Expected(threshold, samples + [sample], |samples|)
  {
    hide Settled, Trail, Window;
    var n, more := |samples|, samples + [sample];
    assert more[..n] == samples;
    SettledPrefix(threshold, more, n, n);
    var now := Settled(threshold, samples, n);
    TrailPrefix(more, n, n, !now);
    SettledNext(threshold, more, n);
    TrailNext(more, n, now);
    TrailNext(more, n, !now);
    WindowIff(threshold, more, n + 1, !now);
  }

  lemma SettledNext(threshold: nat, samples: seq<bool>, i: nat)
    requires i < |samples|
    ensures var before := Settled(threshold, samples, i);
      Settled(threshold, samples, i + 1) == if Window(threshold, samples, i + 1, !before) then !before else before
  {
  }

  lemma TrailNext(samples: seq<bool>, i: nat, v: bool)
    requires i < |samples|
    ensures Trail(samples, i + 1, v) == if samples[i] == v then 1 + Trail(samples, i, v) else 0
  {
  }

  predicate Start(s: State) {
    s == State(Unknown, 0) || s == State(Known(false), 0)
  }

  /** Every run: an event at exactly the samples where a whole window contradicts the settled state. */
  lemma {:induction false} RunReports(threshold: nat, s: State, samples: seq<bool>)
    requires Start(s)
    ensures Tracks(threshold, samples, HandleAll(true, threshold, s, samples).0)
    ensures forall i :: 0 <= i < |samples| ==>
      HandleAll(true, threshold, s, samples).1[i] == Expected(threshold, samples, i)
  {
    hide Handle, Tracks, Expected;
    if samples == [] {
      StartTracks(threshold, s);
    } else {
      var n := |samples| - 1;
      var before := samples[..n];
      RunReports(threshold, s, before);
      assert samples == before + [samples[n]];
      HandleTracks(threshold, before, HandleAll(true, threshold, s, before).0, samples[n]);
      forall i | 0 <= i < n ensures Expected(threshold, samples, i) == Expected(threshold, before, i) {
        ExpectedPrefix(threshold, samples, n, i);
      }
    }
  }

  lemma StartTracks(threshold: nat, s: State)
    requires Start(s)
    ensures Tracks(threshold, [], s)
  {
  }

  lemma ExpectedPrefix(threshold: nat, samples: seq<bool>, n: nat, i: nat)
    requires i < n <= |samples|
    ensures Expected(threshold, samples[..n], i) == Expected(threshold, samples, i)
  {
    SettledPrefix(threshold, samples, n, i);
    SettledPrefix(threshold, samples, n, i + 1);
  }

  /** For a key the unknown state at start behaves like released. */
  lemma UnknownIsReleased(threshold: nat, samples: seq<bool>)
    ensures HandleAll(true, threshold, State(Unknown, 0), samples).1
      == HandleAll(true, threshold, State(Known(false), 0), samples).1
  {
    RunReports(threshold, State(Unknown, 0), samples);
    RunReports(threshold, State(Known(false), 0), samples);
  }

  // --------------------------------------------------------------------
  // The start of a switch
  // --------------------------------------------------------------------

  /** A run goes on from where its first part left off. */
  lemma {:induction false} HandleAllSplit(key: bool, threshold: nat, s: State, a: seq<bool>, b: seq<bool>)
    ensures HandleAll(key, threshold, s, a + b).0
      == HandleAll(key, threshold, HandleAll(key, threshold, s, a).0, b).0
    ensures HandleAll(key, threshold, s, a + b).1
      == HandleAll(key, threshold, s, a).1 + HandleAll(key, threshold, HandleAll(key, threshold, s, a).0, b).1
    decreases |b|
  {
    hide Handle;
    if b == [] {
      assert a + b == a;
    } else {
      var n := |b| - 1;
      assert (a + b)[..|a| + n] == a + b[..n];
      HandleAllSplit(key, threshold, s, a, b[..n]);
    }
  }

  /** Once the level is known, keys and switches behave alike. */
  lemma {:induction false} KnownIgnoresType(threshold: nat, s: State, samples: seq<bool>)
    requires s.last.Known?
    ensures HandleAll(false, threshold, s, samples) == HandleAll(true, threshold, s, samples)
    ensures HandleAll(true, threshold, s, samples).0.last.Known?
    decreases |samples|
  {
    if samples != [] {
      KnownIgnoresType(threshold, s, samples[..|samples| - 1]);
    }
  }

  function Silent(n: nat): (r: seq<Option<bool>>)
    ensures |r| == n && forall i :: 0 <= i < n ==> r[i] == None
  {
    seq(n, _ => None)
  }

  /** A switch of unknown level only counts, up to the threshold. */
  lemma {:induction false} UnknownCounts(threshold: nat, samples: seq<bool>)
    requires |samples| <= threshold
    ensures HandleAll(false, threshold, State(Unknown, 0), samples) == (State(Unknown, |samples|), Silent(|samples|))
    decreases |samples|
  {
    if samples == [] {
      assert Silent(0) == [];
    } else {
      var n := |samples| - 1;
      UnknownCounts(threshold, samples[..n]);
      assert Silent(n) + [None] == Silent(n + 1);
    }
  }

  /** A released start up to the threshold: silent, and then an event only if everything was pressed. */
  lemma ReleasedCounts(threshold: nat, samples: seq<bool>)
    requires |samples| == threshold + 1
    ensures var (s, events) := HandleAll(false, threshold, State(Known(false), 0), samples);
      if AllPressed(samples) then s == State(Known(true), 0) && events == Silent(threshold) + [Some(true)]
      else events == Silent(threshold + 1)
  {
    hide HandleAll, Tracks;
    var start := State(Known(false), 0);
    KnownIgnoresType(threshold, start, samples);
    RunReports(threshold, start, samples);
    forall i: nat | i <= threshold ensures !Settled(threshold, samples, i) {
      SettledEarly(threshold, samples, i);
    }
    var (s, events) := HandleAll(true, threshold, start, samples);
    assert Window(threshold, samples, threshold + 1, true) <==> AllPressed(samples);
    if AllPressed(samples) {
      assert events == Silent(threshold) + [Some(true)];
      FinalState(threshold, samples, s);
    } else {
      assert events == Silent(threshold + 1);
    }
  }

  predicate AllPressed(samples: seq<bool>) {
    forall i :: 0 <= i < |samples| ==> samples[i]
  }

  lemma {:induction false} SettledEarly(threshold: nat, samples: seq<bool>, i: nat)
    requires i <= threshold && i <= |samples|
    ensures !Settled(threshold, samples, i)
  {
    if i > 0 {
      SettledEarly(threshold, samples, i - 1);
    }
  }

  lemma FinalState(threshold: nat, samples: seq<bool>, s: State)
    requires |samples| == threshold + 1 && AllPressed(samples) && Tracks(threshold, samples, s)
    ensures s == State(Known(true), 0)
  {
    SettledEarly(threshold, samples, threshold);
    assert Window(threshold, samples, threshold + 1, true);
    assert Trail(samples, |samples|, false) == 0;
  }

  /**
   For a switch the unknown and the released start report the same events, if and
   only if there are at most threshold samples or the first threshold + 1 are pressed.
   */
  lemma SwitchIff(threshold: nat, samples: seq<bool>)
    ensures HandleAll(false, threshold, State(Unknown, 0), samples).1
        == HandleAll(false, threshold, State(Known(false), 0), samples).1
      <==> |samples| <= threshold || AllPressed(samples[..threshold + 1])
  {
    hide HandleAll, Handle;
    var unknown, released := State(Unknown, 0), State(Known(false), 0);
    if |samples| <= threshold {
      UnknownCounts(threshold, samples);
      ReleasedSilent(threshold, samples);
    } else {
      var a, b := samples[..threshold + 1], samples[threshold + 1..];
      assert a + b == samples;
      HandleAllSplit(false, threshold, unknown, a, b);
      HandleAllSplit(false, threshold, released, a, b);
      UnknownReports(threshold, a);
      ReleasedCounts(threshold, a);
      if !AllPressed(a) {
        assert HandleAll(false, threshold, unknown, samples).1[threshold].Some?;
        assert HandleAll(false, threshold, released, samples).1[threshold].None?;
      }
    }
  }

  lemma ReleasedSilent(threshold: nat, samples: seq<bool>)
    requires |samples| <= threshold
    ensures HandleAll(false, threshold, State(Known(false), 0), samples).1 == Silent(|samples|)
  {
    hide HandleAll, Tracks;
    var start := State(Known(false), 0);
    KnownIgnoresType(threshold, start, samples);
    RunReports(threshold, start, samples);
    forall i | 0 <= i < |samples| ensures Expected(threshold, samples, i) == None {
      SettledEarly(threshold, samples, i);
      SettledEarly(threshold, samples, i + 1);
    }
  }

  /** A switch of unknown level reports whatever its sample at the threshold says. */
  lemma UnknownReports(threshold: nat, samples: seq<bool>)
    requires |samples| == threshold + 1
    ensures HandleAll(false, threshold, State(Unknown, 0), samples)
      == (State(Known(samples[threshold]), 0), Silent(threshold) + [Some(samples[threshold])])
  {
    UnknownCounts(threshold, samples[..threshold]);
  }

  /** The events of a run, without the silent samples. */
  function Events(outputs: seq<Option<bool>>): seq<bool> {
    if outputs == [] then []
    else
      var n := |outputs| - 1;
      Events(outputs[..n]) + (if outputs[n].Some? then [outputs[n].value] else [])
  }

  predicate Alternates(events: seq<bool>) {
    forall k :: 0 <= k < |events| ==> events[k] == (k % 2 == 0)
  }

  /** Events alternate and begin with "pressed"; the last one is the settled state. */
  lemma {:induction false} EventsAlternate(threshold: nat, s: State, samples: seq<bool>)
    requires Start(s)
    ensures Alternates(Events(HandleAll(true, threshold, s, samples).1))
    ensures Settled(threshold, samples, |samples|) == (|Events(HandleAll(true, threshold, s, samples).1)| % 2 == 1)
  {
    hide Settled, Handle, Window;
    if samples == [] {
      SettledAtStart(threshold);
    } else {
      var n := |samples| - 1;
      var outputs, before := HandleAll(true, threshold, s, samples).1, HandleAll(true, threshold, s, samples[..n]).1;
      assert outputs == before + [outputs[n]] && outputs[..n] == before;
      EventsAlternate(threshold, s, samples[..n]);
      RunReports(threshold, s, samples);
      SettledPrefix(threshold, samples, n, n);
      SettledNext(threshold, samples, n);
      ReportedSample(threshold, samples, n);
      if outputs[n].Some? {
        OneMoreAlternates(Events(before), samples[n]);
      }
    }
  }

  lemma SettledAtStart(threshold: nat)
    ensures !Settled(threshold, [], 0)
  {
  }

  /** A reported sample is the new settled state. */
  lemma ReportedSample(threshold: nat, samples: seq<bool>, i: nat)
    requires i < |samples|
    ensures Expected(threshold, samples, i).Some? ==>
      samples[i] == Settled(threshold, samples, i + 1) == !Settled(threshold, samples, i)
  {
    hide Settled;
    SettledNext(threshold, samples, i);
  }

  lemma OneMoreAlternates(events: seq<bool>, v: bool)
    requires Alternates(events) && v == (|events| % 2 == 0)
    ensures Alternates(events + [v])
  {
  }

  // --------------------------------------------------------------------
  // The driver
  // --------------------------------------------------------------------

  /** DIV_ROUND_UP(debounce_interval, poll_interval): the fewest polls that last as long as the debounce interval. */
  function Threshold(debounce: nat, poll: Positive): (t: nat)
    ensures t * poll >= debounce
    ensures t > 0 ==> (t - 1) * poll < debounce
  {
    var t := (debounce + poll - 1) / poll;
    assert debounce + poll - 1 == t * poll + (debounce + poll - 1) % poll;
    assert (t - 1) * poll == t * poll - poll;
    t
  }

  /** The seconds reported with an event at `now`, in jiffies, when the last one was at `seen`; 0 means none yet. */
  function Elapsed(hz: Positive, seen: nat, now: nat): nat {
    if seen == 0 then 0 else (now - seen) % ULONG / hz
  }

  /** The seconds between two moments less than a wrap of the 32-bit counter apart, also across one. */
  lemma ElapsedIs(hz: Positive, t0: nat, t1: nat)
    requires t0 <= t1 < t0 + ULONG && t0 % ULONG != 0
    ensures Elapsed(hz, t0 % ULONG, t1 % ULONG) == (t1 - t0) / hz
  {
    var d := t1 - t0;
    assert (t1 % ULONG - t0 % ULONG) % ULONG == d % ULONG == d;
  }

  /** The time of the last event before sample i. */
  function LastSeen(events: seq<Option<bool>>, times: seq<nat>, i: nat): nat
    requires i <= |events| <= |times|
  {
    if i == 0 then 0 else if events[i - 1].Some? then times[i - 1] else LastSeen(events, times, i - 1)
  }

  lemma {:induction false} LastSeenPrefix(events: seq<Option<bool>>, more: seq<Option<bool>>, times: seq<nat>, i: nat)
    requires i <= |events| && |events + more| <= |times|
    ensures LastSeen(events + more, times, i) == LastSeen(events, times, i)
  {
    if i > 0 {
      LastSeenPrefix(events, more, times, i - 1);
    }
  }

  class Button {
    const key: bool
    const threshold: nat
    const hz: Positive
    var last: Level
    var count: nat
    var seen: nat

    ghost function Value(): State
      reads this
    {
      State(last, count)
    }

    constructor (key: bool, debounce: nat, poll: Positive, hz: Positive)
      ensures this.key == key && threshold == Threshold(debounce, poll) && this.hz == hz
      ensures Value() == State(Unknown, 0) && seen == 0
    {
      this.key, threshold, this.hz := key, Threshold(debounce, poll), hz;
      last, count, seen := Unknown, 0, 0;
    }

    /** gpio_keys_handle_button at jiffies `now`: the event and its seconds. */
    method HandleButton(sample: bool, now: nat) returns (event: Option<bool>, seconds: nat)
      modifies this
      ensures (Value(), event) == Handle(key, threshold, old(Value()), sample)
      ensures seen == if event.Some? then now else old(seen)
      ensures event.Some? ==> seconds == Elapsed(hz, old(seen), now)
    {
      event, seconds := None, 0;
      if last.Unknown? {
        if key && !sample {
          last, count := Known(sample), 0;
          return;
        }
      } else if last.pressed == sample {
        count := 0;
        return;
      }
      if count < threshold {
        count := count + 1;
        return;
      }
      if seen == 0 {
        seen := now;
      }
      event, seconds := Some(sample), (now - seen) % ULONG / hz;
      seen := now;
      last, count := Known(sample), 0;
    }

    /** The polls of a whole run, at the given times; every event comes with the seconds since the last one. */
    method Poll(samples: seq<bool>, times: seq<nat>) returns (events: seq<Option<bool>>, seconds: seq<nat>)
      requires |times| == |samples| && seen == 0
      modifies this
      ensures (Value(), events) == HandleAll(key, threshold, old(Value()), samples)
      ensures |seconds| == |events| == |samples|
      ensures forall i :: 0 <= i < |events| && events[i].Some? ==>
        seconds[i] == Elapsed(hz, LastSeen(events, times, i), times[i])
    {
      hide Handle, Elapsed;
      events, seconds := [], [];
      for i := 0 to |samples|
        invariant (Value(), events) == HandleAll(key, threshold, old(Value()), samples[..i])
        invariant |seconds| == |events| == i && seen == LastSeen(events, times, i)
        invariant forall j :: 0 <= j < i && events[j].Some? ==>
          seconds[j] == Elapsed(hz, LastSeen(events, times, j), times[j])
      {
        assert samples[..i + 1][..i] == samples[..i];
        var event, n := HandleButton(samples[i], times[i]);
        forall j: nat | j <= i ensures LastSeen(events + [event], times, j) == LastSeen(events, times, j) {
          LastSeenPrefix(events, [event], times, j);
        }
        events, seconds := events + [event], seconds + [n];
      }
      assert samples[..|samples|] == samples;
    }
  }
}
