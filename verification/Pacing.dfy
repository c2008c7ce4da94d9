/** The two lazy mechanisms of the pressure controller refine their plain descriptions: the
    pruned window counts the full log of notes, and decay in steps equals decay at once. */
module Pacing {
  import opened Bytes
  import opened PressureSpec
  import opened PressureRuns
  import Sorting

  // ---- Lazy decay ----

  lemma {:induction false} MultiplesGrow(a: nat, b: nat, d: nat)
    requires a < b
    ensures a * d + d <= b * d
    decreases b
  {
    if a + 1 < b {
      MultiplesGrow(a, b - 1, d);
    }
    assert b * d == (b - 1) * d + d;
  }

  lemma QuotientIsUnique(x: nat, d: nat, q: nat)
    requires d > 0 && q * d <= x < q * d + d
    ensures x / d == q
  {
    var r := x / d;
    assert r * d <= x < r * d + d;
    if q < r {
      MultiplesGrow(q, r, d);
    } else if r < q {
      MultiplesGrow(r, q, d);
    }
  }

  lemma QuotientOfRest(x: nat, d: nat, k: nat)
    requires d > 0 && k * d <= x
    ensures (x - k * d) / d + k == x / d
  {
    var r := (x - k * d) / d;
    assert (r + k) * d == r * d + k * d;
    QuotientIsUnique(x, d, r + k);
  }

  /** Decaying at `early` and then at `late` is decaying at `late`. */
  lemma DecayComposes(c: Controller, early: U64, late: U64)
    requires early <= late
    ensures Decay(Decay(c, early), late) == Decay(c, late)
  {
    var d := c.config.decayIdle;
    if d != 0 && early > c.anchor {
      var steps := (early - c.anchor) / d;
      WholePeriods(early - c.anchor, d);
      QuotientOfRest(late - c.anchor, d, steps);
      var rest := (late - c.anchor - steps * d) / d;
      assert (rest + steps) * d == rest * d + steps * d;
      if late <= c.anchor + steps * d {
        assert rest == 0;
      }
    }
  }

  /** `k` whole idle periods fit between `from` and `to`. */
  ghost predicate WholePeriodsBetween(from: nat, to: nat, period: nat, k: nat) {
    0 <= k * period <= to - from < k * period + period
  }

  /** One rung per whole idle period, down to the bottom, and the anchor moves by those periods. */
  lemma DecayDropsRungs(c: Controller, now: U64, k: nat)
    requires WholePeriodsBetween(c.anchor, now, c.config.decayIdle, k)
    ensures Decay(c, now) == c.(rung := if c.rung < k then 0 else c.rung - k, anchor := c.anchor + k * c.config.decayIdle)
  {
    QuotientIsUnique(now - c.anchor, c.config.decayIdle, k);
  }

  /** What a poll does to the pace of an adaptive run: it drops one rung for each whole idle period since
      the anchor, and moves the anchor by those periods. */
  lemma PollDropsRungs(config: Config, ops: seq<Op>, now: U64, k: nat)
    requires WholePeriodsBetween(Run(Adaptive, config, ops).controller.anchor, now, config.decayIdle, k)
    ensures var before, after := Run(Adaptive, config, ops).controller, Next(Run(Adaptive, config, ops), PollOp(now)).controller;
            && after.rung == (if before.rung < k then 0 else before.rung - k)
            && after.anchor == before.anchor + k * config.decayIdle
  {
    hide Run, Decay, DueSlots, Pending, Released;
    RunKeepsConfig(Adaptive, config, ops);
    DecayDropsRungs(Run(Adaptive, config, ops).controller, now, k);
  }

  lemma {:induction false} RunKeepsConfig(mode: Mode, config: Config, ops: seq<Op>)
    ensures Run(mode, config, ops).controller.mode == mode
    ensures Run(mode, config, ops).controller.config.decayIdle == config.decayIdle
    ensures Run(mode, config, ops).controller.config == Fresh(mode, config).config
  {
    hide Next, ValidTrace;
    if ops != [] {
      RunKeepsConfig(mode, config, ops[..|ops| - 1]);
      StepKeepsConfig(Run(mode, config, ops[..|ops| - 1]), ops[|ops| - 1]);
    }
  }

  ghost predicate Ordered(times: seq<U64>) {
    forall i, j :: 0 <= i <= j < |times| ==> times[i] <= times[j]
  }

  /** A stretch without notes, polled at the given times. */
  ghost function PollEach(t: Trace, times: seq<U64>): (t': Trace)
    requires ValidTrace(t)
    ensures ValidTrace(t')
  {
    if times == [] then t else Next(PollEach(t, times[..|times| - 1]), PollOp(times[|times| - 1]))
  }

  /** However often an idle stretch is polled, the rung and the anchor are those of one decay at
      its end. */
  lemma {:induction false} IdleStretchDecaysOnce(t: Trace, times: seq<U64>)
    requires ValidTrace(t) && t.controller.mode == Adaptive && Ordered(times) && times != []
    ensures PollEach(t, times).controller.rung == Decay(t.controller, times[|times| - 1]).rung
    ensures PollEach(t, times).controller.anchor == Decay(t.controller, times[|times| - 1]).anchor
    ensures PollEach(t, times).controller.mode == Adaptive
    ensures PollEach(t, times).controller.config == t.controller.config
  {
    hide ValidTrace, DueSlots, Pending, Released;
    var front, last := times[..|times| - 1], times[|times| - 1];
    if front != [] {
      IdleStretchDecaysOnce(t, front);
      DecayComposes(t.controller, front[|front| - 1], last);
      DecayReadsClockOnly(PollEach(t, front).controller, Decay(t.controller, front[|front| - 1]), last);
    }
  }

  /** An idle stretch ends on the rung that its whole idle periods give, so a long one ends on rung 0. */
  lemma IdleStretchDropsRungs(t: Trace, times: seq<U64>, k: nat)
    requires ValidTrace(t) && t.controller.mode == Adaptive && Ordered(times) && times != []
    requires WholePeriodsBetween(t.controller.anchor, times[|times| - 1], t.controller.config.decayIdle, k)
    ensures PollEach(t, times).controller.rung == if t.controller.rung < k then 0 else t.controller.rung - k
    ensures t.controller.rung <= k ==> PollEach(t, times).controller.rung == 0
  {
    hide PollEach, Decay;
    IdleStretchDecaysOnce(t, times);
    DecayDropsRungs(t.controller, times[|times| - 1], k);
  }

  lemma DecayReadsClockOnly(a: Controller, b: Controller, now: U64)
    requires a.rung == b.rung && a.anchor == b.anchor && a.config == b.config
    ensures Decay(a, now).rung == Decay(b, now).rung && Decay(a, now).anchor == Decay(b, now).anchor
  {
  }

  // ---- Runs with time moving forward ----

  ghost predicate InOrder(ops: seq<Op>) {
    forall i, j :: 0 <= i <= j < |ops| ==> ops[i].now <= ops[j].now
  }

  ghost function LastTime(ops: seq<Op>): U64 {
    if ops == [] then 0 else ops[|ops| - 1].now
  }

  function Times(log: seq<Noted>): (r: seq<U64>)
    ensures |r| == |log|
  {
    seq(|log|, i requires 0 <= i < |log| => log[i].at)
  }

  ghost function CountSince(times: seq<U64>, cutoff: U64): nat {
    if times == [] then 0 else (if times[0] >= cutoff then 1 else 0) + CountSince(times[1..], cutoff)
  }

  /** One second before `now`. */
  function Cutoff(now: U64): U64 {
    if now < 1000 then 0 else now - 1000
  }

  /** `window` is `times` without some leading timestamps, all before `cutoff`. */
  ghost predicate Trails(window: seq<U64>, times: seq<U64>, cutoff: U64) {
    && |window| <= |times|
    && window == times[|times| - |window|..]
    && forall i :: 0 <= i < |times| - |window| ==> times[i] < cutoff
  }

  lemma {:induction false} PrunedTrails(window: seq<U64>, cutoff: U64)
    ensures Trails(Pruned(window, cutoff), window, cutoff)
    ensures Pruned(window, cutoff) != [] ==> Pruned(window, cutoff)[0] >= cutoff
  {
    if window != [] && window[0] < cutoff {
      PrunedTrails(window[1..], cutoff);
      forall i | 0 <= i < |window| - |Pruned(window, cutoff)|
        ensures window[i] < cutoff
      {
        assert i > 0 ==> window[i] == window[1..][i - 1];
      }
    }
  }

  lemma TrailsTransitive(inner: seq<U64>, window: seq<U64>, times: seq<U64>, early: U64, late: U64)
    requires early <= late && Trails(window, times, early) && Trails(inner, window, late)
    ensures Trails(inner, times, late)
  {
    var skipped := |times| - |window|;
    forall i | 0 <= i < |times| - |inner|
      ensures times[i] < late
    {
      assert i >= skipped ==> times[i] == window[i - skipped];
    }
  }

  lemma {:induction false} CountOfSuffix(times: seq<U64>, k: nat, cutoff: U64)
    requires k <= |times|
    requires forall i :: 0 <= i < k ==> times[i] < cutoff
    requires forall i :: k <= i < |times| ==> times[i] >= cutoff
    ensures CountSince(times, cutoff) == |times| - k
    decreases |times|
  {
    if times != [] {
      CountOfSuffix(times[1..], if k == 0 then 0 else k - 1, cutoff);
    }
  }

  /** Pruning a trailing window at any later cutoff leaves as many timestamps as the whole log has
      since that cutoff. */
  lemma PrunedCountsLog(window: seq<U64>, times: seq<U64>, early: U64, late: U64)
    requires Ordered(times) && early <= late && Trails(window, times, early)
    ensures |Pruned(window, late)| == CountSince(times, late)
    ensures Trails(Pruned(window, late), times, late)
  {
    PrunedTrails(window, late);
    var pruned := Pruned(window, late);
    TrailsTransitive(pruned, window, times, early, late);
    var k := |times| - |pruned|;
    forall i | k <= i < |times|
      ensures times[i] >= late
    {
      assert times[i] == pruned[i - k] && times[k] == pruned[0];
    }
    CountOfSuffix(times, k, late);
  }

  /** At `now`: the window trails the log, and the decay anchor lies between the last note and now. */
  ghost predicate Paced(t: Trace, now: U64) {
    var times := Times(t.noted);
    && Ordered(times)
    && (times != [] ==> times[|times| - 1] <= t.controller.anchor && times[|times| - 1] <= now)
    && t.controller.anchor <= now
    && Trails(t.controller.window, times, Cutoff(now))
  }

  lemma DecayKeepsAnchorBelow(c: Controller, now: U64)
    requires c.anchor <= now
    ensures c.anchor <= Decay(c, now).anchor <= now
  {
  }

  lemma TrailsLater(window: seq<U64>, times: seq<U64>, early: U64, late: U64)
    requires early <= late && Trails(window, times, early)
    ensures Trails(window, times, late)
  {
  }

  lemma TrailsExtended(window: seq<U64>, times: seq<U64>, now: U64, cutoff: U64)
    requires Trails(window, times, cutoff)
    ensures Trails(window + [now], times + [now], cutoff)
  {
  }

  lemma EscalateKeepsTrail(c: Controller, times: seq<U64>, now: U64, early: U64, queueHigh: bool)
    requires early <= Cutoff(now) && Ordered(times) && Trails(c.window, times, early)
    ensures Trails(Escalate(c, now, queueHigh).window, times, Cutoff(now))
  {
    hide Trails, Pruned, Pressed;
    PrunedCountsLog(c.window, times, early, Cutoff(now));
    TrailsLater(c.window, times, early, Cutoff(now));
  }

  lemma NoteTimes(t: Trace, note: Noted)
    requires ValidTrace(t)
    ensures Times(AfterNote(t, note).noted) == Times(t.noted) + [note.at]
    ensures t.controller.mode == Adaptive ==>
              && AfterNote(t, note).controller.window == Arrive(t.controller, note.at).window
              && AfterNote(t, note).controller.rung == Arrive(t.controller, note.at).rung
              && AfterNote(t, note).controller.anchor == note.at
  {
    hide Decay, Escalate, SatAdd, SatSub;
  }

  lemma OrderedExtended(times: seq<U64>, now: U64)
    requires Ordered(times) && (times != [] ==> times[|times| - 1] <= now)
    ensures Ordered(times + [now])
  {
  }

  lemma NoteKeepsPace(t: Trace, last: U64, note: Noted)
    requires ValidTrace(t) && t.controller.mode == Adaptive && Paced(t, last) && last <= note.at
    ensures Paced(AfterNote(t, note), note.at)
  {
    hide Trails, Decay, Escalate, Ordered, Times, AfterNote, ValidRung;
    var times := Times(t.noted);
    var d := Decay(t.controller, note.at);
    NoteTimes(t, note);
    TrailsExtended(t.controller.window, times, note.at, Cutoff(last));
    OrderedExtended(times, note.at);
    EscalateKeepsTrail(d.(window := d.window + [note.at]), times + [note.at], note.at, Cutoff(last), false);
  }

  lemma SignalsKeepPace(t: Trace, last: U64, depth: U64, now: U64)
    requires t.controller.mode == Adaptive && Paced(t, last) && last <= now
    ensures Paced(t.(controller := Signals(t.controller, depth, now)), now)
  {
    hide Trails, Decay, Escalate, Ordered, Times;
    DecayKeepsAnchorBelow(t.controller, now);
    EscalateKeepsTrail(Decay(t.controller, now), Times(t.noted), now, Cutoff(last), depth > QUEUE_HIGH_WATER);
  }

  lemma PollKeepsPace(t: Trace, last: U64, now: U64)
    requires ValidTrace(t) && t.controller.mode == Adaptive && Paced(t, last) && last <= now
    ensures Paced(AfterPoll(t, now), now)
  {
    hide Trails, Decay, Ordered, Times, DueSlots, Pending, Released, Sorting.Sort, ValidRung;
    DecayKeepsAnchorBelow(t.controller, now);
    TrailsLater(t.controller.window, Times(t.noted), Cutoff(last), Cutoff(now));
  }

  lemma StepKeepsPace(t: Trace, last: U64, op: Op)
    requires ValidTrace(t) && t.controller.mode == Adaptive && Paced(t, last) && last <= op.now
    ensures Paced(Next(t, op), op.now)
  {
    hide Paced, AfterNote, AfterPoll, Signals, ValidTrace;
    match op
    case NoteOp(path, capture, now) => NoteKeepsPace(t, last, Noted(path, capture, now));
    case SignalsOp(depth, now) => SignalsKeepPace(t, last, depth, now);
    case PollOp(now) => PollKeepsPace(t, last, now);
  }

  lemma {:induction false} RunKeepsPace(config: Config, ops: seq<Op>)
    requires InOrder(ops)
    ensures Paced(Run(Adaptive, config, ops), LastTime(ops))
    ensures Run(Adaptive, config, ops).controller.mode == Adaptive
    ensures Run(Adaptive, config, ops).controller.config == Fresh(Adaptive, config).config
  {
    hide Next, ValidTrace;
    if ops != [] {
      var front := ops[..|ops| - 1];
      RunKeepsPace(config, front);
      StepKeepsConfig(Run(Adaptive, config, front), ops[|ops| - 1]);
      StepKeepsPace(Run(Adaptive, config, front), LastTime(front), ops[|ops| - 1]);
    }
  }

  /** The sliding window is exact: in every run with time moving forward, the rate observed next
      is the number of all notes ever made in the trailing second, although the window is not
      pruned at the top rung. */
  lemma RateCountsEveryNote(config: Config, ops: seq<Op>, now: U64)
    requires InOrder(ops) && LastTime(ops) <= now
    ensures |Pruned(Run(Adaptive, config, ops).controller.window, Cutoff(now))|
         == CountSince(Times(Run(Adaptive, config, ops).noted), Cutoff(now))
  {
    hide Run;
    RunKeepsPace(config, ops);
    var t := Run(Adaptive, config, ops);
    PrunedCountsLog(t.controller.window, Times(t.noted), Cutoff(LastTime(ops)), Cutoff(now));
  }

  /** The rung after an arrival, in terms of the whole log. */
  lemma ArrivalClimbsIff(c: Controller, times: seq<U64>, early: U64, now: U64)
    requires Ordered(times + [now]) && early <= Cutoff(now) && Trails(c.window, times, early)
    ensures var base := Decay(c, now).rung;
            Arrive(c, now).rung ==
            if base + 1 < |c.config.ladder|
               && (CountSince(times + [now], Cutoff(now)) as real > c.config.escalate || c.stagedBytes > c.config.maxStaged)
            then base + 1 else base
  {
    hide Decay, Pruned, CountSince, Trails, Ordered;
    TrailsExtended(c.window, times, now, early);
    PrunedCountsLog(c.window + [now], times + [now], early, Cutoff(now));
  }

  /** When a note climbs: not at the top rung, and either too many notes in the trailing second,
      itself included, or too many bytes staged before it. */
  lemma NoteClimbsIff(config: Config, ops: seq<Op>, note: Noted)
    requires InOrder(ops) && LastTime(ops) <= note.at
    ensures var t := Run(Adaptive, config, ops);
            var base := Decay(t.controller, note.at).rung;
            AfterNote(t, note).controller.rung ==
            if base + 1 < |t.controller.config.ladder|
               && (CountSince(Times(t.noted) + [note.at], Cutoff(note.at)) as real > config.escalate
                   || t.controller.stagedBytes > config.maxStaged)
            then base + 1 else base
  {
    hide Run, Decay, AfterNote, CountSince, Arrive, Trails, Ordered, Times, ValidTrace;
    RunKeepsPace(config, ops);
    var t := Run(Adaptive, config, ops);
    NoteTimes(t, note);
    OrderedExtended(Times(t.noted), note.at);
    ArrivalClimbsIff(t.controller, Times(t.noted), Cutoff(LastTime(ops)), note.at);
  }

  /** When fed signals climb: not at the top rung, and too many notes in the trailing second, too many
      staged bytes, or more than 64 writes queued. */
  lemma SignalsClimbIff(config: Config, ops: seq<Op>, depth: U64, now: U64)
    requires InOrder(ops) && LastTime(ops) <= now
    ensures var t := Run(Adaptive, config, ops);
            var base := Decay(t.controller, now).rung;
            Signals(t.controller, depth, now).rung ==
            if base + 1 < |t.controller.config.ladder|
               && (CountSince(Times(t.noted), Cutoff(now)) as real > config.escalate
                   || t.controller.stagedBytes > config.maxStaged || depth > 64)
            then base + 1 else base
  {
    hide Run, Decay, CountSince, Trails, Ordered, Times, Pruned;
    RunKeepsPace(config, ops);
    var t := Run(Adaptive, config, ops);
    PrunedCountsLog(t.controller.window, Times(t.noted), Cutoff(LastTime(ops)), Cutoff(now));
  }

  /** The rung never falls while calls come within the idle limit of the last note, nor at all when
      decay is disabled. */
  lemma RungHoldsWhileBusy(config: Config, ops: seq<Op>, op: Op)
    requires InOrder(ops) && LastTime(ops) <= op.now
    requires var log := Run(Adaptive, config, ops).noted;
             config.decayIdle == 0 || (log != [] && op.now < log[|log| - 1].at + config.decayIdle)
    ensures Run(Adaptive, config, ops).controller.rung <= Next(Run(Adaptive, config, ops), op).controller.rung
  {
    hide Run, Trails, DueSlots, Pending, Released, AfterNote, Pruned;
    RunKeepsPace(config, ops);
    var t := Run(Adaptive, config, ops);
    assert t.noted != [] ==> Times(t.noted)[|t.noted| - 1] == t.noted[|t.noted| - 1].at;
    NoDecayYet(t.controller, op.now);
    if op.NoteOp? {
      NoteTimes(t, Noted(op.path, op.capture, op.now));
    }
  }

  lemma NoDecayYet(c: Controller, now: U64)
    requires c.config.decayIdle == 0 || now < c.anchor + c.config.decayIdle
    ensures Decay(c, now) == c
  {
    if c.config.decayIdle != 0 && now > c.anchor {
      QuotientIsUnique(now - c.anchor, c.config.decayIdle, 0);
    }
  }

  /** No call moves the rung up by more than one. */
  lemma RungClimbsByOne(t: Trace, op: Op)
    requires ValidTrace(t)
    ensures Next(t, op).controller.rung <= t.controller.rung + 1
  {
    hide Decay, Pruned, DueSlots, Pending, Released, Pressed;
  }
}
