/** The history pressure controller on values: what each call does to the staging slots, the
    rung, the rate window and the decay anchor. The class in `Pressure` is proved equal to it. */
module PressureSpec {
  import opened Bytes
  import opened Clocks
  import opened Paths
  import opened Versions
  import Sorting

  const RATE_WINDOW_MS: U64 := 1000
  const QUEUE_HIGH_WATER: U64 := 64

  datatype Mode = Adaptive | EveryChange | Off | IntervalMs(interval: U64)

  datatype Config = Config(ladder: seq<U64>, escalate: real, decayIdle: U64, maxStaged: U64, minWindow: U64)

  datatype Capture = Capture(state: EntryState, version: Clock, isLocal: bool, size: U64)

  /** A parked capture: when its content entered the slot, and when it must leave it. */
  datatype Staged = Staged(capture: Capture, stagedAt: U64, due: U64)
  type Slots = map<RelPath, Staged>
  datatype Slot = Slot(path: RelPath, staged: Staged)

  datatype Decision = Immediate | Deferred(due: U64) | Dropped

  datatype Controller = Controller(mode: Mode, config: Config, rung: nat, staging: Slots,
                                   stagedBytes: U64, window: seq<U64>, anchor: U64)

  function SatSub(a: nat, b: nat): (r: nat)
    ensures r <= a
  {
    if a < b then 0 else a - b
  }

  function Min(a: U64, b: U64): U64 {
    if b < a then b else a
  }

  /** The rung is a valid index into the ladder. */
  ghost predicate ValidRung(c: Controller) {
    c.rung < |c.config.ladder|
  }

  /** A new controller; an empty ladder is replaced by `[0]`. */
  ghost function Fresh(mode: Mode, config: Config): (c: Controller)
    ensures ValidRung(c)
  {
    Controller(mode, if config.ladder == [] then config.(ladder := [0]) else config, 0, map[], 0, [], 0)
  }

  // ---- Decay, rate and escalation ----

  /** One rung per whole idle period since the anchor, which advances by the periods consumed. */
  ghost function Decay(c: Controller, now: U64): (d: Controller)
    ensures d.rung <= c.rung
    ensures d == c.(rung := d.rung, anchor := d.anchor)
  {
    if c.config.decayIdle == 0 || now <= c.anchor then c
    else
      var steps := (now - c.anchor) / c.config.decayIdle;
      WholePeriods(now - c.anchor, c.config.decayIdle);
      c.(rung := SatSub(c.rung, steps), anchor := c.anchor + steps * c.config.decayIdle)
  }

  lemma WholePeriods(elapsed: nat, period: nat)
    requires period > 0
    ensures 0 <= (elapsed / period) * period <= elapsed
  {
  }

  /** The window without its leading timestamps before `cutoff`. */
  ghost function Pruned(window: seq<U64>, cutoff: U64): seq<U64> {
    if window != [] && window[0] < cutoff then Pruned(window[1..], cutoff) else window
  }

  ghost predicate Pressed(c: Controller, rate: nat, queueHigh: bool) {
    rate as real > c.config.escalate || c.stagedBytes > c.config.maxStaged || queueHigh
  }

  /** Climb at most one rung; below the top rung this also prunes the window. */
  ghost function Escalate(c: Controller, now: U64, queueHigh: bool): (d: Controller)
    ensures d == c.(rung := d.rung, window := d.window)
    ensures ValidRung(c) ==> ValidRung(d)
  {
    if c.rung + 1 >= |c.config.ladder| then c
    else
      var window := Pruned(c.window, SatSub(now, RATE_WINDOW_MS));
      c.(window := window, rung := if Pressed(c, |window|, queueHigh) then c.rung + 1 else c.rung)
  }

  // ---- Noting ----

  datatype Verdict = Verdict(controller: Controller, decision: Decision)

  function SizeAt(staging: Slots, path: RelPath): U64 {
    if path in staging then staging[path].capture.size else 0
  }

  /** A replacement keeps the earlier deadline. */
  function DueAt(staging: Slots, path: RelPath, due: U64): U64 {
    if path in staging then Min(staging[path].due, due) else due
  }

  ghost function Decide(c: Controller, path: RelPath, capture: Capture, now: U64, interval: U64): Verdict {
    if interval == 0 && path !in c.staging then Verdict(c, Immediate)
    else
      var due := DueAt(c.staging, path, SatAdd(now, interval));
      Verdict(c.(stagedBytes := SatAdd(SatSub(c.stagedBytes, SizeAt(c.staging, path)), capture.size),
                 staging := c.staging[path := Staged(capture, now, due)]),
              Deferred(due))
  }

  /** An adaptive note before staging: decay, count the arrival, escalate, restart the countdown. */
  ghost function Arrive(c: Controller, now: U64): (d: Controller)
    ensures d.staging == c.staging && d.stagedBytes == c.stagedBytes && d.config == c.config && d.mode == c.mode
    ensures ValidRung(c) ==> ValidRung(d)
  {
    var decayed := Decay(c, now);
    Escalate(decayed.(window := decayed.window + [now]), now, false).(anchor := now)
  }

  ghost function Note(c: Controller, path: RelPath, capture: Capture, now: U64): (v: Verdict)
    requires ValidRung(c)
    ensures ValidRung(v.controller)
  {
    match c.mode
    case Off => Verdict(c, Dropped)
    case EveryChange => Verdict(c, Immediate)
    case IntervalMs(interval) => Decide(c, path, capture, now, interval)
    case Adaptive =>
      var d := Arrive(c, now);
      Decide(d, path, capture, now, Max(d.config.ladder[d.rung], d.config.minWindow))
  }

  ghost function Signals(c: Controller, depth: U64, now: U64): (d: Controller)
    ensures ValidRung(c) ==> ValidRung(d)
  {
    if c.mode == Adaptive then Escalate(Decay(c, now), now, depth > QUEUE_HIGH_WATER) else c
  }

  // ---- Polling ----

  datatype Polled = Polled(controller: Controller, flushed: seq<Slot>)

  /** The due slots among `todo`, in ascending path order. */
  ghost function DueSlots(staging: Slots, todo: set<RelPath>, now: U64): seq<Slot>
    requires todo <= staging.Keys
    decreases |todo|
  {
    if todo == {} then []
    else
      var p := FirstPath(todo);
      (if staging[p].due <= now then [Slot(p, staging[p])] else []) + DueSlots(staging, todo - {p}, now)
  }

  ghost function Pending(staging: Slots, now: U64): Slots {
    map p | p in staging && staging[p].due > now :: staging[p]
  }

  /** The running total after the slots have left one by one. */
  ghost function Released(bytes: U64, slots: seq<Slot>): U64 {
    if slots == [] then bytes
    else SatSub(Released(bytes, slots[..|slots| - 1]), slots[|slots| - 1].staged.capture.size)
  }

  function CompareSlots(a: Slot, b: Slot): Ordering {
    CompareNat(a.staged.due, b.staged.due).Then(CompareBytes(a.path.text, b.path.text))
  }

  /** Ascending `(due, path)`. */
  ghost function ByDeadline(): (Slot, Slot) -> Ordering {
    (a: Slot, b: Slot) => CompareSlots(a, b)
  }

  ghost function Settled(c: Controller, now: U64): (d: Controller)
    ensures d == c.(rung := d.rung, anchor := d.anchor) && d.rung <= c.rung
  {
    if c.mode == Adaptive then Decay(c, now) else c
  }

  ghost function PollDue(c: Controller, now: U64): (r: Polled)
    ensures ValidRung(c) ==> ValidRung(r.controller)
  {
    var d := Settled(c, now);
    var due := DueSlots(d.staging, d.staging.Keys, now);
    Polled(d.(staging := Pending(d.staging, now), stagedBytes := Released(d.stagedBytes, due)),
           Sorting.Sort(ByDeadline(), due))
  }
}
