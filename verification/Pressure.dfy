/** The adaptive history pressure controller, updated in place, proved equal to `PressureSpec`. */
module Pressure {
  import opened Bytes
  import opened Clocks
  import opened Options
  import opened Paths
  import Sorting
  import opened PressureSpec

  class PressureController {
    const mode: Mode
    const config: Config
    var rung: nat
    var staging: Slots
    var stagedBytes: U64
    var window: seq<U64>
    var decayAnchor: U64

    constructor (mode: Mode, config: Config)
      ensures View() == Fresh(mode, config)
    {
      this.mode := mode;
      this.config := if config.ladder == [] then config.(ladder := [0]) else config;
      rung, staging, stagedBytes, window, decayAnchor := 0, map[], 0, [], 0;
    }

    ghost function View(): Controller
      reads this
    {
      Controller(mode, config, rung, staging, stagedBytes, window, decayAnchor)
    }

    ghost predicate Valid()
      reads this
    {
      ValidRung(View())
    }

    method NoteCapture(path: RelPath, capture: Capture, now: U64) returns (decision: Decision)
      requires Valid()
      modifies this
      ensures Valid()
      ensures Verdict(View(), decision) == Note(old(View()), path, capture, now)
    {
      hide Decay, Escalate, Decide;
      match mode
      case Off => decision := Dropped;
      case EveryChange => decision := Immediate;
      case IntervalMs(interval) =>
        decision := Stage(path, capture, now, interval);
      case Adaptive =>
        ApplyDecay(now);
        window := window + [now];
        ApplyEscalation(now, false);
        decayAnchor := now;
        assert View() == Arrive(old(View()), now);
        decision := Stage(path, capture, now, Max(config.ladder[rung], config.minWindow));
    }

    method Stage(path: RelPath, capture: Capture, now: U64, interval: U64) returns (decision: Decision)
      modifies this`staging, this`stagedBytes
      ensures Verdict(View(), decision) == Decide(old(View()), path, capture, now, interval)
    {
      if interval == 0 && path !in staging {
        return Immediate;
      }
      var ladderDue := SatAdd(now, interval);
      var due, prevBytes := ladderDue, 0;
      if path in staging {
        var existing := staging[path];
        due, prevBytes := Min(existing.due, ladderDue), existing.capture.size;
      }
      stagedBytes := SatAdd(SatSub(stagedBytes, prevBytes), capture.size);
      staging := staging[path := Staged(capture, now, due)];
      decision := Deferred(due);
    }

    method FeedSignals(historyQueueDepth: U64, now: U64)
      requires Valid()
      modifies this
      ensures Valid()
      ensures View() == Signals(old(View()), historyQueueDepth, now)
    {
      hide Decay, Escalate;
      if mode == Adaptive {
        ApplyDecay(now);
        ApplyEscalation(now, historyQueueDepth > QUEUE_HIGH_WATER);
      }
    }

    method Poll(now: U64) returns (out: seq<Slot>)
      requires Valid()
      modifies this
      ensures Valid()
      ensures Polled(View(), out) == PollDue(old(View()), now)
    {
      hide Decay, DueSlots, Released, Sorting.Sort;
      if mode == Adaptive {
        ApplyDecay(now);
      }
      assert View() == Settled(old(View()), now);
      var due := CollectDue(now);
      Remove(due, now);
      out := SortByDeadline(due);
    }

    /** Filter the slots in ascending path order. */
    method CollectDue(now: U64) returns (due: seq<Slot>)
      ensures due == DueSlots(staging, staging.Keys, now)
    {
      due := [];
      var todo := staging.Keys;
      while todo != {}
        invariant todo <= staging.Keys
        invariant due + DueSlots(staging, todo, now) == DueSlots(staging, staging.Keys, now)
        decreases todo
      {
        var p := FirstOf(todo);
        if staging[p].due <= now {
          Associate(due, [Slot(p, staging[p])], DueSlots(staging, todo - {p}, now));
          due := due + [Slot(p, staging[p])];
        } else {
          assert [] + DueSlots(staging, todo - {p}, now) == DueSlots(staging, todo - {p}, now);
        }
        todo := todo - {p};
      }
    }

    method Remove(due: seq<Slot>, now: U64)
      requires due == DueSlots(staging, staging.Keys, now)
      modifies this`staging, this`stagedBytes
      ensures staging == Pending(old(staging), now)
      ensures stagedBytes == Released(old(stagedBytes), due)
    {
      RemovedIsPending(staging, now);
      for n := 0 to |due|
        invariant staging == Removed(old(staging), due[..n])
        invariant stagedBytes == Released(old(stagedBytes), due[..n])
      {
        assert due[..n + 1][..n] == due[..n];
        stagedBytes := SatSub(stagedBytes, due[n].staged.capture.size);
        staging := staging - {due[n].path};
      }
      assert due[..|due|] == due;
    }

    static method SortByDeadline(slots: seq<Slot>) returns (sorted: seq<Slot>)
      ensures sorted == Sorting.Sort(ByDeadline(), slots)
    {
      sorted := [];
      for n := 0 to |slots|
        invariant sorted == Sorting.Sort(ByDeadline(), slots[..n])
      {
        assert slots[..n + 1][..n] == slots[..n];
        sorted := InsertByDeadline(sorted, slots[n]);
      }
      assert slots[..|slots|] == slots;
    }

    static method InsertByDeadline(sorted: seq<Slot>, slot: Slot) returns (result: seq<Slot>)
      ensures result == Sorting.Insert(ByDeadline(), sorted, slot)
    {
      if sorted == [] || CompareSlots(slot, sorted[|sorted| - 1]) != Less {
        return sorted + [slot];
      }
      result := InsertByDeadline(sorted[..|sorted| - 1], slot);
      result := result + [sorted[|sorted| - 1]];
    }

    /** The earliest staged deadline. */
    method NextDue() returns (next: Option<U64>)
      ensures next.None? <==> staging == map[]
      ensures next.Some? ==> exists p :: p in staging && staging[p].due == next.value
      ensures next.Some? ==> forall p :: p in staging ==> next.value <= staging[p].due
    {
      next := None;
      var todo := staging.Keys;
      while todo != {}
        invariant todo <= staging.Keys
        invariant next.None? ==> todo == staging.Keys
        invariant next.Some? ==> exists p :: p in staging && staging[p].due == next.value
        invariant next.Some? ==> forall p :: p in staging.Keys - todo ==> next.value <= staging[p].due
        decreases todo
      {
        var p :| p in todo;
        var due := staging[p].due;
        if next.None? || due < next.value {
          next := Some(due);
        }
        todo := todo - {p};
      }
    }

    method ApplyDecay(now: U64)
      modifies this`rung, this`decayAnchor
      ensures View() == Decay(old(View()), now)
    {
      if config.decayIdle == 0 || now <= decayAnchor {
        return;
      }
      var idle := now - decayAnchor;
      var steps := idle / config.decayIdle;
      if steps == 0 {
        return;
      }
      WholePeriods(idle, config.decayIdle);
      rung := SatSub(rung, steps);
      decayAnchor := SatAdd(decayAnchor, steps * config.decayIdle);
    }

    method ApplyEscalation(now: U64, queueHigh: bool)
      modifies this`rung, this`window
      ensures View() == Escalate(old(View()), now, queueHigh)
    {
      if rung + 1 >= |config.ladder| {
        return;
      }
      var rate := ObservedRate(now);
      if rate as real > config.escalate || stagedBytes > config.maxStaged || queueHigh {
        rung := rung + 1;
      }
    }

    /** Prune the window and count what is left. */
    method ObservedRate(now: U64) returns (rate: nat)
      modifies this`window
      ensures window == Pruned(old(window), SatSub(now, RATE_WINDOW_MS))
      ensures rate == |window|
    {
      var cutoff := SatSub(now, RATE_WINDOW_MS);
      while window != [] && window[0] < cutoff
        invariant Pruned(window, cutoff) == Pruned(old(window), cutoff)
        decreases |window|
      {
        window := window[1..];
      }
      rate := |window|;
    }
  }

  /** The slots left after removing the listed paths one by one. */
  ghost function Removed(staging: Slots, slots: seq<Slot>): Slots {
    if slots == [] then staging else Removed(staging, slots[..|slots| - 1]) - {slots[|slots| - 1].path}
  }

  ghost predicate Lists(slots: seq<Slot>, p: RelPath) {
    exists i :: 0 <= i < |slots| && slots[i].path == p
  }

  lemma {:induction false} RemovedMembers(staging: Slots, slots: seq<Slot>)
    ensures Removed(staging, slots) == map p | p in staging && !Lists(slots, p) :: staging[p]
  {
    if slots == [] {
      assert forall p :: !Lists(slots, p);
    } else {
      var front, last := slots[..|slots| - 1], slots[|slots| - 1];
      RemovedMembers(staging, front);
      forall p
        ensures Lists(slots, p) <==> Lists(front, p) || p == last.path
      {
        if Lists(front, p) {
          var i :| 0 <= i < |front| && front[i].path == p;
          assert slots[i].path == p;
        }
        if p == last.path {
          assert slots[|slots| - 1].path == p;
        }
      }
    }
  }

  lemma RemovedIsPending(staging: Slots, now: U64)
    ensures Removed(staging, DueSlots(staging, staging.Keys, now)) == Pending(staging, now)
  {
    hide DueSlots, Removed;
    var due := DueSlots(staging, staging.Keys, now);
    RemovedMembers(staging, due);
    DueSlotsMembers(staging, staging.Keys, now);
    forall p | p in staging
      ensures Lists(due, p) <==> staging[p].due <= now
    {
      if staging[p].due <= now {
        assert Slot(p, staging[p]) in due;
      }
    }
  }

  /** Every due slot is listed, and nothing else is. */
  lemma {:induction false} DueSlotsMembers(staging: Slots, todo: set<RelPath>, now: U64)
    requires todo <= staging.Keys
    ensures forall i :: 0 <= i < |DueSlots(staging, todo, now)| ==>
              var s := DueSlots(staging, todo, now)[i];
              s.path in todo && s.staged == staging[s.path] && s.staged.due <= now
    ensures forall p :: p in todo && staging[p].due <= now ==> Slot(p, staging[p]) in DueSlots(staging, todo, now)
    decreases |todo|
  {
    if todo != {} {
      DueSlotsMembers(staging, todo - {FirstPath(todo)}, now);
    }
  }
}
