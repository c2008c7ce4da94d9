/** What the pressure controller guarantees over every sequence of calls: no final write is lost,
    every capture is accounted for, and no slot waits longer than the longest interval. */
module PressureRuns {
  import opened Bytes
  import Clocks
  import opened Options
  import opened Paths
  import opened PressureSpec
  import Pressure
  import Sorting

  datatype Op = NoteOp(path: RelPath, capture: Capture, now: U64)
              | SignalsOp(depth: U64, now: U64)
              | PollOp(now: U64)

  /** A capture as it was noted. */
  datatype Noted = Noted(path: RelPath, capture: Capture, at: U64)

  /** A controller together with what its caller has observed: every capture noted, every capture
      recorded (at once, or by a poll), every staged capture that a newer one replaced, and since
      when each path has had an unrecorded capture. */
  datatype Trace = Trace(controller: Controller, noted: seq<Noted>, recorded: seq<Noted>,
                         superseded: multiset<Noted>, openSince: map<RelPath, U64>)

  function NoteOf(slot: Slot): Noted {
    Noted(slot.path, slot.staged.capture, slot.staged.stagedAt)
  }

  function NotesOf(slots: seq<Slot>): (r: seq<Noted>)
    ensures |r| == |slots|
  {
    seq(|slots|, i requires 0 <= i < |slots| => NoteOf(slots[i]))
  }

  ghost predicate ValidTrace(t: Trace) {
    && ValidRung(t.controller)
    && (t.controller.mode == EveryChange || t.controller.mode == Off ==> t.controller.staging == map[])
  }

  ghost function AfterNote(t: Trace, note: Noted): (t': Trace)
    requires ValidTrace(t)
    ensures ValidTrace(t')
  {
    var v := Note(t.controller, note.path, note.capture, note.at);
    var noted := t.noted + [note];
    match v.decision
    case Dropped => t.(controller := v.controller, noted := noted)
    case Immediate =>
      t.(controller := v.controller, noted := noted, recorded := t.recorded + [note], openSince := t.openSince - {note.path})
    case Deferred(_) =>
      Trace(v.controller, noted, t.recorded,
            if note.path in t.controller.staging
            then t.superseded + multiset{NoteOf(Slot(note.path, t.controller.staging[note.path]))}
            else t.superseded,
            if note.path in t.openSince then t.openSince else t.openSince[note.path := note.at])
  }

  ghost function AfterPoll(t: Trace, now: U64): (t': Trace)
    requires ValidTrace(t)
    ensures ValidTrace(t')
  {
    var r := PollDue(t.controller, now);
    PollIsExact(t.controller, now);
    t.(controller := r.controller, recorded := t.recorded + NotesOf(r.flushed),
       openSince := map p | p in t.openSince && !Pressure.Lists(r.flushed, p) :: t.openSince[p])
  }

  ghost function Next(t: Trace, op: Op): (t': Trace)
    requires ValidTrace(t)
    ensures ValidTrace(t')
  {
    match op
    case NoteOp(path, capture, now) => AfterNote(t, Noted(path, capture, now))
    case SignalsOp(depth, now) => t.(controller := Signals(t.controller, depth, now))
    case PollOp(now) => AfterPoll(t, now)
  }

  ghost function Run(mode: Mode, config: Config, ops: seq<Op>): (t: Trace)
    ensures ValidTrace(t)
  {
    if ops == [] then Trace(Fresh(mode, config), [], [], multiset{}, map[])
    else Next(Run(mode, config, ops[..|ops| - 1]), ops[|ops| - 1])
  }

  // ---- What one call does ----

  /** The interval a note is staged with. */
  ghost function IntervalOf(c: Controller, now: U64): U64
    requires ValidRung(c)
  {
    match c.mode
    case IntervalMs(interval) => interval
    case Adaptive => var d := Arrive(c, now); Clocks.Max(d.config.ladder[d.rung], d.config.minWindow)
    case _ => 0
  }

  lemma NoteEffect(c: Controller, path: RelPath, capture: Capture, now: U64)
    requires ValidRung(c)
    ensures var v := Note(c, path, capture, now);
            && v.controller.mode == c.mode && v.controller.config == c.config
            && match v.decision
               case Dropped => c.mode == Off && v.controller == c
               case Immediate =>
                 (c.mode == EveryChange || (path !in c.staging && IntervalOf(c, now) == 0))
                 && v.controller.staging == c.staging && v.controller.stagedBytes == c.stagedBytes
               case Deferred(due) =>
                 && c.mode != Off && c.mode != EveryChange
                 && due == DueAt(c.staging, path, SatAdd(now, IntervalOf(c, now)))
                 && v.controller.staging == c.staging[path := Staged(capture, now, due)]
                 && v.controller.stagedBytes == SatAdd(SatSub(c.stagedBytes, SizeAt(c.staging, path)), capture.size)
  {
    hide Arrive, Decay, Escalate;
  }

  /** The interval a note is staged with, spelled out: none to wait for in every-change mode, the given one
      in interval mode, and in adaptive mode the larger of the new rung's interval and the minimum
      window. */
  ghost predicate WaitsFor(c: Controller, after: Controller, interval: U64) {
    match c.mode
    case Off => false
    case EveryChange => interval == 0
    case IntervalMs(given) => interval == given
    case Adaptive =>
      && after.rung < |c.config.ladder|
      && c.config.ladder[after.rung] <= interval && c.config.minWindow <= interval
      && (interval == c.config.ladder[after.rung] || interval == c.config.minWindow)
  }

  /** What a note decides. It is recorded at once if and only if there is nothing to wait for and nothing
      staged; otherwise it is staged now, due after the interval or when the slot was due already,
      whichever is earlier, saturating at the end of time. */
  lemma NoteDecides(c: Controller, path: RelPath, capture: Capture, now: U64) returns (interval: U64)
    requires ValidRung(c) && c.mode != Off && (c.mode == EveryChange ==> c.staging == map[])
    ensures var v := Note(c, path, capture, now);
            && WaitsFor(c, v.controller, interval)
            && (v.decision == Immediate <==> interval == 0 && path !in c.staging)
            && (v.decision != Immediate ==>
                  var slot := v.controller.staging[path];
                  var due := if now + interval > U64_MAX then U64_MAX else now + interval;
                  && v.decision == Deferred(slot.due) && slot.capture == capture && slot.stagedAt == now
                  && slot.due == if path in c.staging && c.staging[path].due < due then c.staging[path].due else due)
  {
    hide Arrive;
    interval := IntervalOf(c, now);
  }

  lemma SignalsEffect(c: Controller, depth: U64, now: U64)
    ensures Signals(c, depth, now) == c.(rung := Signals(c, depth, now).rung, window := Signals(c, depth, now).window,
                                         anchor := Signals(c, depth, now).anchor)
  {
    hide Decay, Escalate;
  }

  /** Only the adaptive mode has a pace: in the others no call ever touches rung, window or anchor. */
  lemma OnlyAdaptivePaces(t: Trace, op: Op)
    requires ValidTrace(t) && t.controller.mode != Adaptive
    ensures Next(t, op).controller.rung == t.controller.rung
    ensures Next(t, op).controller.window == t.controller.window
    ensures Next(t, op).controller.anchor == t.controller.anchor
    ensures op.SignalsOp? ==> Next(t, op) == t
  {
    hide DueSlots, Pending, Released, Sorting.Sort;
  }

  lemma CompareSlotsIsTotal()
    ensures Sorting.TotalPreorder(ByDeadline())
  {
    forall a: Slot, b: Slot
      ensures ByDeadline()(b, a) == ByDeadline()(a, b).Reversed()
    {
      CompareReversed(a.path.text, b.path.text);
    }
    forall a: Slot, b: Slot, c: Slot | Sorting.Chain(ByDeadline(), a, b, c)
      ensures ByDeadline()(a, c) != Greater
    {
      if a.staged.due == b.staged.due == c.staged.due {
        CompareTransitive(a.path.text, b.path.text, c.path.text);
      }
    }
  }

  /** The due slots have distinct paths. */
  lemma {:induction false} DueSlotsDistinct(staging: Slots, todo: set<RelPath>, now: U64)
    requires todo <= staging.Keys
    ensures forall s :: multiset(DueSlots(staging, todo, now))[s] <= 1
    decreases |todo|
  {
    if todo != {} {
      var p := FirstPath(todo);
      var rest := DueSlots(staging, todo - {p}, now);
      DueSlotsDistinct(staging, todo - {p}, now);
      Pressure.DueSlotsMembers(staging, todo - {p}, now);
      assert Slot(p, staging[p]) !in rest;
    }
  }

  ghost predicate IsDue(staging: Slots, slot: Slot, now: U64) {
    slot.path in staging && slot.staged == staging[slot.path] && slot.staged.due <= now
  }

  /** An earlier deadline, or the same one and a smaller path. */
  ghost predicate Before(a: Slot, b: Slot) {
    a.staged.due < b.staged.due || (a.staged.due == b.staged.due && CompareBytes(a.path.text, b.path.text) == Less)
  }

  ghost predicate Ascending(slots: seq<Slot>) {
    forall i, j :: 0 <= i < j < |slots| ==> Before(slots[i], slots[j])
  }

  lemma LessIsBefore(a: Slot, b: Slot)
    ensures CompareSlots(a, b) == Less <==> Before(a, b)
  {
  }

  /** A poll returns exactly the due slots, in strictly ascending `(due, path)` order, and keeps
      exactly the others. */
  lemma PollIsExact(c: Controller, now: U64)
    ensures forall s :: s in PollDue(c, now).flushed <==> IsDue(c.staging, s, now)
    ensures Ascending(PollDue(c, now).flushed)
    ensures PollDue(c, now).controller.staging == Pending(c.staging, now)
    ensures PollDue(c, now).controller.mode == c.mode && PollDue(c, now).controller.config == c.config
  {
    hide Sorting.Sort, DueSlots, Decay, CompareSlots, Before;
    var due := DueSlots(c.staging, c.staging.Keys, now);
    var flushed := PollDue(c, now).flushed;
    CompareSlotsIsTotal();
    Sorting.SortIsSortedPermutation(ByDeadline(), due);
    Pressure.DueSlotsMembers(c.staging, c.staging.Keys, now);
    DueSlotsDistinct(c.staging, c.staging.Keys, now);
    forall s
      ensures s in flushed <==> IsDue(c.staging, s, now)
    {
      assert s in flushed <==> s in multiset(flushed);
      assert s in due <==> s in multiset(due);
    }
    forall i, j | 0 <= i < j < |flushed|
      ensures Before(flushed[i], flushed[j])
    {
      LessIsBefore(flushed[i], flushed[j]);
      assert ByDeadline()(flushed[i], flushed[j]) != Greater;
      assert flushed[i] in flushed && flushed[j] in flushed;
      SameSlotIfEqual(flushed[i], flushed[j]);
      if flushed[i] == flushed[j] {
        TwiceCounted(flushed, i, j);
        assert false;
      }
    }
  }

  lemma SameSlotIfEqual(a: Slot, b: Slot)
    ensures CompareSlots(a, b) == Equal ==> a.path == b.path
  {
    CompareEqual(a.path.text, b.path.text);
  }

  lemma TwiceCounted<T>(xs: seq<T>, i: nat, j: nat)
    requires i < j < |xs| && xs[i] == xs[j]
    ensures multiset(xs)[xs[i]] >= 2
  {
    assert xs == xs[..j] + [xs[j]] + xs[j + 1..];
    assert xs[..j][i] == xs[i];
    assert xs[i] in multiset(xs[..j]);
  }

  // ---- No lost final write ----

  ghost function Newest(log: seq<Noted>, path: RelPath): Option<Noted> {
    if log == [] then None
    else if log[|log| - 1].path == path then Some(log[|log| - 1])
    else Newest(log[..|log| - 1], path)
  }

  lemma NewestOfExtended(log: seq<Noted>, note: Noted, path: RelPath)
    ensures Newest(log + [note], path) == if note.path == path then Some(note) else Newest(log, path)
  {
    assert (log + [note])[..|log|] == log;
  }

  ghost predicate Mentions(log: seq<Noted>, path: RelPath) {
    exists i :: 0 <= i < |log| && log[i].path == path
  }

  lemma {:induction false} NewestOfAppended(log: seq<Noted>, more: seq<Noted>, path: RelPath)
    ensures Newest(log + more, path) == if Mentions(more, path) then Newest(more, path) else Newest(log, path)
    ensures Mentions(more, path) ==> Newest(more, path).Some? && Newest(more, path).value in more && Newest(more, path).value.path == path
  {
    if more == [] {
      assert log + more == log;
    } else {
      var front, last := more[..|more| - 1], more[|more| - 1];
      NewestOfAppended(log, front, path);
      assert log + more == (log + front) + [last];
      NewestOfExtended(log + front, last, path);
      if last.path == path {
        assert more[|more| - 1].path == path;
      } else if Mentions(front, path) {
        var i :| 0 <= i < |front| && front[i].path == path;
        assert more[i].path == path;
      } else {
        assert forall i :: 0 <= i < |front| ==> more[i] == front[i];
      }
    }
  }

  /** The newest capture of a path is the staged one, or else the newest recorded one. */
  ghost predicate FinalWriteKept(t: Trace, path: RelPath) {
    Newest(t.noted, path) ==
    if path in t.controller.staging then Some(NoteOf(Slot(path, t.controller.staging[path])))
    else Newest(t.recorded, path)
  }

  ghost predicate NothingLost(t: Trace) {
    t.controller.mode != Off && forall path :: FinalWriteKept(t, path)
  }

  lemma NoteLosesNothing(t: Trace, note: Noted)
    requires ValidTrace(t) && NothingLost(t)
    ensures NothingLost(AfterNote(t, note))
  {
    hide Note, IntervalOf, Newest, SatAdd, SatSub;
    NoteEffect(t.controller, note.path, note.capture, note.at);
    forall path
      ensures FinalWriteKept(AfterNote(t, note), path)
    {
      assert FinalWriteKept(t, path);
      NewestOfExtended(t.noted, note, path);
      NewestOfExtended(t.recorded, note, path);
    }
  }

  lemma FlushedMentions(c: Controller, now: U64, path: RelPath)
    ensures path in c.staging && c.staging[path].due <= now
            ==> Newest(NotesOf(PollDue(c, now).flushed), path) == Some(NoteOf(Slot(path, c.staging[path])))
                && Mentions(NotesOf(PollDue(c, now).flushed), path)
    ensures !(path in c.staging && c.staging[path].due <= now) ==> !Mentions(NotesOf(PollDue(c, now).flushed), path)
  {
    hide PollDue, Newest, Ascending;
    PollIsExact(c, now);
    var flushed := PollDue(c, now).flushed;
    var notes := NotesOf(flushed);
    NewestOfAppended([], notes, path);
    forall i | 0 <= i < |notes| && notes[i].path == path
      ensures IsDue(c.staging, flushed[i], now) && flushed[i].path == path && notes[i] == NoteOf(flushed[i])
    {
      assert flushed[i] in flushed;
    }
    if path in c.staging && c.staging[path].due <= now {
      var slot := Slot(path, c.staging[path]);
      assert IsDue(c.staging, slot, now);
      var i :| 0 <= i < |flushed| && flushed[i] == slot;
      assert notes[i].path == path;
    }
  }

  lemma PollLosesNothing(t: Trace, now: U64)
    requires ValidTrace(t) && NothingLost(t)
    ensures NothingLost(AfterPoll(t, now))
  {
    hide PollDue, Newest, IsDue, Ascending;
    PollIsExact(t.controller, now);
    var notes := NotesOf(PollDue(t.controller, now).flushed);
    forall path
      ensures FinalWriteKept(AfterPoll(t, now), path)
    {
      assert FinalWriteKept(t, path);
      FlushedMentions(t.controller, now, path);
      NewestOfAppended(t.recorded, notes, path);
    }
  }

  /** No lost final write: in every run of a mode other than `Off`, whatever the timestamps, the
      newest capture noted for a path is recorded already, or is exactly the staged one. */
  lemma {:induction false} NoLostFinalWrite(mode: Mode, config: Config, ops: seq<Op>)
    requires mode != Off
    ensures NothingLost(Run(mode, config, ops))
  {
    hide NothingLost, AfterNote, AfterPoll, ValidTrace;
    if ops == [] {
      StartLosesNothing(mode, config);
    } else {
      var before, op := Run(mode, config, ops[..|ops| - 1]), ops[|ops| - 1];
      NoLostFinalWrite(mode, config, ops[..|ops| - 1]);
      match op {
        case NoteOp(path, capture, now) => NoteLosesNothing(before, Noted(path, capture, now));
        case SignalsOp(depth, now) => SignalsLoseNothing(before, depth, now);
        case PollOp(now) => PollLosesNothing(before, now);
      }
    }
  }

  lemma StartLosesNothing(mode: Mode, config: Config)
    requires mode != Off
    ensures NothingLost(Run(mode, config, []))
  {
  }

  lemma SignalsLoseNothing(t: Trace, depth: U64, now: U64)
    requires ValidTrace(t) && NothingLost(t)
    ensures NothingLost(Next(t, SignalsOp(depth, now)))
  {
    hide Newest, Signals;
    SignalsEffect(t.controller, depth, now);
    forall path
      ensures FinalWriteKept(Next(t, SignalsOp(depth, now)), path)
    {
      assert FinalWriteKept(t, path);
    }
  }

  /** Every capture a poll flushes is the newest noted for its path. */
  lemma FlushedIsNewest(mode: Mode, config: Config, ops: seq<Op>, now: U64, slot: Slot)
    requires mode != Off
    requires slot in PollDue(Run(mode, config, ops).controller, now).flushed
    ensures Newest(Run(mode, config, ops).noted, slot.path) == Some(NoteOf(slot))
  {
    hide Run, PollDue, Newest;
    var t := Run(mode, config, ops);
    NoLostFinalWrite(mode, config, ops);
    PollIsExact(t.controller, now);
    assert FinalWriteKept(t, slot.path);
  }

  /** `Off` is the one exception: it records nothing at all. */
  lemma {:induction false} OffRecordsNothing(config: Config, ops: seq<Op>)
    ensures Run(Off, config, ops).recorded == []
    ensures Run(Off, config, ops).controller == Fresh(Off, config)
  {
    hide Sorting.Sort;
    if ops != [] {
      OffRecordsNothing(config, ops[..|ops| - 1]);
      var c := Run(Off, config, ops[..|ops| - 1]).controller;
      if ops[|ops| - 1].PollOp? {
        PollIsExact(c, ops[|ops| - 1].now);
        NoneFlushed(c, ops[|ops| - 1].now);
      }
    }
  }

  lemma NoneFlushed(c: Controller, now: U64)
    requires c.staging == map[]
    ensures PollDue(c, now).flushed == []
    ensures c.mode == Off ==> PollDue(c, now).controller == c
  {
    assert DueSlots(c.staging, c.staging.Keys, now) == [];
    assert Pending(c.staging, now) == map[];
  }

  /** Nothing ever waits. */
  ghost predicate NeverWaits(mode: Mode, config: Config) {
    match mode
    case Off => false
    case EveryChange => true
    case IntervalMs(interval) => interval == 0
    case Adaptive => config.minWindow == 0 && forall i :: 0 <= i < |config.ladder| ==> config.ladder[i] == 0
  }

  /** `EveryChange`, an interval of zero, and an adaptive ladder that is empty or all zero without a
      minimum window, record every capture as it comes. */
  lemma {:induction false} ImmediateModesRecordAll(mode: Mode, config: Config, ops: seq<Op>)
    requires NeverWaits(mode, config)
    ensures Run(mode, config, ops).recorded == Run(mode, config, ops).noted
    ensures Run(mode, config, ops).controller.staging == map[] && Run(mode, config, ops).controller.mode == mode
    ensures Run(mode, config, ops).controller.config == Fresh(mode, config).config
  {
    hide PollDue, Note, Signals, Newest, IntervalOf;
    if ops != [] {
      var before, op := Run(mode, config, ops[..|ops| - 1]), ops[|ops| - 1];
      ImmediateModesRecordAll(mode, config, ops[..|ops| - 1]);
      match op {
        case NoteOp(path, capture, now) =>
          NoteEffect(before.controller, path, capture, now);
          var interval := NoteDecides(before.controller, path, capture, now);
        case SignalsOp(depth, now) => SignalsEffect(before.controller, depth, now);
        case PollOp(now) => PollIsExact(before.controller, now); NoneFlushed(before.controller, now);
      }
    }
  }

  // ---- Conservation ----

  ghost function StagedNotes(staging: Slots): set<Noted> {
    set p | p in staging :: NoteOf(Slot(p, staging[p]))
  }

  /** Noted = recorded + superseded + staged, each counted once. */
  ghost predicate Conserved(t: Trace) {
    multiset(t.noted) == multiset(t.recorded) + t.superseded + multiset(StagedNotes(t.controller.staging))
  }

  lemma StagedNotesAfterUpdate(staging: Slots, p: RelPath, s: Staged)
    ensures multiset(StagedNotes(staging[p := s])) + (if p in staging then multiset{NoteOf(Slot(p, staging[p]))} else multiset{})
         == multiset(StagedNotes(staging)) + multiset{NoteOf(Slot(p, s))}
  {
    var rest := StagedNotes(staging - {p});
    forall x
      ensures x in StagedNotes(staging[p := s]) <==> x in rest || x == NoteOf(Slot(p, s))
      ensures p in staging ==> (x in StagedNotes(staging) <==> x in rest || x == NoteOf(Slot(p, staging[p])))
      ensures p !in staging ==> (x in StagedNotes(staging) <==> x in rest)
    {
      var before, after := staging, staging[p := s];
      if x in rest {
        assert x.path in before - {p} && x == NoteOf(Slot(x.path, before[x.path]));
        assert x.path in after && x.path != p && after[x.path] == before[x.path];
      }
      assert p in after && after[p] == s;
      if x in StagedNotes(before) && x.path != p {
        assert x.path in before - {p};
      }
      if x in StagedNotes(after) && x.path != p {
        assert x.path in before - {p};
      }
    }
    assert forall x :: x in rest ==> x.path != p;
    assert multiset(StagedNotes(staging[p := s])) == multiset(rest) + multiset{NoteOf(Slot(p, s))};
    if p in staging {
      assert multiset(StagedNotes(staging)) == multiset(rest) + multiset{NoteOf(Slot(p, staging[p]))};
    } else {
      assert StagedNotes(staging) == rest;
    }
  }

  lemma NotesInOrder(t: Trace, note: Noted)
    ensures multiset(t.noted + [note]) == multiset(t.noted) + multiset{note}
    ensures multiset(t.recorded + [note]) == multiset(t.recorded) + multiset{note}
  {
  }

  lemma Balance<T>(noted: multiset<T>, recorded: multiset<T>, superseded: multiset<T>, staged: multiset<T>,
                   enters: multiset<T>, leaves: multiset<T>, restaged: multiset<T>)
    requires noted == recorded + superseded + staged && restaged + leaves == staged + enters
    ensures noted + enters == recorded + (superseded + leaves) + restaged
  {
    forall x
      ensures (noted + enters)[x] == (recorded + (superseded + leaves) + restaged)[x]
    {
      assert (restaged + leaves)[x] == (staged + enters)[x];
    }
  }

  lemma NoteConserves(t: Trace, note: Noted)
    requires ValidTrace(t) && Conserved(t) && t.controller.mode != Off
    ensures Conserved(AfterNote(t, note))
  {
    hide Note, IntervalOf, SatAdd, SatSub, StagedNotes;
    NoteEffect(t.controller, note.path, note.capture, note.at);
    NotesInOrder(t, note);
    var v := Note(t.controller, note.path, note.capture, note.at);
    if v.decision.Deferred? {
      var staging, s := t.controller.staging, Staged(note.capture, note.at, v.decision.due);
      StagedNotesAfterUpdate(staging, note.path, s);
      assert NoteOf(Slot(note.path, s)) == note;
      Balance(multiset(t.noted), multiset(t.recorded), t.superseded, multiset(StagedNotes(staging)), multiset{note},
              if note.path in staging then multiset{NoteOf(Slot(note.path, staging[note.path]))} else multiset{},
              multiset(StagedNotes(staging[note.path := s])));
    }
  }

  /** The notes of distinct slots are the set of their notes. */
  lemma NotesOfDistinct(slots: seq<Slot>, notes: set<Noted>)
    requires forall i, j :: 0 <= i < j < |slots| ==> slots[i].path != slots[j].path
    requires forall x :: x in notes <==> exists i :: 0 <= i < |slots| && NoteOf(slots[i]) == x
    ensures multiset(NotesOf(slots)) == multiset(notes)
  {
    if slots == [] {
      assert notes == {};
    } else {
      var front, last := slots[..|slots| - 1], slots[|slots| - 1];
      var fewer := notes - {NoteOf(last)};
      forall x
        ensures x in fewer <==> exists i :: 0 <= i < |front| && NoteOf(front[i]) == x
      {
        if x in fewer {
          var i :| 0 <= i < |slots| && NoteOf(slots[i]) == x;
          assert NoteOf(front[i]) == x;
        }
        if i :| 0 <= i < |front| && NoteOf(front[i]) == x {
          assert slots[i].path != last.path;
          assert NoteOf(slots[i]) == x;
        }
      }
      NotesOfDistinct(front, fewer);
      assert NotesOf(slots) == NotesOf(front) + [NoteOf(last)];
      assert NoteOf(slots[|slots| - 1]) == NoteOf(last);
      assert notes == fewer + {NoteOf(last)};
    }
  }

  ghost predicate ListsDue(staging: Slots, now: U64, slots: seq<Slot>) {
    forall s :: s in slots <==> IsDue(staging, s, now)
  }

  lemma DueNotes(staging: Slots, now: U64, due: seq<Slot>, x: Noted)
    requires ListsDue(staging, now, due)
    ensures x in StagedNotes(staging) - StagedNotes(Pending(staging, now))
            <==> exists i :: 0 <= i < |due| && NoteOf(due[i]) == x
  {
    var pending := Pending(staging, now);
    assert x in StagedNotes(staging) <==> x.path in staging && x == NoteOf(Slot(x.path, staging[x.path]));
    assert x in StagedNotes(pending) <==> x.path in pending && x == NoteOf(Slot(x.path, pending[x.path]));
    if x in StagedNotes(staging) && x !in StagedNotes(pending) {
      var slot := Slot(x.path, staging[x.path]);
      assert IsDue(staging, slot, now);
      var i :| 0 <= i < |due| && due[i] == slot;
      assert NoteOf(due[i]) == x;
    }
    if i :| 0 <= i < |due| && NoteOf(due[i]) == x {
      assert due[i] in due;
    }
  }

  lemma DuePathsDistinct(staging: Slots, now: U64, due: seq<Slot>, i: nat, j: nat)
    requires ListsDue(staging, now, due) && Ascending(due) && i < j < |due|
    ensures due[i].path != due[j].path
  {
    hide CompareBytes;
    assert due[i] in due && due[j] in due;
    assert Before(due[i], due[j]);
    CompareEqual(due[i].path.text, due[i].path.text);
  }

  lemma FlushedSplitsStaged(c: Controller, now: U64)
    ensures multiset(StagedNotes(c.staging))
         == multiset(NotesOf(PollDue(c, now).flushed)) + multiset(StagedNotes(PollDue(c, now).controller.staging))
  {
    hide PollDue, Ascending, IsDue, StagedNotes;
    PollIsExact(c, now);
    var flushed := PollDue(c, now).flushed;
    assert ListsDue(c.staging, now, flushed);
    var kept := StagedNotes(Pending(c.staging, now));
    var gone := StagedNotes(c.staging) - kept;
    forall x
      ensures x in gone <==> exists i :: 0 <= i < |flushed| && NoteOf(flushed[i]) == x
    {
      DueNotes(c.staging, now, flushed, x);
    }
    forall i, j | 0 <= i < j < |flushed|
      ensures flushed[i].path != flushed[j].path
    {
      DuePathsDistinct(c.staging, now, flushed, i, j);
    }
    NotesOfDistinct(flushed, gone);
    PendingNotes(c.staging, now);
    assert StagedNotes(c.staging) == gone + kept;
  }

  lemma PendingNotes(staging: Slots, now: U64)
    ensures StagedNotes(Pending(staging, now)) <= StagedNotes(staging)
  {
  }

  lemma PollConserves(t: Trace, now: U64)
    requires ValidTrace(t) && Conserved(t)
    ensures Conserved(AfterPoll(t, now))
  {
    hide PollDue, StagedNotes;
    FlushedSplitsStaged(t.controller, now);
    var notes := NotesOf(PollDue(t.controller, now).flushed);
    assert multiset(t.recorded + notes) == multiset(t.recorded) + multiset(notes);
  }

  /** Conservation: in every run of a mode other than `Off`, each capture noted was recorded once,
      or was superseded once, or is staged. */
  lemma {:induction false} EveryCaptureIsAccountedFor(mode: Mode, config: Config, ops: seq<Op>)
    requires mode != Off
    ensures Conserved(Run(mode, config, ops))
    ensures Run(mode, config, ops).controller.mode == mode
  {
    hide AfterNote, AfterPoll, ValidTrace, StagedNotes, PollDue, Note, Signals;
    if ops == [] {
      NothingStaged();
    } else {
      var before, op := Run(mode, config, ops[..|ops| - 1]), ops[|ops| - 1];
      EveryCaptureIsAccountedFor(mode, config, ops[..|ops| - 1]);
      StepKeepsConfig(before, op);
      match op {
        case NoteOp(path, capture, now) => NoteConserves(before, Noted(path, capture, now));
        case SignalsOp(depth, now) => SignalsEffect(before.controller, depth, now);
        case PollOp(now) => PollConserves(before, now);
      }
    }
  }

  lemma NothingStaged()
    ensures StagedNotes(map[]) == {}
  {
  }

  lemma StepKeepsConfig(t: Trace, op: Op)
    requires ValidTrace(t)
    ensures Next(t, op).controller.mode == t.controller.mode && Next(t, op).controller.config == t.controller.config
  {
    hide Note, PollDue, Signals;
    match op
    case NoteOp(path, capture, now) => NoteEffect(t.controller, path, capture, now);
    case SignalsOp(depth, now) => SignalsEffect(t.controller, depth, now);
    case PollOp(now) => PollIsExact(t.controller, now);
  }

  // ---- Bounded staleness ----

  ghost function LargestRung(ladder: seq<U64>): U64 {
    if ladder == [] then 0 else Clocks.Max(ladder[|ladder| - 1], LargestRung(ladder[..|ladder| - 1]))
  }

  lemma {:induction false} LargestRungBounds(ladder: seq<U64>, i: nat)
    requires i < |ladder|
    ensures ladder[i] <= LargestRung(ladder)
  {
    if i < |ladder| - 1 {
      LargestRungBounds(ladder[..|ladder| - 1], i);
    }
  }

  /** The largest interval a note can be staged with. */
  ghost function LongestInterval(c: Controller): U64 {
    match c.mode
    case IntervalMs(interval) => interval
    case Adaptive => Clocks.Max(LargestRung(c.config.ladder), c.config.minWindow)
    case _ => 0
  }

  lemma IntervalIsBounded(c: Controller, now: U64)
    requires ValidRung(c)
    ensures IntervalOf(c, now) <= LongestInterval(c)
  {
    hide Arrive, LargestRung;
    if c.mode == Adaptive {
      LargestRungBounds(c.config.ladder, Arrive(c, now).rung);
    }
  }

  /** The slots are the paths with an unrecorded capture, and none is due later than the longest
      interval after its first unrecorded note. */
  ghost predicate Punctual(t: Trace) {
    && t.openSince.Keys == t.controller.staging.Keys
    && (forall p :: p in t.openSince ==> t.controller.staging[p].due <= t.openSince[p] + LongestInterval(t.controller))
    && (forall p :: p in t.openSince ==> NotedAt(t.noted, p, t.openSince[p]))
  }

  ghost predicate NotedAt(log: seq<Noted>, p: RelPath, at: U64) {
    exists i :: 0 <= i < |log| && log[i].path == p && log[i].at == at
  }

  lemma NotedAtGrows(log: seq<Noted>, note: Noted, p: RelPath, at: U64)
    ensures NotedAt(log, p, at) ==> NotedAt(log + [note], p, at)
    ensures NotedAt(log + [note], note.path, note.at)
  {
    assert (log + [note])[|log|] == note;
    if i :| 0 <= i < |log| && log[i].path == p && log[i].at == at {
      assert (log + [note])[i] == log[i];
    }
  }

  lemma NotePunctual(t: Trace, note: Noted)
    requires ValidTrace(t) && Punctual(t)
    ensures Punctual(AfterNote(t, note))
  {
    hide Note, IntervalOf, LargestRung, SatSub, NotedAt;
    NoteEffect(t.controller, note.path, note.capture, note.at);
    IntervalIsBounded(t.controller, note.at);
    var t' := AfterNote(t, note);
    assert t'.openSince.Keys == t'.controller.staging.Keys;
    forall p | p in t'.openSince
      ensures NotedAt(t'.noted, p, t'.openSince[p])
    {
      NotedAtGrows(t.noted, note, p, t'.openSince[p]);
    }
  }

  lemma DuePaths(staging: Slots, now: U64, due: seq<Slot>, p: RelPath)
    requires ListsDue(staging, now, due) && p in staging
    ensures Pressure.Lists(due, p) <==> staging[p].due <= now
  {
    if i :| 0 <= i < |due| && due[i].path == p {
      assert due[i] in due;
    }
    if staging[p].due <= now {
      assert IsDue(staging, Slot(p, staging[p]), now);
    }
  }

  lemma PollPunctual(t: Trace, now: U64)
    requires ValidTrace(t) && Punctual(t)
    ensures Punctual(AfterPoll(t, now))
  {
    hide PollDue, LargestRung, NotedAt, Ascending;
    PollIsExact(t.controller, now);
    var flushed := PollDue(t.controller, now).flushed;
    forall p | p in t.controller.staging
      ensures Pressure.Lists(flushed, p) <==> t.controller.staging[p].due <= now
    {
      DuePaths(t.controller.staging, now, flushed, p);
    }
    assert AfterPoll(t, now).openSince.Keys == Pending(t.controller.staging, now).Keys;
  }

  lemma {:induction false} AlwaysPunctual(mode: Mode, config: Config, ops: seq<Op>)
    ensures Punctual(Run(mode, config, ops))
  {
    hide AfterNote, AfterPoll, ValidTrace, PollDue, Note, Signals, NotedAt;
    if ops != [] {
      var before, op := Run(mode, config, ops[..|ops| - 1]), ops[|ops| - 1];
      AlwaysPunctual(mode, config, ops[..|ops| - 1]);
      match op {
        case NoteOp(path, capture, now) => NotePunctual(before, Noted(path, capture, now));
        case SignalsOp(depth, now) => SignalsEffect(before.controller, depth, now);
        case PollOp(now) => PollPunctual(before, now);
      }
    }
  }

  /** Bounded staleness: after a poll, no path has had an unrecorded capture for as long as the
      longest interval. */
  lemma BoundedStaleness(mode: Mode, config: Config, ops: seq<Op>, now: U64, p: RelPath)
    requires p in Next(Run(mode, config, ops), PollOp(now)).openSince
    ensures now < Next(Run(mode, config, ops), PollOp(now)).openSince[p] + LongestInterval(Run(mode, config, ops).controller)
  {
    hide Run, PollDue, NotedAt, LargestRung, Ascending, IsDue;
    var t := Run(mode, config, ops);
    AlwaysPunctual(mode, config, ops);
    PollPunctual(t, now);
    PollIsExact(t.controller, now);
  }

  /** A live slot's deadline never moves later. */
  lemma DeadlineNeverIncreases(t: Trace, op: Op, p: RelPath)
    requires ValidTrace(t)
    requires p in t.controller.staging && p in Next(t, op).controller.staging
    ensures Next(t, op).controller.staging[p].due <= t.controller.staging[p].due
  {
    hide Note, PollDue, Signals, IntervalOf;
    match op
    case NoteOp(path, capture, now) => NoteEffect(t.controller, path, capture, now);
    case SignalsOp(depth, now) => SignalsEffect(t.controller, depth, now);
    case PollOp(now) => PollIsExact(t.controller, now);
  }

  /** Once the longest interval has passed since every note, one poll leaves nothing behind: each
      path's newest capture is recorded. */
  lemma OnePollDrains(mode: Mode, config: Config, ops: seq<Op>, now: U64)
    requires mode != Off
    requires forall i :: 0 <= i < |Run(mode, config, ops).noted| ==>
               Run(mode, config, ops).noted[i].at + LongestInterval(Run(mode, config, ops).controller) <= now
    ensures var t := Next(Run(mode, config, ops), PollOp(now));
            && t.controller.staging == map[]
            && multiset(t.noted) == multiset(t.recorded) + t.superseded
            && forall p :: Newest(t.recorded, p) == Newest(t.noted, p)
  {
    hide Run, PollDue, LargestRung, Ascending, IsDue, Newest;
    var t := Run(mode, config, ops);
    AlwaysPunctual(mode, config, ops);
    PollIsExact(t.controller, now);
    NoLostFinalWrite(mode, config, ops);
    EveryCaptureIsAccountedFor(mode, config, ops);
    PollLosesNothing(t, now);
    PollConserves(t, now);
    var t' := AfterPoll(t, now);
    assert t'.controller.staging == map[];
    NothingStaged();
    forall p
      ensures Newest(t'.recorded, p) == Newest(t'.noted, p)
    {
      assert FinalWriteKept(t', p);
    }
  }

  // ---- Staged bytes ----

  ghost function SizeOver(staging: Slots, todo: set<RelPath>): nat
    requires todo <= staging.Keys
    decreases |todo|
  {
    if todo == {} then 0
    else
      var p := FirstPath(todo);
      staging[p].capture.size + SizeOver(staging, todo - {p})
  }

  ghost function TotalSize(staging: Slots): nat {
    SizeOver(staging, staging.Keys)
  }

  lemma {:induction false} SizeOverWithout(staging: Slots, todo: set<RelPath>, p: RelPath)
    requires p in todo && todo <= staging.Keys
    ensures SizeOver(staging, todo) == staging[p].capture.size + SizeOver(staging, todo - {p})
    decreases |todo|
  {
    var q := FirstPath(todo);
    if p != q {
      SizeOverWithout(staging, todo - {q}, p);
      FirstPathIsUnique(q, todo - {p});
      assert todo - {q} - {p} == todo - {p} - {q};
    }
  }

  lemma {:induction false} SizeOverAgrees(a: Slots, b: Slots, todo: set<RelPath>)
    requires todo <= a.Keys && todo <= b.Keys && forall p :: p in todo ==> a[p].capture.size == b[p].capture.size
    ensures SizeOver(a, todo) == SizeOver(b, todo)
    decreases |todo|
  {
    if todo != {} {
      SizeOverAgrees(a, b, todo - {FirstPath(todo)});
    }
  }

  lemma TotalSizeAfterUpdate(staging: Slots, p: RelPath, s: Staged)
    ensures TotalSize(staging[p := s]) + SizeAt(staging, p) == TotalSize(staging) + s.capture.size
    ensures SizeAt(staging, p) <= TotalSize(staging)
  {
    hide FirstPath;
    var after := staging[p := s];
    var rest := staging.Keys - {p};
    assert after.Keys - {p} == rest;
    SizeOverWithout(after, after.Keys, p);
    SizeOverAgrees(staging, after, rest);
    if p in staging {
      SizeOverWithout(staging, staging.Keys, p);
    } else {
      assert staging.Keys == rest;
    }
  }

  ghost function Later(staging: Slots, todo: set<RelPath>, now: U64): set<RelPath>
    requires todo <= staging.Keys
  {
    set p | p in todo && staging[p].due > now
  }

  ghost function SizeOf(slots: seq<Slot>): nat {
    if slots == [] then 0 else slots[0].staged.capture.size + SizeOf(slots[1..])
  }

  /** What is due and what is not weigh as much as both together. */
  lemma {:induction false} DueAndLaterSizes(staging: Slots, todo: set<RelPath>, now: U64)
    requires todo <= staging.Keys
    ensures SizeOver(staging, todo) == SizeOf(DueSlots(staging, todo, now)) + SizeOver(staging, Later(staging, todo, now))
    decreases |todo|
  {
    if todo == {} {
      assert Later(staging, todo, now) == {};
    } else {
      var p := FirstPath(todo);
      var rest := todo - {p};
      DueAndLaterSizes(staging, rest, now);
      if staging[p].due > now {
        SizeOverWithout(staging, Later(staging, todo, now), p);
        assert Later(staging, todo, now) - {p} == Later(staging, rest, now);
        assert [] + DueSlots(staging, rest, now) == DueSlots(staging, rest, now);
      } else {
        assert Later(staging, todo, now) == Later(staging, rest, now);
        assert ([Slot(p, staging[p])] + DueSlots(staging, rest, now))[1..] == DueSlots(staging, rest, now);
      }
    }
  }

  lemma {:induction false} SizeOfExtended(slots: seq<Slot>, last: Slot)
    ensures SizeOf(slots + [last]) == SizeOf(slots) + last.staged.capture.size
  {
    if slots != [] {
      SizeOfExtended(slots[1..], last);
      assert (slots + [last])[1..] == slots[1..] + [last];
    }
  }

  lemma {:induction false} ReleasedSubtracts(bytes: U64, slots: seq<Slot>)
    ensures Released(bytes, slots) == SatSub(bytes, SizeOf(slots))
  {
    if slots != [] {
      var front, last := slots[..|slots| - 1], slots[|slots| - 1];
      ReleasedSubtracts(bytes, front);
      SizeOfExtended(front, last);
      assert slots == front + [last];
    }
  }

  lemma PollSizes(c: Controller, now: U64)
    ensures exists flushed: nat ::
              && TotalSize(c.staging) == flushed + TotalSize(PollDue(c, now).controller.staging)
              && PollDue(c, now).controller.stagedBytes == SatSub(c.stagedBytes, flushed)
  {
    hide SizeOver, SizeOf, DueSlots, Released, Sorting.Sort;
    var d := Settled(c, now);
    var due := DueSlots(d.staging, d.staging.Keys, now);
    var kept := Pending(d.staging, now);
    DueAndLaterSizes(d.staging, d.staging.Keys, now);
    assert kept.Keys == Later(d.staging, d.staging.Keys, now);
    SizeOverAgrees(d.staging, kept, kept.Keys);
    ReleasedSubtracts(d.stagedBytes, due);
    assert TotalSize(c.staging) == SizeOf(due) + TotalSize(kept);
  }

  /** One call keeps the running total exact precisely when the new sum fits in 64 bits, and never
      makes it exceed the sum. */
  lemma StagedBytesStep(t: Trace, op: Op)
    requires ValidTrace(t) && t.controller.stagedBytes <= TotalSize(t.controller.staging)
    ensures var d := Next(t, op).controller;
            && d.stagedBytes <= TotalSize(d.staging)
            && (t.controller.stagedBytes == TotalSize(t.controller.staging)
                ==> (d.stagedBytes == TotalSize(d.staging) <==> TotalSize(d.staging) <= U64_MAX))
  {
    hide Note, PollDue, Signals, IntervalOf, TotalSize;
    match op
    case NoteOp(path, capture, now) =>
      NoteEffect(t.controller, path, capture, now);
      var v := Note(t.controller, path, capture, now);
      if v.decision.Deferred? {
        TotalSizeAfterUpdate(t.controller.staging, path, Staged(capture, now, v.decision.due));
      }
    case SignalsOp(depth, now) => SignalsEffect(t.controller, depth, now);
    case PollOp(now) => PollSizes(t.controller, now);
  }

  lemma EmptySize()
    ensures TotalSize(map[]) == 0
  {
  }

  lemma {:induction false} StagedBytesNeverOvercount(mode: Mode, config: Config, ops: seq<Op>)
    ensures Run(mode, config, ops).controller.stagedBytes <= TotalSize(Run(mode, config, ops).controller.staging)
  {
    hide Next, TotalSize, ValidTrace;
    EmptySize();
    if ops != [] {
      StagedBytesNeverOvercount(mode, config, ops[..|ops| - 1]);
      StagedBytesStep(Run(mode, config, ops[..|ops| - 1]), ops[|ops| - 1]);
    }
  }

  /** While the sum of the staged sizes has fitted in 64 bits all along, the running total is that
      sum. */
  lemma {:induction false} StagedBytesAreExact(mode: Mode, config: Config, ops: seq<Op>)
    requires forall n :: 0 <= n <= |ops| ==> TotalSize(Run(mode, config, ops[..n]).controller.staging) <= U64_MAX
    ensures Run(mode, config, ops).controller.stagedBytes == TotalSize(Run(mode, config, ops).controller.staging)
  {
    hide Next, TotalSize, ValidTrace;
    EmptySize();
    if ops != [] {
      var front := ops[..|ops| - 1];
      assert ops[..|ops|] == ops;
      assert forall n :: 0 <= n <= |front| ==> front[..n] == ops[..n];
      StagedBytesAreExact(mode, config, front);
      StagedBytesStep(Run(mode, config, front), ops[|ops| - 1]);
    }
  }
}
