/** The checkpointed materialization loop: issuers are evaluated in order, at most four finishing
    tasks publish their object and then save their checkpoint, stage receipts are written in place after
    a drain, and the process can die at any point and be started again. */
module Materialization {
  import opened Publication

  /** What evaluating an issuer's archived facts yields. */
  datatype Verdict = Usable(body: string) | Quarantined(reason: string)

  /** A checkpoint, up to its status and object reference. */
  datatype Record = UsableRecord(ref: Ref) | QuarantineRecord(reason: string)

  datatype Temporary = Torn | Whole(record: Record)

  /** The selected issuers, the stage bound, the object key of an issuer, the outcome of an
      evaluation that meets no fault, the reason recorded when one is caught, and how many bytes the storage
      and spend limits let one process reserve (below zero when not even an empty object can be paid for). */
  datatype Config = Config(codec: Codec, selected: seq<string>, total: nat, key: string -> string,
                           expected: string -> Verdict, failure: string, ceiling: int)

  /** A process that has reserved more than this takes on no further usable issuer. */
  const FRESH_BYTES: int := 7_000_000_000

  ghost predicate ValidConfig(g: Config) {
    && (forall i, j | 0 <= i < j < |g.selected| :: g.selected[i] != g.selected[j])
    && (forall a, b :: g.key(a) == g.key(b) ==> a == b)
  }

  /** The stage bounds: 2000 and 5000 as far as they are below the total, and the total. */
  function Stages(total: nat): (stages: set<nat>)
    ensures forall k :: k in stages <==> k == total || (k < total && (k == 2000 || k == 5000))
  {
    {if total < 2000 then total else 2000, if total < 5000 then total else 5000, total}
  }

  function RecordOf(g: Config, cik: string, v: Verdict): Record {
    match v
    case Usable(body) => UsableRecord(RefTo(g.codec, g.key(cik), body))
    case Quarantined(reason) => QuarantineRecord(reason)
  }

  /** The checkpoint an issuer gets from a fault-free evaluation. */
  function Expected(g: Config, cik: string): Record {
    RecordOf(g, cik, g.expected(cik))
  }

  datatype Phase =
    | Queued
    | PutAcked
    | Published  // read back, or nothing to publish
    | Writing    // the temporary file exists, possibly torn
    | Written
    | Saved
    | TaskFailed

  datatype Task = Task(cik: string, value: Verdict, faulty: bool, phase: Phase)

  datatype Control =
    | At(index: nat)
    | Popping(index: nat)   // four tasks pending: wait for the oldest
    | Draining(index: nat)  // a stage ends here: wait for all, then write its receipt
    | Receipting(index: nat) // the receipt file is open and its content incomplete
    | Ending(reached: bool)
    | Finished(reached: bool)

  /** `resumed` are the checkpoints this process found when it started, `reserved` the bytes of the usable
      issuers it has passed. */
  datatype Process = Stopped | Running(control: Control, pending: seq<Task>, resumed: set<string>, reserved: nat)

  /** `receipts` are the stages with a whole receipt file and `torn` those whose file is incomplete;
      `faulted` records which checkpoints came from a caught fault. */
  datatype State = State(store: Store, checkpoints: map<string, Record>, temporary: map<string, Temporary>,
                         receipts: set<nat>, torn: set<nat>, faulted: set<string>, process: Process)

  datatype Action =
    | Start
    | Die
    | Main(faulty: bool, stop: bool)               // the main loop's next statement
    | Work(position: nat, delivery: Delivery)      // a pool thread's next statement

  function AfterPop(g: Config, index: nat): Control {
    if index + 1 in Stages(g.total) then Draining(index) else At(index + 1)
  }

  function RecordBytes(r: Record): nat {
    if r.UsableRecord? then r.ref.bytes else 0
  }

  function VerdictBytes(v: Verdict): nat {
    if v.Usable? then |v.body| else 0
  }

  function NewTask(g: Config, cik: string, faulty: bool): Task {
    Task(cik, if faulty then Quarantined(g.failure) else g.expected(cik), faulty, Queued)
  }

  /** The next issuer is handed to the pool. */
  function Submitted(g: Config, s: State, faulty: bool): State
    requires s.process.Running? && s.process.control.At? && s.process.control.index < |g.selected|
  {
    var p, index := s.process, s.process.control.index;
    var task := NewTask(g, g.selected[index], faulty);
    var pending := p.pending + [task];
    var control := if |pending| >= 4 then Popping(index) else AfterPop(g, index);
    s.(process := p.(control := control, pending := pending, reserved := p.reserved + VerdictBytes(task.value)))
  }

  /** The main thread. Every usable issuer's bytes are reserved anew by each process, also when its checkpoint
      is found; a reservation over the limits ends the process. Popping a failed task re-raises its error and
      ends the process. */
  function MainStep(g: Config, s: State, faulty: bool, stop: bool): State
    requires s.process.Running?
  {
    var p := s.process;
    match p.control
    case At(index) =>
      if index >= |g.selected| then s.(process := p.(control := Ending(true)))
      else
        var cik := g.selected[index];
        if cik in s.checkpoints then
          var after := p.reserved + RecordBytes(s.checkpoints[cik]);
          if s.checkpoints[cik].UsableRecord? && after > g.ceiling then s.(process := Stopped)
          else s.(process := p.(control := At(index + 1), reserved := after))
        else if stop then s.(process := p.(control := Ending(false)))
        else
          var value := NewTask(g, cik, faulty).value;
          var after := p.reserved + VerdictBytes(value);
          if value.Usable? && after > FRESH_BYTES then s.(process := p.(control := Ending(false)))
          else if value.Usable? && after > g.ceiling then s.(process := Stopped)
          else Submitted(g, s, faulty)
    case Popping(index) =>
      if p.pending == [] then s
      else if p.pending[0].phase.TaskFailed? then s.(process := Stopped)
      else if !p.pending[0].phase.Saved? then s
      else s.(process := p.(control := AfterPop(g, index), pending := p.pending[1..]))
    case Draining(index) =>
      if p.pending == [] then
        s.(receipts := s.receipts - {index + 1}, torn := s.torn + {index + 1},
           process := p.(control := Receipting(index)))
      else if p.pending[0].phase.TaskFailed? then s.(process := Stopped)
      else if !p.pending[0].phase.Saved? then s
      else s.(process := p.(pending := p.pending[1..]))
    case Receipting(index) =>
      s.(receipts := s.receipts + {index + 1}, torn := s.torn - {index + 1}, process := p.(control := At(index + 1)))
    case Ending(reached) =>
      if p.pending == [] then s.(process := p.(control := Finished(reached)))
      else if p.pending[0].phase.TaskFailed? then s.(process := Stopped)
      else if !p.pending[0].phase.Saved? then s
      else s.(process := p.(pending := p.pending[1..]))
    case Finished(_) => s
  }

  function SetPhase(s: State, i: nat, phase: Phase): State
    requires s.process.Running? && i < |s.process.pending|
  {
    var p := s.process;
    s.(process := p.(pending := p.pending[i := p.pending[i].(phase := phase)]))
  }

  /** A finishing task: publish the object and read it back, then save the checkpoint through a temporary file
      and an atomic rename. This is what its next statement leaves outside the process. */
  function Effect(g: Config, s: State, t: Task, delivery: Delivery): (u: State)
    ensures u.process == s.process && u.receipts == s.receipts && u.torn == s.torn
  {
    match t.phase
    case Queued =>
      if t.value.Quarantined? || delivery.LostBefore? || g.key(t.cik) in s.store then s
      else s.(store := s.store[g.key(t.cik) := t.value.body])
    case Published => s.(temporary := s.temporary[t.cik := Torn])
    case Writing =>
      if delivery.Returned? then s.(temporary := s.temporary[t.cik := Whole(RecordOf(g, t.cik, t.value))]) else s
    case Written =>
      if t.cik in s.temporary && s.temporary[t.cik].Whole?
      then s.(checkpoints := s.checkpoints[t.cik := s.temporary[t.cik].record],
              temporary := s.temporary - {t.cik},
              faulted := if t.faulty then s.faulted + {t.cik} else s.faulted)
      else s
    case _ => s
  }

  /** And this is how far it gets. */
  function NextPhase(g: Config, s: State, t: Task, delivery: Delivery): Phase {
    match t.phase
    case Queued => if t.value.Quarantined? then Published else if delivery.Returned? then PutAcked else TaskFailed
    case PutAcked =>
      if t.value.Usable? && delivery.Returned? && Stored(s.store, Write(g.key(t.cik), t.value.body))
      then Published else TaskFailed
    case Published => Writing
    case Writing => if delivery.Returned? then Written else TaskFailed
    case Written => if t.cik in s.temporary && s.temporary[t.cik].Whole? then Saved else TaskFailed
    case _ => t.phase
  }

  function WorkStep(g: Config, s: State, i: nat, delivery: Delivery): State
    requires s.process.Running? && i < |s.process.pending|
  {
    var t := s.process.pending[i];
    SetPhase(Effect(g, s, t, delivery), i, NextPhase(g, s, t, delivery))
  }

  /** Starting reads every receipt file, so an incomplete one ends the process before its first step. */
  function StartStep(s: State): State {
    if s.process.Running? && !s.process.control.Finished? then s
    else if s.torn == {} then s.(process := Running(At(0), [], s.checkpoints.Keys, 0))
    else s.(process := Stopped)
  }

  function Step(g: Config, s: State, a: Action): State {
    match a
    case Start => StartStep(s)
    case Die => s.(process := Stopped)
    case Main(faulty, stop) => if s.process.Running? then MainStep(g, s, faulty, stop) else s
    case Work(i, delivery) =>
      if s.process.Running? && i < |s.process.pending| then WorkStep(g, s, i, delivery) else s
  }

  function Run(g: Config, s: State, actions: seq<Action>): State
    decreases |actions|
  {
    if actions == [] then s else Run(g, Step(g, s, actions[0]), actions[1..])
  }

  // ---------------------------------------------------------------- the invariant

  /** A checkpoint is the one a fault-free evaluation gives, or the caught failure; a usable one has
      its object stored with the bytes of its reference. */
  ghost predicate CheckpointOk(g: Config, s: State, cik: string)
    requires cik in s.checkpoints
  {
    && s.checkpoints[cik] == (if cik in s.faulted then QuarantineRecord(g.failure) else Expected(g, cik))
    && (s.checkpoints[cik].UsableRecord? ==>
          && g.expected(cik).Usable?
          && Stored(s.store, Write(g.key(cik), g.expected(cik).body)))
  }

  /** How many selected issuers the main loop has handed over. */
  function Passed(g: Config, control: Control): nat {
    match control
    case At(index) => index
    case Popping(index) => index + 1
    case Draining(index) => index + 1
    case Receipting(index) => index + 1
    case Ending(reached) => if reached then |g.selected| else 0
    case Finished(reached) => if reached then |g.selected| else 0
  }

  ghost predicate TaskOk(g: Config, s: State, t: Task) {
    && t.cik in g.selected
    && t.value == (if t.faulty then Quarantined(g.failure) else g.expected(t.cik))
    && (t.phase.Saved? <==> t.cik in s.checkpoints)
    && (t.phase.PutAcked? ==> t.value.Usable? && g.key(t.cik) in s.store)
    && ((t.phase.Published? || t.phase.Writing? || t.phase.Written?) && t.value.Usable? ==>
          Stored(s.store, Write(g.key(t.cik), t.value.body)))
    && (t.phase.Written? ==> t.cik in s.temporary && s.temporary[t.cik] == Whole(RecordOf(g, t.cik, t.value)))
  }

  ghost predicate Covered(g: Config, s: State, pending: seq<Task>, i: nat)
    requires i < |g.selected|
  {
    g.selected[i] in s.checkpoints || exists j :: 0 <= j < |pending| && pending[j].cik == g.selected[i]
  }

  /** Issuers from here on have not been handed over by this process. */
  function HandedOver(g: Config, control: Control): nat {
    match control
    case At(index) => index
    case Popping(index) => index + 1
    case Draining(index) => index + 1
    case Receipting(index) => index + 1
    case _ => |g.selected|
  }

  ghost predicate ControlOk(g: Config, s: State, control: Control, pending: seq<Task>) {
    match control
    case At(index) => index <= |g.selected| && |pending| < 4
    case Popping(index) => index < |g.selected| && |pending| == 4 && index + 1 !in s.receipts
    case Draining(index) =>
      index < |g.selected| && |pending| < 4 && index + 1 in Stages(g.total) && index + 1 !in s.receipts
    case Receipting(index) =>
      index < |g.selected| && pending == [] && index + 1 in Stages(g.total) && index + 1 !in s.receipts
    case Ending(_) => |pending| < 4
    case Finished(_) => pending == []
  }

  ghost predicate ProcessOk(g: Config, s: State) {
    s.process.Running? ==>
      var control, pending := s.process.control, s.process.pending;
      && ControlOk(g, s, control, pending)
      && (forall i | 0 <= i < |pending| :: TaskOk(g, s, pending[i]))
      && (forall i, j | 0 <= i < j < |pending| :: pending[i].cik != pending[j].cik)
      && (forall i, j | 0 <= i < |pending| && HandedOver(g, control) <= j < |g.selected| ::
            pending[i].cik != g.selected[j])
      && (forall i | 0 <= i < Passed(g, control) && i < |g.selected| :: Covered(g, s, pending, i))
      && (forall i | 0 <= i < |pending| :: pending[i].cik !in s.process.resumed)
      && (forall j | HandedOver(g, control) <= j < |g.selected| && g.selected[j] in s.checkpoints ::
            g.selected[j] in s.process.resumed)
  }

  /** The first `k` selected issuers all have checkpoints. */
  ghost predicate StageCovered(g: Config, s: State, k: nat) {
    0 < k <= |g.selected| && forall i | 0 <= i < k :: g.selected[i] in s.checkpoints
  }

  /** A stage's receipt file, whole or not, exists only once the stage is covered. */
  ghost predicate ReceiptsOk(g: Config, s: State) {
    && (forall k | k in s.receipts :: StageCovered(g, s, k))
    && (forall k | k in s.torn :: StageCovered(g, s, k))
  }

  /** Only the receipt being written is incomplete. */
  ghost predicate TornOk(s: State) {
    s.process.Running? ==>
      s.torn == match s.process.control case Receipting(index) => {index + 1} case _ => {}
  }

  /** The receipts this process owes: those of the stages it passed whose last issuer it processed itself. */
  ghost predicate ReceiptsWritten(g: Config, s: State) {
    s.process.Running? ==>
      forall k | k in Stages(g.total) && 0 < k <= |g.selected| && k <= Receipted(g, s.process.control) ::
        k in s.receipts || g.selected[k - 1] in s.process.resumed
  }

  function Receipted(g: Config, control: Control): nat {
    match control
    case At(index) => index
    case Popping(index) => index
    case Draining(index) => index
    case Receipting(index) => index
    case Ending(reached) => if reached then |g.selected| else 0
    case Finished(reached) => if reached then |g.selected| else 0
  }

  ghost predicate Invariant(g: Config, s: State) {
    && (forall cik | cik in s.checkpoints :: cik in g.selected && CheckpointOk(g, s, cik))
    && (forall cik | cik in s.faulted :: cik in s.checkpoints)
    && ReceiptsOk(g, s)
    && ProcessOk(g, s)
    && ReceiptsWritten(g, s)
    && TornOk(s)
    && (s.process.Running? ==> s.process.resumed <= s.checkpoints.Keys)
  }

  /** Nothing has happened yet; the store may already hold anything. */
  ghost predicate Initial(s: State) {
    s.checkpoints == map[] && s.receipts == {} && s.torn == {} && s.faulted == {} && s.process == Stopped
  }

  /** Objects and checkpoints are only ever added. */
  ghost predicate Grows(s: State, t: State) {
    && Extends(s.store, t.store)
    && (forall cik | cik in s.checkpoints :: cik in t.checkpoints && t.checkpoints[cik] == s.checkpoints[cik])
    && s.receipts <= t.receipts
  }

  // ---------------------------------------------------------------- every step keeps it

  /** Dropping the oldest task, once saved, loses no issuer. */
  lemma PopKeepsCovered(g: Config, s: State, pending: seq<Task>, n: nat)
    requires pending != [] && pending[0].cik in s.checkpoints && n <= |g.selected|
    requires forall i | 0 <= i < n :: Covered(g, s, pending, i)
    ensures forall i | 0 <= i < n :: Covered(g, s, pending[1..], i)
  {
    forall i | 0 <= i < n ensures Covered(g, s, pending[1..], i) {
      assert Covered(g, s, pending, i);
      if g.selected[i] !in s.checkpoints {
        var j :| 0 <= j < |pending| && pending[j].cik == g.selected[i];
        assert pending[1..][j - 1] == pending[j];
      }
    }
  }

  /** The oldest task is saved: it leaves the queue and the main thread moves on to `control`. */
  lemma PopKeepsProcess(g: Config, s: State, control: Control)
    requires s.process.Running? && ProcessOk(g, s)
    requires s.process.pending != [] && s.process.pending[0].phase.Saved?
    requires Passed(g, control) <= Passed(g, s.process.control)
    requires HandedOver(g, control) >= HandedOver(g, s.process.control)
    requires ControlOk(g, s, control, s.process.pending[1..])
    ensures ProcessOk(g, s.(process := s.process.(control := control, pending := s.process.pending[1..])))
  {
    var pending := s.process.pending;
    var t := s.(process := s.process.(control := control, pending := pending[1..]));
    assert TaskOk(g, s, pending[0]);
    assert forall i | 0 <= i < |g.selected| && i < Passed(g, s.process.control) :: Covered(g, s, pending, i);
    var n := if Passed(g, s.process.control) <= |g.selected| then Passed(g, s.process.control) else |g.selected|;
    PopKeepsCovered(g, s, pending, n);
    forall i | 0 <= i < |pending[1..]| ensures TaskOk(g, t, pending[1..][i]) {
      assert pending[1..][i] == pending[i + 1] && TaskOk(g, s, pending[i + 1]);
    }
    forall i | 0 <= i < |g.selected| && i < Passed(g, control) ensures Covered(g, t, pending[1..], i) {
      assert Covered(g, s, pending[1..], i);
    }
  }

  lemma PopKeepsInvariant(g: Config, s: State, control: Control)
    requires Invariant(g, s) && s.process.Running?
    requires s.process.pending != [] && s.process.pending[0].phase.Saved?
    requires Passed(g, control) <= Passed(g, s.process.control)
    requires HandedOver(g, control) >= HandedOver(g, s.process.control)
    requires Receipted(g, control) <= Receipted(g, s.process.control) ||
             (s.process.control.Popping? && control == At(s.process.control.index + 1)
              && control.index !in Stages(g.total))
    requires ControlOk(g, s, control, s.process.pending[1..])
    requires !control.Receipting? && !s.process.control.Receipting?
    ensures Invariant(g, s.(process := s.process.(control := control, pending := s.process.pending[1..])))
  {
    PopKeepsProcess(g, s, control);
    var t := s.(process := s.process.(control := control, pending := s.process.pending[1..]));
    assert forall cik | cik in s.checkpoints :: CheckpointOk(g, s, cik) ==> CheckpointOk(g, t, cik);
  }

  /** A new issuer is handed to the pool. */
  lemma SubmitKeepsInvariant(g: Config, s: State, faulty: bool)
    requires ValidConfig(g) && Invariant(g, s) && s.process.Running? && s.process.control.At?
    requires s.process.control.index < |g.selected| && g.selected[s.process.control.index] !in s.checkpoints
    ensures Invariant(g, Submitted(g, s, faulty))
  {
    var t := Submitted(g, s, faulty);
    assert !StageCovered(g, s, s.process.control.index + 1);
    SubmitKeepsProcess(g, s, faulty);
    forall c | c in s.checkpoints ensures CheckpointOk(g, t, c) { assert CheckpointOk(g, s, c); }
  }

  lemma SubmitKeepsProcess(g: Config, s: State, faulty: bool)
    requires ValidConfig(g) && ProcessOk(g, s) && s.process.Running? && s.process.control.At?
    requires s.process.resumed <= s.checkpoints.Keys && s.process.control.index + 1 !in s.receipts
    requires s.process.control.index < |g.selected| && g.selected[s.process.control.index] !in s.checkpoints
    ensures ProcessOk(g, Submitted(g, s, faulty))
  {
    var index, pending := s.process.control.index, s.process.pending;
    var cik := g.selected[index];
    var t := Submitted(g, s, faulty);
    var more := t.process.pending;
    assert cik !in s.process.resumed;
    assert more == pending + [more[|pending|]] && more[|pending|].cik == cik;
    forall i | 0 <= i < |more| ensures TaskOk(g, t, more[i]) {
      if i < |pending| { assert TaskOk(g, s, pending[i]); }
    }
    SubmittedCovered(g, s, t, index, pending, more);
  }

  lemma SubmittedCovered(g: Config, s: State, t: State, index: nat, pending: seq<Task>, more: seq<Task>)
    requires index < |g.selected| && s.checkpoints == t.checkpoints
    requires |more| == |pending| + 1 && more[..|pending|] == pending && more[|pending|].cik == g.selected[index]
    requires forall i | 0 <= i < index :: Covered(g, s, pending, i)
    ensures forall i | 0 <= i <= index :: Covered(g, t, more, i)
  {
    forall i | 0 <= i <= index ensures Covered(g, t, more, i) {
      if i < index {
        assert Covered(g, s, pending, i);
        if g.selected[i] !in s.checkpoints {
          var j :| 0 <= j < |pending| && pending[j].cik == g.selected[i];
          assert more[j] == pending[j];
        }
      }
    }
  }

  /** The receipt file is opened: every issuer of the stage is checkpointed. */
  lemma OpenKeepsInvariant(g: Config, s: State)
    requires Invariant(g, s) && s.process.Running? && s.process.control.Draining? && s.process.pending == []
    ensures Invariant(g, MainStep(g, s, false, false))
  {
    var t := MainStep(g, s, false, false);
    assert t.receipts == s.receipts;
    forall i | 0 <= i <= s.process.control.index ensures g.selected[i] in s.checkpoints {
      assert Covered(g, s, [], i);
    }
    forall k | k in t.receipts ensures StageCovered(g, t, k) { assert StageCovered(g, s, k); }
    forall i | 0 <= i <= s.process.control.index ensures Covered(g, t, [], i) { assert Covered(g, s, [], i); }
    forall c | c in s.checkpoints ensures CheckpointOk(g, t, c) { assert CheckpointOk(g, s, c); }
  }

  lemma ReceiptKeepsInvariant(g: Config, s: State)
    requires Invariant(g, s) && s.process.Running? && s.process.control.Receipting?
    ensures Invariant(g, MainStep(g, s, false, false))
  {
    var t := MainStep(g, s, false, false);
    forall k | k in t.receipts ensures StageCovered(g, t, k) {
      assert k in s.receipts || k in s.torn;
      assert StageCovered(g, s, k);
    }
    forall i | 0 <= i <= s.process.control.index ensures Covered(g, t, [], i) { assert Covered(g, s, [], i); }
    forall c | c in s.checkpoints ensures CheckpointOk(g, t, c) { assert CheckpointOk(g, s, c); }
  }

  /** The main thread moves on without touching the queue. */
  lemma MoveKeepsInvariant(g: Config, s: State, control: Control, reserved: nat)
    requires Invariant(g, s) && s.process.Running?
    requires ControlOk(g, s, control, s.process.pending) && !control.Receipting? && !s.process.control.Receipting?
    requires HandedOver(g, control) >= HandedOver(g, s.process.control)
    requires forall i | Passed(g, s.process.control) <= i < Passed(g, control) && i < |g.selected| ::
               g.selected[i] in s.checkpoints
    requires forall i | Receipted(g, s.process.control) <= i < Receipted(g, control) && i < |g.selected| ::
               g.selected[i] in s.process.resumed
    ensures Invariant(g, s.(process := s.process.(control := control, reserved := reserved)))
  {
    var t := s.(process := s.process.(control := control, reserved := reserved));
    assert forall c | c in s.checkpoints :: CheckpointOk(g, s, c) ==> CheckpointOk(g, t, c);
    forall i | 0 <= i < |s.process.pending| ensures TaskOk(g, t, s.process.pending[i]) {
      assert TaskOk(g, s, s.process.pending[i]);
    }
    forall i | 0 <= i < Passed(g, control) && i < |g.selected| ensures Covered(g, t, s.process.pending, i) {
      if i < Passed(g, s.process.control) { assert Covered(g, s, s.process.pending, i); }
    }
  }

  /** The next issuer has a checkpoint: it is reserved and skipped. */
  lemma SkipKeepsInvariant(g: Config, s: State, faulty: bool, stop: bool)
    requires ValidConfig(g) && Invariant(g, s) && s.process.Running? && s.process.control.At?
    requires s.process.control.index < |g.selected| && g.selected[s.process.control.index] in s.checkpoints
    ensures Invariant(g, MainStep(g, s, faulty, stop))
  {
    var index := s.process.control.index;
    var after := s.process.reserved + RecordBytes(s.checkpoints[g.selected[index]]);
    if s.checkpoints[g.selected[index]].UsableRecord? && after > g.ceiling {
      assert MainStep(g, s, faulty, stop) == s.(process := Stopped);
      StopKeepsInvariant(g, s);
    } else {
      assert MainStep(g, s, faulty, stop) == s.(process := s.process.(control := At(index + 1), reserved := after));
      MoveKeepsInvariant(g, s, At(index + 1), after);
    }
  }

  lemma AtKeepsInvariant(g: Config, s: State, faulty: bool, stop: bool)
    requires ValidConfig(g) && Invariant(g, s) && s.process.Running? && s.process.control.At?
    ensures Invariant(g, MainStep(g, s, faulty, stop))
  {
    var p, index := s.process, s.process.control.index;
    if index >= |g.selected| {
      MoveKeepsInvariant(g, s, Ending(true), p.reserved);
    } else if g.selected[index] in s.checkpoints {
      SkipKeepsInvariant(g, s, faulty, stop);
    } else if MainStep(g, s, faulty, stop).process == Stopped {
      StopKeepsInvariant(g, s);
    } else if MainStep(g, s, faulty, stop).process.control == Ending(false) {
      MoveKeepsInvariant(g, s, Ending(false), p.reserved);
    } else {
      SubmitKeepsInvariant(g, s, faulty);
    }
  }

  /** The main thread waits for the oldest task and then moves on to `control`. */
  lemma WaitKeepsInvariant(g: Config, s: State, control: Control, faulty: bool, stop: bool)
    requires ValidConfig(g) && Invariant(g, s) && s.process.Running? && s.process.pending != []
    requires match s.process.control
             case Popping(index) => control == AfterPop(g, index)
             case Draining(_) => control == s.process.control
             case Ending(_) => control == s.process.control
             case _ => false
    ensures Invariant(g, MainStep(g, s, faulty, stop))
  {
    if s.process.pending[0].phase.TaskFailed? {
      StopKeepsInvariant(g, s);
    } else if s.process.pending[0].phase.Saved? {
      PopKeepsInvariant(g, s, control);
    }
  }

  lemma MainKeepsInvariant(g: Config, s: State, faulty: bool, stop: bool)
    requires ValidConfig(g) && Invariant(g, s) && s.process.Running?
    ensures Invariant(g, MainStep(g, s, faulty, stop))
  {
    match s.process.control
    case At(_) => AtKeepsInvariant(g, s, faulty, stop);
    case Popping(index) => WaitKeepsInvariant(g, s, AfterPop(g, index), faulty, stop);
    case Draining(_) =>
      if s.process.pending == [] {
        OpenKeepsInvariant(g, s);
      } else {
        WaitKeepsInvariant(g, s, s.process.control, faulty, stop);
      }
    case Receipting(_) => ReceiptKeepsInvariant(g, s);
    case Ending(reached) =>
      if s.process.pending == [] {
        MoveKeepsInvariant(g, s, Finished(reached), s.process.reserved);
      } else {
        WaitKeepsInvariant(g, s, s.process.control, faulty, stop);
      }
    case Finished(_) =>
  }

  lemma StopKeepsInvariant(g: Config, s: State)
    requires Invariant(g, s)
    ensures Invariant(g, s.(process := Stopped))
  {
    var t := s.(process := Stopped);
    assert forall c | c in s.checkpoints :: CheckpointOk(g, s, c) ==> CheckpointOk(g, t, c);
  }

  lemma StartKeepsInvariant(g: Config, s: State)
    requires Invariant(g, s)
    ensures Invariant(g, StartStep(s))
  {
    var t := StartStep(s);
    assert forall c | c in s.checkpoints :: CheckpointOk(g, s, c) ==> CheckpointOk(g, t, c);
  }

  /** Everything but the store, the temporaries and one task's phase stays; then only that task needs looking at. */
  lemma PhaseKeepsInvariant(g: Config, s: State, store: Store, temporary: map<string, Temporary>, i: nat, phase: Phase)
    requires Invariant(g, s) && s.process.Running? && i < |s.process.pending|
    requires Extends(s.store, store)
    requires forall c | c in s.temporary && c != s.process.pending[i].cik ::
               c in temporary && temporary[c] == s.temporary[c]
    requires !phase.Saved? && !s.process.pending[i].phase.Saved?
    requires TaskOk(g, s.(store := store, temporary := temporary), s.process.pending[i].(phase := phase))
    ensures Invariant(g, SetPhase(s.(store := store, temporary := temporary), i, phase))
  {
    var pending := s.process.pending;
    var t := SetPhase(s.(store := store, temporary := temporary), i, phase);
    var more := t.process.pending;
    forall c | c in s.checkpoints ensures CheckpointOk(g, t, c) { assert CheckpointOk(g, s, c); }
    forall j | 0 <= j < |more| ensures TaskOk(g, t, more[j]) {
      if j != i { assert TaskOk(g, s, pending[j]) && pending[j].cik != pending[i].cik; }
    }
    SameCiksCovered(g, s, t, pending, more);
  }

  lemma SameCiksCovered(g: Config, s: State, t: State, pending: seq<Task>, more: seq<Task>)
    requires |pending| == |more| && forall j | 0 <= j < |more| :: more[j].cik == pending[j].cik
    requires s.checkpoints.Keys <= t.checkpoints.Keys
    ensures forall k | 0 <= k < |g.selected| && Covered(g, s, pending, k) :: Covered(g, t, more, k)
  {
    forall k | 0 <= k < |g.selected| && Covered(g, s, pending, k) ensures Covered(g, t, more, k) {
      if g.selected[k] !in s.checkpoints {
        var j :| 0 <= j < |pending| && pending[j].cik == g.selected[k];
        assert more[j].cik == g.selected[k];
      }
    }
  }

  /** The rename makes the temporary file the checkpoint. */
  lemma SaveKeepsCheckpoints(g: Config, s: State, i: nat)
    requires Invariant(g, s) && s.process.Running? && i < |s.process.pending| && s.process.pending[i].phase.Written?
    ensures var t := WorkStep(g, s, i, Returned);
      && t.checkpoints == s.checkpoints[s.process.pending[i].cik := t.checkpoints[s.process.pending[i].cik]]
      && forall c | c in t.checkpoints :: c in g.selected && CheckpointOk(g, t, c)
  {
    var task := s.process.pending[i];
    var t := WorkStep(g, s, i, Returned);
    assert TaskOk(g, s, task);
    assert t.checkpoints == s.checkpoints[task.cik := RecordOf(g, task.cik, task.value)];
    forall c | c in t.checkpoints ensures c in g.selected && CheckpointOk(g, t, c) {
      if c != task.cik { assert CheckpointOk(g, s, c); }
    }
  }

  lemma SaveKeepsTasks(g: Config, s: State, i: nat)
    requires Invariant(g, s) && s.process.Running? && i < |s.process.pending| && s.process.pending[i].phase.Written?
    ensures var t := WorkStep(g, s, i, Returned);
      forall j | 0 <= j < |t.process.pending| :: TaskOk(g, t, t.process.pending[j])
  {
    var pending, more := s.process.pending, WorkStep(g, s, i, Returned).process.pending;
    assert TaskOk(g, s, pending[i]);
    forall j | 0 <= j < |more| ensures TaskOk(g, WorkStep(g, s, i, Returned), more[j]) {
      if j != i { assert TaskOk(g, s, pending[j]) && pending[j].cik != pending[i].cik; }
    }
  }

  lemma SaveKeepsInvariant(g: Config, s: State, i: nat)
    requires ValidConfig(g) && Invariant(g, s) && s.process.Running? && i < |s.process.pending|
    requires s.process.pending[i].phase.Written?
    ensures Invariant(g, WorkStep(g, s, i, Returned))
  {
    var t := WorkStep(g, s, i, Returned);
    assert TaskOk(g, s, s.process.pending[i]);
    SaveKeepsCheckpoints(g, s, i);
    SaveKeepsTasks(g, s, i);
    SameCiksCovered(g, s, t, s.process.pending, t.process.pending);
  }

  /** The task's object is put, unless there is nothing to publish. */
  lemma PublishKeepsInvariant(g: Config, s: State, i: nat, delivery: Delivery)
    requires ValidConfig(g) && Invariant(g, s) && s.process.Running? && i < |s.process.pending|
    requires s.process.pending[i].phase.Queued?
    ensures Invariant(g, WorkStep(g, s, i, delivery))
  {
    var t := s.process.pending[i];
    assert TaskOk(g, s, t);
    PhaseKeepsInvariant(g, s, Effect(g, s, t, delivery).store, s.temporary, i, NextPhase(g, s, t, delivery));
  }

  lemma ReadBackKeepsInvariant(g: Config, s: State, i: nat, delivery: Delivery)
    requires ValidConfig(g) && Invariant(g, s) && s.process.Running? && i < |s.process.pending|
    requires s.process.pending[i].phase.PutAcked?
    ensures Invariant(g, WorkStep(g, s, i, delivery))
  {
    var t := s.process.pending[i];
    assert TaskOk(g, s, t);
    PhaseKeepsInvariant(g, s, s.store, s.temporary, i, NextPhase(g, s, t, delivery));
  }

  /** The temporary file is opened, written and closed. */
  lemma FileKeepsInvariant(g: Config, s: State, i: nat, delivery: Delivery)
    requires ValidConfig(g) && Invariant(g, s) && s.process.Running? && i < |s.process.pending|
    requires s.process.pending[i].phase.Published? || s.process.pending[i].phase.Writing?
    ensures Invariant(g, WorkStep(g, s, i, delivery))
  {
    var t := s.process.pending[i];
    assert TaskOk(g, s, t);
    PhaseKeepsInvariant(g, s, s.store, Effect(g, s, t, delivery).temporary, i, NextPhase(g, s, t, delivery));
  }

  lemma WorkKeepsInvariant(g: Config, s: State, i: nat, delivery: Delivery)
    requires ValidConfig(g) && Invariant(g, s) && s.process.Running? && i < |s.process.pending|
    ensures Invariant(g, WorkStep(g, s, i, delivery))
  {
    var t := s.process.pending[i];
    match t.phase
    case Queued => PublishKeepsInvariant(g, s, i, delivery);
    case PutAcked => ReadBackKeepsInvariant(g, s, i, delivery);
    case Published => FileKeepsInvariant(g, s, i, delivery);
    case Writing => FileKeepsInvariant(g, s, i, delivery);
    case Written =>
      assert WorkStep(g, s, i, delivery) == WorkStep(g, s, i, Returned);
      SaveKeepsInvariant(g, s, i);
    case _ =>
      assert s.process.pending[i := t] == s.process.pending;
      assert WorkStep(g, s, i, delivery) == s;
  }

  lemma StepKeepsInvariant(g: Config, s: State, a: Action)
    requires ValidConfig(g) && Invariant(g, s)
    ensures Invariant(g, Step(g, s, a))
  {
    match a
    case Start => StartKeepsInvariant(g, s);
    case Die => StopKeepsInvariant(g, s);
    case Main(faulty, stop) => if s.process.Running? { MainKeepsInvariant(g, s, faulty, stop); }
    case Work(i, delivery) =>
      if s.process.Running? && i < |s.process.pending| { WorkKeepsInvariant(g, s, i, delivery); }
  }

  lemma WorkGrows(g: Config, s: State, i: nat, delivery: Delivery)
    requires Invariant(g, s) && s.process.Running? && i < |s.process.pending|
    ensures Grows(s, WorkStep(g, s, i, delivery))
  {
    var t := s.process.pending[i];
    assert TaskOk(g, s, t);
    if t.phase.Queued? && t.value.Usable? {
      assert Extends(s.store, WorkStep(g, s, i, delivery).store);
    } else if t.phase.Written? {
      assert t.cik !in s.checkpoints;
    }
  }

  lemma MainGrows(g: Config, s: State, faulty: bool, stop: bool)
    requires s.process.Running? && (s.process.control.Draining? ==> s.process.control.index + 1 !in s.receipts)
    ensures Grows(s, MainStep(g, s, faulty, stop))
  {
  }

  lemma StepGrows(g: Config, s: State, a: Action)
    requires Invariant(g, s)
    ensures Grows(s, Step(g, s, a))
  {
    match a
    case Main(faulty, stop) => if s.process.Running? { MainGrows(g, s, faulty, stop); }
    case Work(i, delivery) => if s.process.Running? && i < |s.process.pending| { WorkGrows(g, s, i, delivery); }
    case _ =>
  }

  lemma {:induction false} RunKeepsInvariant(g: Config, s: State, actions: seq<Action>)
    requires ValidConfig(g) && Invariant(g, s)
    ensures Invariant(g, Run(g, s, actions)) && Grows(s, Run(g, s, actions))
    decreases |actions|
  {
    if actions != [] {
      StepKeepsInvariant(g, s, actions[0]);
      StepGrows(g, s, actions[0]);
      RunKeepsInvariant(g, Step(g, s, actions[0]), actions[1..]);
    }
  }

  // ---------------------------------------------------------------- over every sequence of crashes and resumes

  /** At any moment of any run: a usable checkpoint's object is stored with exactly the bytes its
      reference pins, and a stage receipt covers only issuers that have checkpoints. */
  lemma CheckpointsAreBacked(g: Config, s: State, actions: seq<Action>)
    requires ValidConfig(g) && Initial(s)
    ensures var t := Run(g, s, actions);
      && (forall cik | cik in t.checkpoints && t.checkpoints[cik].UsableRecord? ::
            Resolves(g.codec, t.store, t.checkpoints[cik].ref) && t.checkpoints[cik].ref.key == g.key(cik))
      && (forall k | k in t.receipts || k in t.torn :: StageCovered(g, t, k))
      && (t.process.Running? ==> |t.process.pending| <= 4)
  {
    RunKeepsInvariant(g, s, actions);
    var t := Run(g, s, actions);
    forall cik | cik in t.checkpoints && t.checkpoints[cik].UsableRecord?
      ensures Resolves(g.codec, t.store, t.checkpoints[cik].ref) && t.checkpoints[cik].ref.key == g.key(cik)
    {
      assert CheckpointOk(g, t, cik);
    }
  }

  /** No object, checkpoint or whole receipt is ever changed or lost by what happens later. */
  lemma NothingIsUndone(g: Config, s: State, before: seq<Action>, after: seq<Action>)
    requires ValidConfig(g) && Initial(s)
    ensures Grows(Run(g, s, before), Run(g, Run(g, s, before), after))
  {
    RunKeepsInvariant(g, s, before);
    RunKeepsInvariant(g, Run(g, s, before), after);
  }

  /** A checkpoint that came from a caught fault stays the quarantine it is: no resume evaluates it again. */
  lemma CaughtFaultIsPermanent(g: Config, s: State, before: seq<Action>, after: seq<Action>, cik: string)
    requires ValidConfig(g) && Initial(s) && cik in Run(g, s, before).faulted
    ensures var t := Run(g, Run(g, s, before), after);
      cik in t.checkpoints && t.checkpoints[cik] == QuarantineRecord(g.failure)
  {
    RunKeepsInvariant(g, s, before);
    assert CheckpointOk(g, Run(g, s, before), cik);
    NothingIsUndone(g, s, before, after);
  }

  predicate Completed(s: State) {
    s.process.Running? && s.process.control.Finished? && s.process.control.reached
  }

  /** The process has ended, or waits for a task that failed. */
  ghost predicate Doomed(s: State) {
    s.process.Running? ==> exists j | 0 <= j < |s.process.pending| :: s.process.pending[j].phase.TaskFailed?
  }

  lemma DoomedStays(g: Config, s: State, a: Action)
    requires Doomed(s) && a != Start
    ensures Doomed(Step(g, s, a))
  {
    if s.process.Running? && Step(g, s, a).process.Running? {
      var pending, later := s.process.pending, Step(g, s, a).process.pending;
      var j :| 0 <= j < |pending| && pending[j].phase.TaskFailed?;
      if a.Main? && |later| < |pending| {
        assert later[j - 1] == pending[j];
      } else {
        assert later[j] == pending[j];
      }
    }
  }

  lemma {:induction false} DoomedRun(g: Config, s: State, actions: seq<Action>)
    requires Doomed(s) && Start !in actions
    ensures Doomed(Run(g, s, actions))
    decreases |actions|
  {
    if actions != [] {
      DoomedStays(g, s, actions[0]);
      DoomedRun(g, Step(g, s, actions[0]), actions[1..]);
    }
  }

  /** A put, a read-back or a write of a temporary file that is not answered fails its task, and a process with
      a failed task never completes. */
  lemma UnansweredNeverCompletes(g: Config, s: State, i: nat, delivery: Delivery, actions: seq<Action>)
    requires ValidConfig(g) && Invariant(g, s) && s.process.Running? && i < |s.process.pending|
    requires delivery != Returned && Start !in actions
    requires var t := s.process.pending[i];
      (t.phase.Queued? && t.value.Usable?) || t.phase.PutAcked? || t.phase.Writing?
    ensures !Completed(Run(g, s, [Work(i, delivery)] + actions))
  {
    var t := Step(g, s, Work(i, delivery));
    assert t.process.pending[i].phase.TaskFailed?;
    DoomedRun(g, t, actions);
    assert ([Work(i, delivery)] + actions)[1..] == actions;
    RunKeepsInvariant(g, s, [Work(i, delivery)] + actions);
  }

  /** The map an uninterrupted, fault-free run produces. */
  function Uninterrupted(g: Config): map<string, Record> {
    map cik | cik in g.selected :: Expected(g, cik)
  }

  /** However often the process died, once a run completes every selected issuer has a checkpoint and
      nothing else has; the map is the uninterrupted one exactly when no caught fault changed a verdict. */
  lemma ResumesConverge(g: Config, s: State, actions: seq<Action>)
    requires ValidConfig(g) && Initial(s) && Completed(Run(g, s, actions))
    ensures var t := Run(g, s, actions);
      && t.checkpoints.Keys == (set cik | cik in g.selected)
      && (t.checkpoints == Uninterrupted(g) <==>
            forall cik | cik in t.faulted :: Expected(g, cik) == QuarantineRecord(g.failure))
  {
    RunKeepsInvariant(g, s, actions);
    var t := Run(g, s, actions);
    forall cik | cik in g.selected ensures cik in t.checkpoints {
      var i :| 0 <= i < |g.selected| && g.selected[i] == cik;
      assert Covered(g, t, [], i);
    }
    forall cik | cik in t.checkpoints
      ensures t.checkpoints[cik] == if cik in t.faulted then QuarantineRecord(g.failure) else Expected(g, cik)
    {
      assert CheckpointOk(g, t, cik);
    }
    assert t.checkpoints.Keys == Uninterrupted(g).Keys;
    if t.checkpoints == Uninterrupted(g) {
      forall cik | cik in t.faulted ensures Expected(g, cik) == QuarantineRecord(g.failure) {
        assert t.checkpoints[cik] == Uninterrupted(g)[cik];
      }
    }
  }

  // ---------------------------------------------------------------- runs that meet no fault

  /** No evaluation meets a fault; processes may still die and tasks may still fail. */
  ghost predicate Faultless(actions: seq<Action>) {
    forall a | a in actions :: a.Main? ==> !a.faulty
  }

  ghost predicate NoFaultPending(s: State) {
    s.process.Running? ==> forall i | 0 <= i < |s.process.pending| :: !s.process.pending[i].faulty
  }

  lemma WorkStaysFaultless(g: Config, s: State, i: nat, delivery: Delivery)
    requires NoFaultPending(s) && s.process.Running? && i < |s.process.pending|
    ensures NoFaultPending(WorkStep(g, s, i, delivery)) && WorkStep(g, s, i, delivery).faulted == s.faulted
  {
    var t := s.process.pending[i];
    assert !t.faulty;
  }

  lemma StepStaysFaultless(g: Config, s: State, a: Action)
    requires NoFaultPending(s) && (a.Main? ==> !a.faulty)
    ensures NoFaultPending(Step(g, s, a)) && Step(g, s, a).faulted == s.faulted
  {
    if a.Work? && s.process.Running? && a.position < |s.process.pending| {
      WorkStaysFaultless(g, s, a.position, a.delivery);
    }
  }

  lemma {:induction false} FaultlessKeepsFaulted(g: Config, s: State, actions: seq<Action>)
    requires NoFaultPending(s) && Faultless(actions)
    ensures Run(g, s, actions).faulted == s.faulted
    decreases |actions|
  {
    if actions != [] {
      StepStaysFaultless(g, s, actions[0]);
      FaultlessKeepsFaulted(g, Step(g, s, actions[0]), actions[1..]);
    }
  }

  /** Any two completed runs without faults, however often each was killed and resumed and whatever their
      tasks met, have the same checkpoints: those of an uninterrupted run. */
  lemma FaultlessRunsAgree(g: Config, s: State, one: seq<Action>, t: State, other: seq<Action>)
    requires ValidConfig(g) && Initial(s) && Initial(t) && Faultless(one) && Faultless(other)
    requires Completed(Run(g, s, one)) && Completed(Run(g, t, other))
    ensures Run(g, s, one).checkpoints == Run(g, t, other).checkpoints == Uninterrupted(g)
  {
    FaultlessKeepsFaulted(g, s, one);
    FaultlessKeepsFaulted(g, t, other);
    ResumesConverge(g, s, one);
    ResumesConverge(g, t, other);
  }

  // ---------------------------------------------------------------- when a run can be completed

  /** The actions of one process: no start and no death among them. */
  ghost predicate OneProcess(actions: seq<Action>) {
    forall a | a in actions :: a.Main? || a.Work?
  }

  /** No issuer still to be done has a key that holds other bytes. */
  ghost predicate NoConflicts(g: Config, s: State) {
    forall cik | cik in g.selected && cik !in s.checkpoints && g.expected(cik).Usable? ::
      g.key(cik) in s.store ==> s.store[g.key(cik)] == g.expected(cik).body
  }

  /** What reserving issuer `i` costs when `done` are the checkpoints: the bytes of its checkpoint, or of the
      object it will get. */
  function IssuerBytes(g: Config, done: map<string, Record>, i: nat): nat
    requires i < |g.selected|
  {
    var cik := g.selected[i];
    if cik in done then RecordBytes(done[cik]) else VerdictBytes(g.expected(cik))
  }

  predicate Reserves(g: Config, done: map<string, Record>, i: nat)
    requires i < |g.selected|
  {
    var cik := g.selected[i];
    if cik in done then done[cik].UsableRecord? else g.expected(cik).Usable?
  }

  /** What a process has reserved once it has passed the first `n` issuers. */
  function Spent(g: Config, done: map<string, Record>, n: nat): nat
    requires n <= |g.selected|
  {
    if n == 0 then 0 else Spent(g, done, n - 1) + IssuerBytes(g, done, n - 1)
  }

  /** Issuer `i` can be reserved, and if it is still to be done, taken on. */
  predicate Affordable(g: Config, done: map<string, Record>, i: nat)
    requires i < |g.selected|
  {
    Reserves(g, done, i) ==>
      Spent(g, done, i + 1) <= g.ceiling && (g.selected[i] !in done ==> Spent(g, done, i + 1) <= 7_000_000_000)
  }

  predicate AllAffordable(g: Config, done: map<string, Record>) {
    forall i: nat | i < |g.selected| :: Affordable(g, done, i)
  }

  /** The process has reserved exactly what it passed. */
  ghost predicate PaidSoFar(g: Config, s: State) {
    s.process.Running? ==>
      match s.process.control
      case At(i) => i <= |g.selected| && s.process.reserved == Spent(g, s.checkpoints, i)
      case Ending(_) => true
      case Finished(_) => true
      case _ =>
        var i := s.process.control.index;
        i < |g.selected| && s.process.reserved == Spent(g, s.checkpoints, i + 1)
  }

  ghost predicate SameCosts(g: Config, done: map<string, Record>, more: map<string, Record>) {
    forall i: nat | i < |g.selected| ::
      IssuerBytes(g, more, i) == IssuerBytes(g, done, i) && Reserves(g, more, i) == Reserves(g, done, i)
  }

  lemma {:induction false} SpentSame(g: Config, done: map<string, Record>, more: map<string, Record>, n: nat)
    requires SameCosts(g, done, more) && n <= |g.selected|
    ensures Spent(g, more, n) == Spent(g, done, n)
  {
    if n > 0 {
      SpentSame(g, done, more, n - 1);
      assert IssuerBytes(g, more, n - 1) == IssuerBytes(g, done, n - 1);
    }
  }

  lemma StaysAffordable(g: Config, done: map<string, Record>, more: map<string, Record>)
    requires AllAffordable(g, done) && SameCosts(g, done, more) && done.Keys <= more.Keys
    ensures AllAffordable(g, more)
  {
    forall i: nat | i < |g.selected| ensures Affordable(g, more, i) {
      assert Affordable(g, done, i);
      SpentSame(g, done, more, i + 1);
    }
  }

  /** A task without a fault saves the checkpoint its issuer was expected to get: nothing costs more or less. */
  lemma WorkCosts(g: Config, s: State, i: nat, delivery: Delivery)
    requires Invariant(g, s) && NoFaultPending(s) && s.process.Running? && i < |s.process.pending|
    ensures SameCosts(g, s.checkpoints, WorkStep(g, s, i, delivery).checkpoints)
  {
    var task := s.process.pending[i];
    assert TaskOk(g, s, task) && !task.faulty;
    assert RecordBytes(RecordOf(g, task.cik, task.value)) == VerdictBytes(task.value);
  }

  /** A pool thread moves its own task's phase and nothing else of the process. */
  lemma WorkMovesPhase(g: Config, s: State, i: nat, delivery: Delivery)
    requires s.process.Running? && i < |s.process.pending|
    ensures var t := WorkStep(g, s, i, delivery);
      && t.process.Running? && |t.process.pending| == |s.process.pending|
      && t.process == s.process.(pending := t.process.pending)
      && (forall j | 0 <= j < |t.process.pending| :: t.process.pending[j].cik == s.process.pending[j].cik)
      && (forall cik | cik in t.checkpoints :: cik in s.checkpoints || cik == s.process.pending[i].cik)
  {
  }

  lemma SamePlaceSamePaid(g: Config, s: State, t: State)
    requires s.process.Running? && t.process.Running? && PaidSoFar(g, s) && SameCosts(g, s.checkpoints, t.checkpoints)
    requires t.process.control == s.process.control && t.process.reserved == s.process.reserved
    ensures PaidSoFar(g, t)
  {
    var n := match s.process.control
             case At(i) => i
             case Ending(_) => 0
             case Finished(_) => 0
             case _ => s.process.control.index + 1;
    SpentSame(g, s.checkpoints, t.checkpoints, n);
  }

  lemma WorkKeepsPaid(g: Config, s: State, i: nat, delivery: Delivery)
    requires Invariant(g, s) && NoFaultPending(s) && s.process.Running? && i < |s.process.pending| && PaidSoFar(g, s)
    ensures PaidSoFar(g, WorkStep(g, s, i, delivery))
  {
    WorkCosts(g, s, i, delivery);
    WorkMovesPhase(g, s, i, delivery);
    SamePlaceSamePaid(g, s, WorkStep(g, s, i, delivery));
  }

  lemma AtKeepsPaid(g: Config, s: State, stop: bool)
    requires s.process.Running? && s.process.control.At? && PaidSoFar(g, s)
    ensures MainStep(g, s, false, stop).checkpoints == s.checkpoints && PaidSoFar(g, MainStep(g, s, false, stop))
  {
    var index := s.process.control.index;
    if index < |g.selected| {
      assert Spent(g, s.checkpoints, index + 1) == s.process.reserved + IssuerBytes(g, s.checkpoints, index);
    }
  }

  /** Waiting leaves the reservations alone, and its next place in the loop is paid for alike. */
  lemma WaitKeepsPaid(g: Config, s: State, stop: bool)
    requires s.process.Running? && !s.process.control.At? && PaidSoFar(g, s)
    ensures MainStep(g, s, false, stop).checkpoints == s.checkpoints && PaidSoFar(g, MainStep(g, s, false, stop))
  {
    WaitKeepsReserved(g, s, stop);
    var t := MainStep(g, s, false, stop);
    if t.process.Running? && !t.process.control.Ending? && !t.process.control.Finished? {
      assert t.process.reserved == Spent(g, s.checkpoints, s.process.control.index + 1);
    }
  }

  lemma WaitKeepsReserved(g: Config, s: State, stop: bool)
    requires s.process.Running? && !s.process.control.At?
    ensures var t := MainStep(g, s, false, stop); var to := t.process;
      && t.checkpoints == s.checkpoints
      && (to.Running? ==>
            && to.reserved == s.process.reserved
            && match to.control
               case At(i) => HasIndex(s.process.control) && i == s.process.control.index + 1
               case Ending(_) => true
               case Finished(_) => true
               case _ => HasIndex(s.process.control) && to.control.index == s.process.control.index)
  {
  }

  predicate HasIndex(control: Control) {
    control.Popping? || control.Draining? || control.Receipting?
  }

  lemma MainKeepsPaid(g: Config, s: State, stop: bool)
    requires s.process.Running? && PaidSoFar(g, s)
    ensures MainStep(g, s, false, stop).checkpoints == s.checkpoints && PaidSoFar(g, MainStep(g, s, false, stop))
  {
    if s.process.control.At? { AtKeepsPaid(g, s, stop); } else { WaitKeepsPaid(g, s, stop); }
  }

  lemma StepKeepsPaid(g: Config, s: State, a: Action)
    requires Invariant(g, s) && NoFaultPending(s) && PaidSoFar(g, s) && (a.Main? ==> !a.faulty)
    ensures SameCosts(g, s.checkpoints, Step(g, s, a).checkpoints) && PaidSoFar(g, Step(g, s, a))
  {
    match a
    case Main(faulty, stop) => if s.process.Running? { MainKeepsPaid(g, s, stop); }
    case Work(i, delivery) =>
      if s.process.Running? && i < |s.process.pending| {
        WorkCosts(g, s, i, delivery);
        WorkKeepsPaid(g, s, i, delivery);
      }
    case _ =>
  }

  /** A process that can still complete: every pending task but the last is saved, none has failed, and
      everything ahead can be paid for. */
  ghost predicate OnCourse(g: Config, s: State) {
    && Invariant(g, s) && s.process.Running? && NoConflicts(g, s) && NoFaultPending(s)
    && AllAffordable(g, s.checkpoints) && PaidSoFar(g, s)
    && (forall i | 0 <= i < |s.process.pending| - 1 :: s.process.pending[i].phase.Saved?)
    && (s.process.pending != [] ==> !Youngest(s).phase.TaskFailed?)
    && (s.process.control.Ending? || s.process.control.Finished? ==> s.process.control.reached)
  }

  function Youngest(s: State): Task
    requires s.process.Running? && s.process.pending != []
  {
    s.process.pending[|s.process.pending| - 1]
  }

  /** Finish the youngest task, then let the main thread take its next statement. */
  function NextAction(s: State): Action
    requires s.process.Running?
  {
    var p := s.process;
    if p.pending != [] && !Youngest(s).phase.Saved? then Work(|p.pending| - 1, Returned) else NEXT
  }

  function IssuersLeft(g: Config, control: Control): nat {
    match control
    case At(index) => if index <= |g.selected| then |g.selected| - index + 1 else 0
    case Ending(_) => 0
    case Finished(_) => 0
    case _ => if control.index < |g.selected| then |g.selected| - control.index else 0
  }

  function StatementsLeft(control: Control): nat {
    match control
    case At(_) => 0
    case Popping(_) => 3
    case Draining(_) => 2
    case Receipting(_) => 1
    case Ending(_) => 1
    case Finished(_) => 0
  }

  function PhasesLeft(s: State): nat
    requires s.process.Running?
  {
    if s.process.pending == [] then 0
    else
      match Youngest(s).phase
      case Queued => 5
      case PutAcked => 4
      case Published => 3
      case Writing => 2
      case Written => 1
      case _ => 0
  }

  /** Putting one issuer's object creates no conflict for another. */
  lemma PutKeepsNoConflicts(g: Config, s: State, t: State, cik: string)
    requires ValidConfig(g) && NoConflicts(g, s) && g.expected(cik).Usable?
    requires t.store == s.store || t.store == s.store[g.key(cik) := g.expected(cik).body]
    requires s.checkpoints.Keys <= t.checkpoints.Keys
    ensures NoConflicts(g, t)
  {
  }

  /** The youngest task has moved one phase on; its object may have been put. */
  ghost predicate Advanced(g: Config, s: State, t: State)
    requires s.process.Running? && s.process.pending != []
  {
    var task := Youngest(s);
    && t.process.Running? && |t.process.pending| == |s.process.pending|
    && PhasesLeft(t) < PhasesLeft(s) && !Youngest(t).phase.TaskFailed?
    && t.process == s.process.(
         pending := s.process.pending[|s.process.pending| - 1 := task.(phase := Youngest(t).phase)])
    && s.checkpoints.Keys <= t.checkpoints.Keys
    && (t.store == s.store || (task.value.Usable? && t.store == s.store[g.key(task.cik) := task.value.body]))
  }

  /** The youngest task's next statement succeeds: first those that publish the object, then those that save
      the checkpoint. */
  lemma YoungestPublishes(g: Config, s: State)
    requires OnCourse(g, s) && s.process.pending != []
    requires Youngest(s).phase.Queued? || Youngest(s).phase.PutAcked?
    ensures Advanced(g, s, WorkStep(g, s, |s.process.pending| - 1, Returned))
  {
    var task := Youngest(s);
    assert TaskOk(g, s, task) && task.cik in g.selected && task.cik !in s.checkpoints;
  }

  lemma YoungestSaves(g: Config, s: State)
    requires OnCourse(g, s) && s.process.pending != []
    requires Youngest(s).phase.Published? || Youngest(s).phase.Writing? || Youngest(s).phase.Written?
    ensures Advanced(g, s, WorkStep(g, s, |s.process.pending| - 1, Returned))
  {
    assert TaskOk(g, s, Youngest(s));
  }

  lemma YoungestAdvances(g: Config, s: State)
    requires OnCourse(g, s) && s.process.pending != [] && !Youngest(s).phase.Saved?
    ensures Advanced(g, s, WorkStep(g, s, |s.process.pending| - 1, Returned))
  {
    if Youngest(s).phase.Queued? || Youngest(s).phase.PutAcked? {
      YoungestPublishes(g, s);
    } else {
      YoungestSaves(g, s);
    }
  }

  lemma WorkStaysOnCourse(g: Config, s: State)
    requires ValidConfig(g) && OnCourse(g, s) && s.process.pending != [] && !Youngest(s).phase.Saved?
    ensures var t := WorkStep(g, s, |s.process.pending| - 1, Returned);
      OnCourse(g, t) && t.process.control == s.process.control && |t.process.pending| == |s.process.pending|
      && PhasesLeft(t) < PhasesLeft(s)
  {
    var i := |s.process.pending| - 1;
    WorkKeepsInvariant(g, s, i, Returned);
    WorkCosts(g, s, i, Returned);
    WorkKeepsPaid(g, s, i, Returned);
    YoungestAdvances(g, s);
    StaysAffordable(g, s.checkpoints, WorkStep(g, s, i, Returned).checkpoints);
    assert TaskOk(g, s, Youngest(s));
    var t := WorkStep(g, s, i, Returned);
    if t.store == s.store {
      assert NoConflicts(g, t);
    } else {
      PutKeepsNoConflicts(g, s, t, Youngest(s).cik);
    }
  }

  /** The main thread's next statement leads on, and changes neither store nor checkpoints. */
  ghost predicate LeadsOn(g: Config, s: State, t: State)
    requires s.process.Running?
  {
    && t.process.Running? && t.store == s.store && t.checkpoints == s.checkpoints
    && (t.process.control.Ending? || t.process.control.Finished? ==> t.process.control.reached)
    && IssuersLeft(g, t.process.control) <= IssuersLeft(g, s.process.control)
    && (IssuersLeft(g, t.process.control) == IssuersLeft(g, s.process.control) ==>
          || StatementsLeft(t.process.control) < StatementsLeft(s.process.control)
          || (t.process.control == s.process.control && |t.process.pending| < |s.process.pending|))
  }

  /** The queue keeps its order; only a fresh, faultless task may join it. */
  ghost predicate QueueMovesOn(s: State, t: State)
    requires s.process.Running? && t.process.Running?
  {
    var pending, more := s.process.pending, t.process.pending;
    || more == pending
    || (pending != [] && more == pending[1..])
    || (|more| == |pending| + 1 && more[..|pending|] == pending
        && more[|pending|].phase.Queued? && !more[|pending|].faulty)
  }

  lemma QueueStaysOnCourse(g: Config, s: State, t: State)
    requires OnCourse(g, s) && (s.process.pending == [] || Youngest(s).phase.Saved?)
    requires Invariant(g, t) && LeadsOn(g, s, t) && QueueMovesOn(s, t) && PaidSoFar(g, t)
    ensures OnCourse(g, t)
  {
    var pending, more := s.process.pending, t.process.pending;
    forall i | 0 <= i < |pending| ensures pending[i].phase.Saved? && !pending[i].faulty {}
    if |more| == |pending| + 1 {
      forall i | 0 <= i < |pending| ensures more[i] == pending[i] { assert more[..|pending|][i] == more[i]; }
    }
  }

  lemma AtLeadsOn(g: Config, s: State)
    requires OnCourse(g, s) && s.process.control.At?
    ensures LeadsOn(g, s, MainStep(g, s, false, false)) && QueueMovesOn(s, MainStep(g, s, false, false))
  {
    var index := s.process.control.index;
    if index < |g.selected| {
      assert Affordable(g, s.checkpoints, index);
      assert Spent(g, s.checkpoints, index + 1) == s.process.reserved + IssuerBytes(g, s.checkpoints, index);
    }
    var pending, more := s.process.pending, MainStep(g, s, false, false).process.pending;
    if more != pending { assert more[..|pending|] == pending; }
  }

  lemma WaitLeadsOn(g: Config, s: State)
    requires OnCourse(g, s) && (s.process.pending == [] || Youngest(s).phase.Saved?)
    requires !s.process.control.At? && !s.process.control.Finished?
    ensures LeadsOn(g, s, MainStep(g, s, false, false)) && QueueMovesOn(s, MainStep(g, s, false, false))
  {
    if s.process.pending != [] { assert s.process.pending[0].phase.Saved?; }
  }

  /** What is left to do is smaller: issuers, then statements of the main thread, then tasks, then phases. */
  ghost predicate LessLeft(g: Config, s: State, t: State)
    requires s.process.Running? && t.process.Running?
  {
    var a, b := s.process.control, t.process.control;
    || IssuersLeft(g, b) < IssuersLeft(g, a)
    || (IssuersLeft(g, b) == IssuersLeft(g, a) && StatementsLeft(b) < StatementsLeft(a))
    || (a == b && |t.process.pending| < |s.process.pending|)
    || (a == b && |t.process.pending| == |s.process.pending| && PhasesLeft(t) < PhasesLeft(s))
  }

  lemma MainStaysOnCourse(g: Config, s: State)
    requires ValidConfig(g) && OnCourse(g, s) && !s.process.control.Finished?
    requires s.process.pending == [] || Youngest(s).phase.Saved?
    ensures LeadsOn(g, s, MainStep(g, s, false, false)) && OnCourse(g, MainStep(g, s, false, false))
  {
    MainKeepsInvariant(g, s, false, false);
    MainKeepsPaid(g, s, false);
    if s.process.control.At? { AtLeadsOn(g, s); } else { WaitLeadsOn(g, s); }
    QueueStaysOnCourse(g, s, MainStep(g, s, false, false));
  }

  lemma LeadingOnLeavesLess(g: Config, s: State, t: State)
    requires s.process.Running? && LeadsOn(g, s, t)
    ensures LessLeft(g, s, t)
  {
  }

  lemma NextStaysOnCourse(g: Config, s: State)
    requires ValidConfig(g) && OnCourse(g, s) && !s.process.control.Finished?
    ensures OnCourse(g, Step(g, s, NextAction(s))) && LessLeft(g, s, Step(g, s, NextAction(s)))
  {
    if s.process.pending != [] && !Youngest(s).phase.Saved? {
      assert Step(g, s, NextAction(s)) == WorkStep(g, s, |s.process.pending| - 1, Returned);
      WorkStaysOnCourse(g, s);
    } else {
      assert Step(g, s, NextAction(s)) == MainStep(g, s, false, false);
      MainStaysOnCourse(g, s);
      LeadingOnLeavesLess(g, s, MainStep(g, s, false, false));
    }
  }

  /** From there the greedy schedule completes. */
  lemma {:induction false} Drive(g: Config, s: State) returns (actions: seq<Action>)
    requires ValidConfig(g) && OnCourse(g, s)
    ensures OneProcess(actions) && Faultless(actions) && Completed(Run(g, s, actions))
    decreases IssuersLeft(g, s.process.control), StatementsLeft(s.process.control), |s.process.pending|, PhasesLeft(s)
  {
    if s.process.control.Finished? {
      actions := [];
    } else {
      NextStaysOnCourse(g, s);
      var next := NextAction(s);
      var rest := Drive(g, Step(g, s, next));
      actions := [next] + rest;
      RunFirst(g, s, next, rest);
      assert forall a | a in actions :: a == next || a in rest;
    }
  }

  // ---------------------------------------------------------------- what a completed run could afford

  predicate InHand(t: State, cik: string) {
    || cik in t.checkpoints
    || (t.process.Running? && exists j :: 0 <= j < |t.process.pending| && t.process.pending[j].cik == cik)
  }

  /** With `done` the checkpoints the resumes began with: issuer `i` was new and has been taken on, or this
      process has passed it; either way it was paid for. */
  ghost predicate Settled(g: Config, done: map<string, Record>, t: State, i: nat)
    requires i < |g.selected|
  {
    && (g.selected[i] !in done && InHand(t, g.selected[i]) ==> Affordable(g, done, i))
    && (t.process.Running? && i < Passed(g, t.process.control) ==> Affordable(g, done, i))
  }

  ghost predicate Paying(g: Config, done: map<string, Record>, t: State) {
    && Invariant(g, t) && NoFaultPending(t) && PaidSoFar(g, t) && SameCosts(g, done, t.checkpoints)
    && done.Keys <= t.checkpoints.Keys
    && forall i: nat | i < |g.selected| :: Settled(g, done, t, i)
  }

  /** The main thread passes the next issuer and does not give up. */
  predicate GoesOn(g: Config, t: State, stop: bool)
    requires t.process.Running?
  {
    var u := MainStep(g, t, false, stop);
    && t.process.control.At? && t.process.control.index < |g.selected|
    && u.process.Running? && !u.process.control.Ending?
  }

  /** Then that issuer is paid for. */
  lemma PassingPays(g: Config, done: map<string, Record>, t: State, stop: bool)
    requires Paying(g, done, t) && t.process.Running? && GoesOn(g, t, stop)
    ensures Affordable(g, done, t.process.control.index)
  {
    var i := t.process.control.index;
    assert Settled(g, done, t, i);
    SpentSame(g, done, t.checkpoints, i + 1);
    assert Spent(g, t.checkpoints, i + 1) == t.process.reserved + IssuerBytes(g, t.checkpoints, i);
    assert Reserves(g, t.checkpoints, i) == Reserves(g, done, i);
  }

  /** A step of the main thread takes on nobody but the issuer it passes. */
  lemma NewcomerIsNext(g: Config, t: State, stop: bool, cik: string)
    requires t.process.Running?
    requires InHand(MainStep(g, t, false, stop), cik) && !InHand(t, cik)
    ensures GoesOn(g, t, stop) && cik == g.selected[t.process.control.index]
  {
    var pending, more := t.process.pending, MainStep(g, t, false, stop).process.pending;
    var j :| 0 <= j < |more| && more[j].cik == cik;
    forall k | 0 <= k < |pending| ensures pending[k].cik != cik {}
  }

  /** And it passes no other. */
  lemma PassesOne(g: Config, t: State, stop: bool)
    requires t.process.Running? && ControlOk(g, t, t.process.control, t.process.pending)
    ensures var u := MainStep(g, t, false, stop).process;
      u.Running? && Passed(g, t.process.control) < Passed(g, u.control) ==>
        GoesOn(g, t, stop) && Passed(g, u.control) == t.process.control.index + 1
  {
    if t.process.control.At? { AtPassesOne(g, t, stop); } else { WaitPassesNone(g, t, stop); }
  }

  lemma AtPassesOne(g: Config, t: State, stop: bool)
    requires t.process.Running? && t.process.control.At? && t.process.control.index <= |g.selected|
    ensures var u := MainStep(g, t, false, stop).process;
      u.Running? && Passed(g, t.process.control) < Passed(g, u.control) ==>
        GoesOn(g, t, stop) && Passed(g, u.control) == t.process.control.index + 1
  {
  }

  lemma WaitPassesNone(g: Config, t: State, stop: bool)
    requires t.process.Running? && !t.process.control.At?
    ensures var u := MainStep(g, t, false, stop).process;
      u.Running? ==> Passed(g, u.control) <= Passed(g, t.process.control)
  {
  }

  lemma MainKeepsSettled(g: Config, done: map<string, Record>, t: State, stop: bool, i: nat)
    requires ValidConfig(g) && Paying(g, done, t) && t.process.Running? && i < |g.selected|
    ensures Settled(g, done, MainStep(g, t, false, stop), i)
  {
    assert Settled(g, done, t, i);
    PassesOne(g, t, stop);
    if GoesOn(g, t, stop) { PassingPays(g, done, t, stop); }
    if InHand(MainStep(g, t, false, stop), g.selected[i]) && !InHand(t, g.selected[i]) {
      NewcomerIsNext(g, t, stop, g.selected[i]);
    }
  }

  /** A pool thread takes on nobody and passes nobody. */
  lemma WorkKeepsSettled(g: Config, done: map<string, Record>, t: State, k: nat, delivery: Delivery, i: nat)
    requires Paying(g, done, t) && t.process.Running? && k < |t.process.pending| && i < |g.selected|
    ensures Settled(g, done, WorkStep(g, t, k, delivery), i)
  {
    var u, cik := WorkStep(g, t, k, delivery), g.selected[i];
    assert Settled(g, done, t, i);
    WorkMovesPhase(g, t, k, delivery);
    if InHand(u, cik) && cik !in u.checkpoints {
      var j :| 0 <= j < |u.process.pending| && u.process.pending[j].cik == cik;
      assert t.process.pending[j].cik == cik;
    }
  }

  lemma StepKeepsSettled(g: Config, done: map<string, Record>, t: State, a: Action, i: nat)
    requires ValidConfig(g) && Paying(g, done, t) && (a.Main? ==> !a.faulty) && i < |g.selected|
    ensures Settled(g, done, Step(g, t, a), i)
  {
    assert Settled(g, done, t, i);
    match a
    case Main(faulty, stop) => if t.process.Running? { MainKeepsSettled(g, done, t, stop, i); }
    case Work(k, delivery) =>
      if t.process.Running? && k < |t.process.pending| { WorkKeepsSettled(g, done, t, k, delivery, i); }
    case _ =>
  }

  lemma {:induction false} RunKeepsPaying(g: Config, done: map<string, Record>, t: State, actions: seq<Action>)
    requires ValidConfig(g) && Paying(g, done, t) && Faultless(actions)
    ensures Paying(g, done, Run(g, t, actions))
    decreases |actions|
  {
    if actions != [] {
      var a := actions[0];
      var u := Step(g, t, a);
      StepKeepsInvariant(g, t, a);
      StepGrows(g, t, a);
      StepStaysFaultless(g, t, a);
      StepKeepsPaid(g, t, a);
      forall i: nat | i < |g.selected| ensures Settled(g, done, u, i) { StepKeepsSettled(g, done, t, a, i); }
      RunKeepsPaying(g, done, u, actions[1..]);
    }
  }

  /** Fault-free resumes only complete when everything could be paid for from the start. */
  lemma CompletedWasAffordable(g: Config, s: State, actions: seq<Action>)
    requires ValidConfig(g) && Invariant(g, s) && s.process == Stopped
    requires Faultless(actions) && Completed(Run(g, s, actions))
    ensures AllAffordable(g, s.checkpoints)
  {
    RunKeepsPaying(g, s.checkpoints, s, actions);
    forall i: nat | i < |g.selected| ensures Affordable(g, s.checkpoints, i) {
      assert Settled(g, s.checkpoints, Run(g, s, actions), i);
    }
  }

  /** A stopped materialization can be completed by fault-free resumes exactly when no receipt file is
      incomplete, no remaining issuer's key holds other bytes, and every issuer's bytes fit the limits on top
      of all earlier ones; one more process is then enough. */
  lemma CompletableExactly(g: Config, s: State)
    requires ValidConfig(g) && Invariant(g, s) && s.process == Stopped
    ensures (exists actions :: Faultless(actions) && Completed(Run(g, s, actions)))
            <==> s.torn == {} && NoConflicts(g, s) && AllAffordable(g, s.checkpoints)
    ensures s.torn == {} && NoConflicts(g, s) && AllAffordable(g, s.checkpoints) ==>
      exists actions :: OneProcess(actions) && Faultless(actions) && Completed(Run(g, s, [Start] + actions))
  {
    if s.torn == {} && NoConflicts(g, s) && AllAffordable(g, s.checkpoints) {
      StepKeepsInvariant(g, s, Start);
      StepKeepsPaid(g, s, Start);
      var actions := Drive(g, Step(g, s, Start));
      RunFirst(g, s, Start, actions);
      assert Faultless([Start] + actions);
    }
    forall actions | Faultless(actions) && Completed(Run(g, s, actions))
      ensures s.torn == {} && NoConflicts(g, s) && AllAffordable(g, s.checkpoints)
    {
      CompletedMetNoConflict(g, s, actions);
      CompletedWasAffordable(g, s, actions);
    }
  }

  lemma CompletedMetNoConflict(g: Config, s: State, actions: seq<Action>)
    requires ValidConfig(g) && Invariant(g, s) && s.process == Stopped
    requires Faultless(actions) && Completed(Run(g, s, actions))
    ensures s.torn == {} && NoConflicts(g, s)
  {
    if s.torn != {} { TornReceiptBlocks(g, s, actions); }
    RunKeepsInvariant(g, s, actions);
    FaultlessKeepsFaulted(g, s, actions);
    var t := Run(g, s, actions);
    forall cik | cik in g.selected && cik !in s.checkpoints && g.expected(cik).Usable? && g.key(cik) in s.store
      ensures s.store[g.key(cik)] == g.expected(cik).body
    {
      var i :| 0 <= i < |g.selected| && g.selected[i] == cik;
      assert Covered(g, t, [], i);
      assert CheckpointOk(g, t, cik) && cik !in t.faulted;
    }
  }

  // ---------------------------------------------------------------- incomplete receipt files

  /** A death leaves an incomplete receipt exactly when it falls between opening the file and closing it. */
  lemma DeathTears(g: Config, s: State)
    requires Invariant(g, s) && s.process.Running?
    ensures Step(g, s, Die).torn != {} <==> s.process.control.Receipting?
  {
  }

  /** And then every later start fails on reading it: nothing changes any more. */
  lemma {:induction false} TornReceiptBlocks(g: Config, s: State, actions: seq<Action>)
    requires s.process == Stopped && s.torn != {}
    ensures Run(g, s, actions) == s
    decreases |actions|
  {
    if actions != [] {
      assert Step(g, s, actions[0]) == s;
      TornReceiptBlocks(g, s, actions[1..]);
    }
  }

  // ---------------------------------------------------------------- receipts that are never written

  /** The stage's last issuer is checkpointed, and no process is about to write the stage's receipt. */
  ghost predicate Skipped(g: Config, s: State, k: nat) {
    && 0 < k <= |g.selected| && g.selected[k - 1] in s.checkpoints && k !in s.receipts
    && (s.process.Running? ==> s.process.control !in {Popping(k - 1), Draining(k - 1), Receipting(k - 1)})
  }

  lemma StepStaysSkipped(g: Config, s: State, a: Action, k: nat)
    requires Skipped(g, s, k)
    ensures Skipped(g, Step(g, s, a), k)
  {
  }

  /** Such a receipt is never written, whatever happens, deaths and resumes included. */
  lemma {:induction false} SkippedForGood(g: Config, s: State, actions: seq<Action>, k: nat)
    requires Skipped(g, s, k)
    ensures k !in Run(g, s, actions).receipts
    decreases |actions|
  {
    if actions != [] {
      StepStaysSkipped(g, s, actions[0], k);
      SkippedForGood(g, Step(g, s, actions[0]), actions[1..], k);
    }
  }

  lemma WorkKeepsResumed(g: Config, s: State, i: nat, delivery: Delivery)
    requires s.process.Running? && i < |s.process.pending|
    ensures var t := WorkStep(g, s, i, delivery).process; t.Running? && t.resumed == s.process.resumed
  {
  }

  lemma StepKeepsResumed(g: Config, s: State, a: Action)
    requires a != Start || (s.process.Running? && !s.process.control.Finished?)
    ensures var t := Step(g, s, a).process; t.Running? ==> s.process.Running? && t.resumed == s.process.resumed
  {
    if a.Work? && s.process.Running? && a.position < |s.process.pending| {
      WorkKeepsResumed(g, s, a.position, a.delivery);
    }
  }

  lemma {:induction false} OneProcessResumed(g: Config, s: State, actions: seq<Action>)
    requires OneProcess(actions)
    ensures var t := Run(g, s, actions).process;
      t.Running? ==> s.process.Running? && t.resumed == s.process.resumed
    decreases |actions|
  {
    if actions != [] {
      assert actions[0] in actions;
      StepKeepsResumed(g, s, actions[0]);
      OneProcessResumed(g, Step(g, s, actions[0]), actions[1..]);
    }
  }

  /** The receipts a completing process leaves, from what can be seen before it starts: a stage has one
      exactly when it had one already or its last issuer had no checkpoint yet. */
  lemma ReceiptsExactly(g: Config, s: State, actions: seq<Action>, k: nat)
    requires ValidConfig(g) && Invariant(g, s) && s.process == Stopped && OneProcess(actions)
    requires Completed(Run(g, s, [Start] + actions)) && k in Stages(g.total) && 0 < k <= |g.selected|
    ensures k in Run(g, s, [Start] + actions).receipts <==> k in s.receipts || g.selected[k - 1] !in s.checkpoints
  {
    var started, t := Step(g, s, Start), Run(g, s, [Start] + actions);
    RunFirst(g, s, Start, actions);
    RunKeepsInvariant(g, s, [Start] + actions);
    OneProcessResumed(g, started, actions);
    if k !in s.receipts && g.selected[k - 1] in s.checkpoints {
      SkippedForGood(g, s, [Start] + actions, k);
    }
  }

  lemma MainWritesDue(g: Config, s: State, faulty: bool, stop: bool)
    requires s.process.Running? && (s.process.control.Receipting? ==> s.process.control.index + 1 in Stages(g.total))
    ensures forall k | k in MainStep(g, s, faulty, stop).receipts :: k in s.receipts || k in Stages(g.total)
  {
  }

  lemma {:induction false} ReceiptsDue(g: Config, s: State, actions: seq<Action>)
    requires ValidConfig(g) && Invariant(g, s)
    ensures forall k | k in Run(g, s, actions).receipts :: k in s.receipts || k in Stages(g.total)
    decreases |actions|
  {
    if actions != [] {
      var a := actions[0];
      StepKeepsInvariant(g, s, a);
      if a.Main? && s.process.Running? { MainWritesDue(g, s, a.faulty, a.stop); }
      ReceiptsDue(g, Step(g, s, a), actions[1..]);
    }
  }

  /** A first process that completes ends with exactly these receipts: at 2000 and 5000 issuers as far as they
      are below the total, and at the total, each if that many issuers were selected. */
  lemma FirstRunReceipts(g: Config, s: State, actions: seq<Action>, k: nat)
    requires ValidConfig(g) && Initial(s) && OneProcess(actions) && Completed(Run(g, s, [Start] + actions))
    ensures k in Run(g, s, [Start] + actions).receipts <==>
            0 < k <= |g.selected| && (k == g.total || (k < g.total && (k == 2000 || k == 5000)))
  {
    ReceiptsDue(g, s, [Start] + actions);
    RunKeepsInvariant(g, s, [Start] + actions);
    if k in Run(g, s, [Start] + actions).receipts { assert StageCovered(g, Run(g, s, [Start] + actions), k); }
    if k in Stages(g.total) && 0 < k <= |g.selected| { ReceiptsExactly(g, s, actions, k); }
  }

  /** A start that gets a process going. */
  ghost predicate Launches(s: State) {
    (s.process.Stopped? || s.process.control.Finished?) && s.torn == {}
  }

  /** The running process began at some start, with the checkpoints of that moment. */
  lemma {:induction false} LaunchOf(g: Config, s: State, actions: seq<Action>) returns (n: nat)
    requires s.process == Stopped && Run(g, s, actions).process.Running?
    ensures n < |actions| && actions[n] == Start && Launches(Run(g, s, actions[..n]))
    ensures Run(g, s, actions).process.resumed == Run(g, s, actions[..n]).checkpoints.Keys
    decreases |actions|
  {
    var last := |actions| - 1;
    var t := Run(g, s, actions[..last]);
    RunSplits(g, s, actions, last);
    assert actions[last..] == [actions[last]] + [];
    RunFirst(g, t, actions[last], []);
    if actions[last] == Start && Launches(t) {
      n := last;
    } else {
      StepKeepsResumed(g, t, actions[last]);
      n := LaunchOf(g, s, actions[..last]);
      assert actions[..last][..n] == actions[..n];
    }
  }

  /** Over any number of deaths and resumes, a completed run lacks a stage's receipt exactly when some
      process was started with the stage's last issuer checkpointed and no receipt of the stage. */
  lemma ReceiptMissingExactly(g: Config, s: State, actions: seq<Action>, k: nat)
    requires ValidConfig(g) && Initial(s) && Completed(Run(g, s, actions))
    requires k in Stages(g.total) && 0 < k <= |g.selected|
    ensures k !in Run(g, s, actions).receipts <==>
      exists n: nat | n < |actions| && actions[n] == Start ::
        Launches(Run(g, s, actions[..n])) && Skipped(g, Run(g, s, actions[..n]), k)
  {
    RunKeepsInvariant(g, s, actions);
    var t := Run(g, s, actions);
    if k !in t.receipts {
      var n := LaunchOf(g, s, actions);
      RunSplits(g, s, actions, n);
      RunKeepsInvariant(g, s, actions[..n]);
      RunKeepsInvariant(g, Run(g, s, actions[..n]), actions[n..]);
      assert g.selected[k - 1] in t.process.resumed;
      assert Skipped(g, Run(g, s, actions[..n]), k);
    }
    forall n: nat | n < |actions| && Skipped(g, Run(g, s, actions[..n]), k) ensures k !in t.receipts {
      RunSplits(g, s, actions, n);
      SkippedForGood(g, Run(g, s, actions[..n]), actions[n..], k);
    }
  }

  lemma {:induction false} RunSplits(g: Config, s: State, actions: seq<Action>, n: nat)
    requires n <= |actions|
    ensures Run(g, s, actions) == Run(g, Run(g, s, actions[..n]), actions[n..])
    decreases n
  {
    if n == 0 {
      assert actions[..0] == [] && actions[0..] == actions;
    } else {
      RunSplits(g, Step(g, s, actions[0]), actions[1..], n - 1);
      assert actions[..n][1..] == actions[1..][..n - 1] && actions[n..] == actions[1..][n - 1..];
    }
  }

  lemma RunFirst(g: Config, s: State, a: Action, rest: seq<Action>)
    ensures Run(g, s, [a] + rest) == Run(g, Step(g, s, a), rest)
  {
    assert ([a] + rest)[1..] == rest;
  }

  const NEXT := Main(false, false)
  const WORK := Work(0, Returned)

  /** A process saves the only issuer's checkpoint; its evaluation may meet a fault. */
  function Save(faulty: bool): seq<Action> {
    [Start] + ([Main(faulty, false)] + ([WORK] + ([WORK] + ([WORK] + ([WORK] + [])))))
  }

  /** A process that finds everything checkpointed. */
  function Resume(): seq<Action> {
    [Start] + ([NEXT] + ([NEXT] + ([NEXT] + [])))
  }

  lemma Saves(g: Config, s: State, cik: string, faulty: bool)
    requires g.selected == [cik] && g.total == 1 && NewTask(g, cik, faulty).value.Quarantined?
    requires Initial(s)
    ensures var t := Run(g, s, Save(faulty)); var task := NewTask(g, cik, faulty);
      && t.checkpoints == map[cik := RecordOf(g, cik, task.value)] && t.receipts == t.torn == {}
      && t.faulted == (if faulty then {cik} else {})
      && t.process == Running(Draining(0), [task.(phase := Saved)], {}, 0)
  {
    var task := NewTask(g, cik, faulty);
    var s1 := Step(g, s, Start);
    assert s.checkpoints.Keys == {};
    assert s1.process == Running(At(0), [], {}, 0);
    var s2 := Step(g, s1, Main(faulty, false));
    assert s2.process == Running(Draining(0), [task], {}, 0);
    var s3 := Step(g, s2, WORK);
    assert s3.process.pending == [task.(phase := Published)];
    var s4 := Step(g, s3, WORK);
    assert s4.process.pending == [task.(phase := Writing)];
    var s5 := Step(g, s4, WORK);
    assert s5.process.pending == [task.(phase := Written)];
    assert s5.temporary[cik] == Whole(RecordOf(g, cik, task.value));
    var s6 := Step(g, s5, WORK);
    assert s6.process.pending == [task.(phase := Saved)];
    RunFirst(g, s, Start, [Main(faulty, false)] + ([WORK] + ([WORK] + ([WORK] + ([WORK] + [])))));
    RunFirst(g, s1, Main(faulty, false), [WORK] + ([WORK] + ([WORK] + ([WORK] + []))));
    RunFirst(g, s2, WORK, [WORK] + ([WORK] + ([WORK] + [])));
    RunFirst(g, s3, WORK, [WORK] + ([WORK] + []));
    RunFirst(g, s4, WORK, [WORK] + []);
    RunFirst(g, s5, WORK, []);
  }

  lemma SavesThen(g: Config, s: State, faulty: bool, rest: seq<Action>)
    ensures Run(g, s, Save(faulty) + rest) == Run(g, Run(g, s, Save(faulty)), rest)
  {
    RunSplits(g, s, Save(faulty) + rest, |Save(faulty)|);
    assert (Save(faulty) + rest)[..|Save(faulty)|] == Save(faulty) && (Save(faulty) + rest)[|Save(faulty)|..] == rest;
  }

  /** The process then writes the receipt and completes. */
  function Finish(): seq<Action> {
    [NEXT] + ([NEXT] + ([NEXT] + ([NEXT] + ([NEXT] + []))))
  }

  lemma Finishes(g: Config, s: State, cik: string, task: Task)
    requires g.selected == [cik] && s.process == Running(Draining(0), [task], {}, 0) && task.phase.Saved?
    ensures var t := Run(g, s, Finish());
      Completed(t) && t.checkpoints == s.checkpoints && t.faulted == s.faulted
  {
    var s1 := Step(g, s, NEXT);
    assert s1.process.pending == [];
    var s2 := Step(g, s1, NEXT);
    var s3 := Step(g, s2, NEXT);
    var s4 := Step(g, s3, NEXT);
    var s5 := Step(g, s4, NEXT);
    RunFirst(g, s, NEXT, [NEXT] + ([NEXT] + ([NEXT] + ([NEXT] + []))));
    RunFirst(g, s1, NEXT, [NEXT] + ([NEXT] + ([NEXT] + [])));
    RunFirst(g, s2, NEXT, [NEXT] + ([NEXT] + []));
    RunFirst(g, s3, NEXT, [NEXT] + []);
    RunFirst(g, s4, NEXT, []);
  }

  /** An evaluation that meets a fault completes with a quarantine checkpoint for a usable issuer: the map is
      not the one an uninterrupted fault-free run produces. */
  lemma CaughtFaultDiverges(g: Config, s: State, cik: string)
    requires g.selected == [cik] && g.total == 1 && g.expected(cik).Usable? && Initial(s)
    ensures var t := Run(g, s, Save(true) + Finish());
      Completed(t) && t.faulted == {cik} && t.checkpoints != Uninterrupted(g)
  {
    Saves(g, s, cik, true);
    SavesThen(g, s, true, Finish());
    var t := Run(g, s, Save(true));
    Finishes(g, t, cik, NewTask(g, cik, true).(phase := Saved));
    assert t.checkpoints[cik] == QuarantineRecord(g.failure) && Uninterrupted(g)[cik].UsableRecord?;
  }

  /** A process dies after saving the stage's last checkpoint; the resumed one skips that issuer before the
      line that writes receipts, so it completes without the receipt of a fully checkpointed stage. */
  lemma ReceiptCanBeMissing(g: Config, s: State, cik: string)
    requires g.selected == [cik] && g.total == 1 && g.expected(cik).Quarantined?
    requires Initial(s)
    ensures var t := Run(g, s, Save(false) + ([Die] + Resume()));
      Completed(t) && 1 in Stages(g.total) && cik in t.checkpoints && t.receipts == {}
  {
    Saves(g, s, cik, false);
    SavesThen(g, s, false, [Die] + Resume());
    var t := Run(g, s, Save(false));
    RunFirst(g, t, Die, Resume());
    ResumeCompletes(g, Step(g, t, Die), cik);
  }

  /** A process dies while the receipt file is open. */
  lemma ReceiptCanBeTorn(g: Config, s: State, cik: string)
    requires g.selected == [cik] && g.total == 1 && g.expected(cik).Quarantined?
    requires Initial(s)
    ensures var t := Run(g, s, Save(false) + ([NEXT] + ([NEXT] + ([Die] + []))));
      t.process == Stopped && t.torn == {1} && cik in t.checkpoints
  {
    Saves(g, s, cik, false);
    SavesThen(g, s, false, [NEXT] + ([NEXT] + ([Die] + [])));
    var t := Run(g, s, Save(false));
    var t1 := Step(g, t, NEXT);
    assert t1.process.pending == [];
    var t2 := Step(g, t1, NEXT);
    RunFirst(g, t, NEXT, [NEXT] + ([Die] + []));
    RunFirst(g, t1, NEXT, [Die] + []);
    RunFirst(g, t2, Die, []);
  }

  lemma ResumeCompletes(g: Config, s: State, cik: string)
    requires g.selected == [cik] && s.process == Stopped && s.torn == {}
    requires cik in s.checkpoints && s.checkpoints[cik].QuarantineRecord?
    ensures Run(g, s, Resume()) == s.(process := Running(Finished(true), [], s.checkpoints.Keys, 0))
  {
    var s1 := Step(g, s, Start);
    var s2 := Step(g, s1, NEXT);
    var s3 := Step(g, s2, NEXT);
    var s4 := Step(g, s3, NEXT);
    RunFirst(g, s, Start, [NEXT] + ([NEXT] + ([NEXT] + [])));
    RunFirst(g, s1, NEXT, [NEXT] + ([NEXT] + []));
    RunFirst(g, s2, NEXT, [NEXT] + []);
    RunFirst(g, s3, NEXT, []);
  }
}
