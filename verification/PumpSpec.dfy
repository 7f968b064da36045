/** The pump of package joint as a transition system: what one turn of the scheduler loop does
    (joint/scheduler.go), what SetCap and Breakoff do to it (joint/pipe.go), and when the
    environment closes the input.  Channel elements are numbered. */
module PumpSpec {
  import opened Wrappers
  import opened Sequences

  type Filter = Option<int -> bool>

  const MAX_UINT64 := 0xFFFF_FFFF_FFFF_FFFF
  /** The largest capacity, and the initial one. */
  const MAX_CAP := MAX_UINT64 - 1

  /** What a select case for reading points at: the input channel, or a channel nobody uses. */
  datatype ReadCase = Input | Dummy

  /** The waiting values: `size` is the queue counter, `send` the value in the write case. */
  datatype Queue = Queue(list: seq<int>, size: nat, send: Option<int>)

  /** The scheduler's own state: the read cases of its two selects and its two flags. */
  datatype Sched = Sched(waitCase: ReadCase, rwCase: ReadCase, inputClosed: bool, aborted: bool)

  /** History: values taken from the input, given to the output, and passed to the filter. */
  datatype Log = Log(read: seq<int>, written: seq<int>, asked: seq<int>)

  /** `inputDone` says that the input channel is closed and drained, `broken` that Breakoff ran. */
  datatype Pump = Pump(maxIn: nat, queue: Queue, sched: Sched, inputDone: bool, broken: bool, log: Log)

  const INIT := Pump(MAX_CAP, Queue([], 0, None), Sched(Input, Input, false, false), false, false, Log([], [], []))

  /** The select case that fires; the reload channel reports `ok` unless Breakoff closed it. */
  datatype Selected = Reload(ok: bool) | Timeout | Break | ReadOk(v: int) | ReadClosed | Written

  datatype Step = Turn(e: Selected) | SetLimit(m: nat) | Breakoff | CloseInput

  predicate Keeps(f: Filter, v: int) {
    f.None? || f.value(v)
  }

  /** The values the filter lets through. */
  function Kept(f: Filter, s: seq<int>): seq<int> {
    if s == [] then []
    else (if Keeps(f, s[0]) then [s[0]] else []) + Kept(f, s[1..])
  }

  predicate Blocked(p: Pump) {
    p.queue.size >= p.maxIn
  }

  /** The read case the select of this turn uses: a full queue hides the input. */
  function ReadCaseOf(p: Pump): ReadCase {
    if p.queue.size == 0 then p.sched.waitCase else if Blocked(p) then Dummy else p.sched.rwCase
  }

  /** Which select outcomes are possible in this turn. */
  predicate CanFire(p: Pump, e: Selected) {
    match e
    case Reload(ok) => ok || p.broken
    case Timeout => true
    case Break => p.broken
    case ReadOk(_) => ReadCaseOf(p).Input? && !p.inputDone
    case ReadClosed => ReadCaseOf(p).Input? && p.inputDone
    case Written => p.queue.size > 0
  }

  predicate Enabled(p: Pump, s: Step) {
    match s
    case Turn(e) => !p.sched.aborted && CanFire(p, e)
    case SetLimit(m) => 1 <= m <= MAX_CAP
    case Breakoff => !p.broken
    case CloseInput => true
  }

  /** A turn's effect on the scheduler's own state.  A turn with a full queue leaves the second read
      case pointing at the input again, closed or not. */
  function SchedAfter(p: Pump, e: Selected): Sched {
    if p.queue.size == 0 then
      if p.sched.inputClosed || e.Break? || e.ReadClosed? || e == Reload(false)
      then p.sched.(aborted := true)
      else p.sched
    else if e.ReadClosed? then Sched(Dummy, Dummy, true, p.sched.aborted)
    else
      var s := if Blocked(p) then p.sched.(rwCase := Input) else p.sched;
      if e.Break? then s.(aborted := true) else s
  }

  /** After a write the first queued value that passes the filter is staged, and the ones before it
      are gone. */
  function NextStaged(f: Filter, list: seq<int>, send: Option<int>): Queue {
    if list == [] then Queue([], 0, send)
    else if Keeps(f, list[0]) then Queue(list[1..], |list|, Some(list[0]))
    else NextStaged(f, list[1..], send)
  }

  /** The queued values the filter is asked about after a write. */
  function Tried(f: Filter, list: seq<int>): seq<int> {
    if list == [] then []
    else [list[0]] + (if Keeps(f, list[0]) then [] else Tried(f, list[1..]))
  }

  /** A turn's effect on the queue.  A value read into an empty queue is filtered on entry and
      staged; any other joins the list. */
  function QueueAfter(p: Pump, f: Filter, e: Selected): Queue {
    var q := p.queue;
    match e
    case ReadOk(v) =>
      if q.size > 0 then q.(list := q.list + [v], size := q.size + 1)
      else if p.sched.inputClosed || !Keeps(f, v) then q
      else q.(size := 1, send := Some(v))
    case Written => if q.size > 0 then NextStaged(f, q.list, q.send) else q
    case _ => q
  }

  function SendSlot(q: Queue): seq<int> {
    if q.send.Some? then [q.send.value] else []
  }

  function LogAfter(p: Pump, f: Filter, e: Selected): Log {
    var (q, l) := (p.queue, p.log);
    match e
    case ReadOk(v) =>
      if q.size > 0 then l.(read := l.read + [v])
      else if p.sched.inputClosed then l
      else l.(read := l.read + [v], asked := l.asked + Asking(f, [v]))
    case Written =>
      if q.size == 0 then l
      else l.(written := l.written + SendSlot(q), asked := l.asked + Asking(f, Tried(f, q.list)))
    case _ => l
  }

  function Asking(f: Filter, vs: seq<int>): seq<int> {
    if f.Some? then vs else []
  }

  function RunOnce(p: Pump, f: Filter, e: Selected): Pump {
    Pump(p.maxIn, QueueAfter(p, f, e), SchedAfter(p, e), p.inputDone, p.broken, LogAfter(p, f, e))
  }

  function Apply(p: Pump, f: Filter, s: Step): Pump {
    match s
    case Turn(e) => RunOnce(p, f, e)
    case SetLimit(m) => p.(maxIn := m)
    case Breakoff => p.(broken := true)
    case CloseInput => p.(inputDone := true)
  }

  // ----- The invariant -----------------------------------------------------------------------

  function Staged(q: Queue): seq<int> {
    if q.size > 0 then SendSlot(q) else []
  }

  /** Nothing is lost, repeated or reordered between input and output. */
  ghost predicate Conserves(f: Filter, q: Queue, l: Log) {
    l.written + Staged(q) + Kept(f, q.list) == Kept(f, l.read)
  }

  /** What the filter has been asked: every value that left the list, once, in order. */
  ghost predicate AskedOnce(f: Filter, q: Queue, l: Log) {
    if f.Some? then l.asked + q.list == l.read else l.asked == []
  }

  ghost predicate QueueOk(q: Queue) {
    && q.size <= MAX_CAP
    && (q.size == 0 ==> q.list == [])
    && (q.size > 0 ==> q.size == |q.list| + 1 && q.send.Some?)
  }

  ghost predicate ClosingOk(p: Pump) {
    && (p.sched.inputClosed ==> p.inputDone)
    && (p.sched.waitCase.Dummy? || p.sched.rwCase.Dummy? ==> p.sched.inputClosed)
    && (p.sched.aborted ==> p.broken || (p.inputDone && p.queue.size == 0))
  }

  ghost predicate Inv(p: Pump, f: Filter) {
    && 1 <= p.maxIn <= MAX_CAP
    && QueueOk(p.queue)
    && Conserves(f, p.queue, p.log)
    && AskedOnce(f, p.queue, p.log)
    && ClosingOk(p)
  }

  lemma {:induction false} KeptAppend(f: Filter, a: seq<int>, b: seq<int>)
    ensures Kept(f, a + b) == Kept(f, a) + Kept(f, b)
  {
    if a == [] {
      assert a + b == b;
    } else {
      assert (a + b)[1..] == a[1..] + b && (a + b)[0] == a[0];
      KeptAppend(f, a[1..], b);
      Assoc(if Keeps(f, a[0]) then [a[0]] else [], Kept(f, a[1..]), Kept(f, b));
    }
  }

  /** With no filter everything is kept, and with one exactly the values it answers yes for. */
  lemma {:induction false} KeptIs(f: Filter, s: seq<int>, v: int)
    ensures f.None? ==> Kept(f, s) == s
    ensures f.Some? ==> multiset(Kept(f, s))[v] == if f.value(v) then multiset(s)[v] else 0
  {
    if s != [] {
      assert s == [s[0]] + s[1..];
      KeptIs(f, s[1..], v);
    }
  }

  /** Staging changes nothing that the filter lets through. */
  lemma {:induction false} StagingKept(f: Filter, list: seq<int>, send: Option<int>)
    ensures
      var q := NextStaged(f, list, send);
      Staged(q) + Kept(f, q.list) == Kept(f, list)
  {
    if list != [] && !Keeps(f, list[0]) {
      StagingKept(f, list[1..], send);
    }
  }

  /** Staging asks the filter about exactly what it takes off the list. */
  lemma {:induction false} StagingTried(f: Filter, list: seq<int>, send: Option<int>)
    ensures Tried(f, list) + NextStaged(f, list, send).list == list
  {
    if list != [] && !Keeps(f, list[0]) {
      StagingTried(f, list[1..], send);
      Assoc([list[0]], Tried(f, list[1..]), NextStaged(f, list[1..], send).list);
    }
  }

  lemma {:induction false} StagingShape(f: Filter, list: seq<int>, send: Option<int>)
    ensures
      var q := NextStaged(f, list, send);
      && q.size <= |list|
      && (if q.size == 0 then q.list == [] else q.size == |q.list| + 1 && q.send.Some?)
  {
    if list != [] && !Keeps(f, list[0]) {
      StagingShape(f, list[1..], send);
    }
  }

  lemma WrittenConserves(f: Filter, q: Queue, l: Log)
    requires QueueOk(q) && q.size > 0 && Conserves(f, q, l)
    ensures Conserves(f, NextStaged(f, q.list, q.send), l.(written := l.written + SendSlot(q)))
  {
    StagingKept(f, q.list, q.send);
    var q' := NextStaged(f, q.list, q.send);
    Assoc(l.written + SendSlot(q), Staged(q'), Kept(f, q'.list));
  }

  lemma WrittenAsked(f: Filter, q: Queue, l: Log)
    requires AskedOnce(f, q, l)
    ensures AskedOnce(f, NextStaged(f, q.list, q.send), l.(asked := l.asked + Asking(f, Tried(f, q.list))))
  {
    StagingTried(f, q.list, q.send);
    Assoc(l.asked, Tried(f, q.list), NextStaged(f, q.list, q.send).list);
  }

  lemma ReadConserves(f: Filter, q: Queue, l: Log, v: int)
    requires QueueOk(q) && Conserves(f, q, l)
    ensures q.size > 0 ==>
      Conserves(f, q.(list := q.list + [v], size := q.size + 1), l.(read := l.read + [v]))
    ensures q.size == 0 ==>
      Conserves(f, if Keeps(f, v) then q.(size := 1, send := Some(v)) else q, l.(read := l.read + [v]))
  {
    KeptAppend(f, l.read, [v]);
    KeptAppend(f, q.list, [v]);
    assert Kept(f, [v]) == if Keeps(f, v) then [v] else [];
    Assoc(l.written + Staged(q), Kept(f, q.list), Kept(f, [v]));
  }

  lemma ReadAsked(f: Filter, q: Queue, l: Log, v: int)
    requires AskedOnce(f, q, l)
    ensures AskedOnce(f, q.(list := q.list + [v], size := q.size + 1), l.(read := l.read + [v]))
    ensures q.list == [] ==> forall q': Queue | q'.list == [] ::
      AskedOnce(f, q', l.(read := l.read + [v], asked := l.asked + Asking(f, [v])))
  {
    Assoc(l.asked, q.list, [v]);
    assert q.list == [] ==> l.asked + q.list == l.asked;
  }

  lemma TurnConserves(p: Pump, f: Filter, e: Selected)
    requires QueueOk(p.queue) && Conserves(f, p.queue, p.log) && Enabled(p, Turn(e))
    ensures Conserves(f, QueueAfter(p, f, e), LogAfter(p, f, e))
  {
    match e
    case Written => WrittenConserves(f, p.queue, p.log);
    case ReadOk(v) => ReadConserves(f, p.queue, p.log, v);
    case _ =>
  }

  lemma TurnAsked(p: Pump, f: Filter, e: Selected)
    requires QueueOk(p.queue) && AskedOnce(f, p.queue, p.log)
    ensures AskedOnce(f, QueueAfter(p, f, e), LogAfter(p, f, e))
  {
    match e
    case Written => WrittenAsked(f, p.queue, p.log);
    case ReadOk(v) => ReadAsked(f, p.queue, p.log, v);
    case _ =>
  }

  lemma TurnQueue(p: Pump, f: Filter, e: Selected)
    requires QueueOk(p.queue) && p.maxIn <= MAX_CAP && ClosingOk(p) && Enabled(p, Turn(e))
    ensures QueueOk(QueueAfter(p, f, e))
  {
    StagingShape(f, p.queue.list, p.queue.send);
  }

  lemma TurnClosing(p: Pump, f: Filter, e: Selected)
    requires QueueOk(p.queue) && ClosingOk(p) && Enabled(p, Turn(e))
    ensures ClosingOk(RunOnce(p, f, e))
  {
  }

  lemma StepInv(p: Pump, f: Filter, s: Step)
    requires Inv(p, f) && Enabled(p, s)
    ensures Inv(Apply(p, f, s), f)
  {
    if s.Turn? {
      TurnConserves(p, f, s.e);
      TurnAsked(p, f, s.e);
      TurnQueue(p, f, s.e);
      TurnClosing(p, f, s.e);
    }
  }

  lemma InitInv(f: Filter)
    ensures Inv(INIT, f)
  {
  }

  ghost predicate IsRun(run: seq<Pump>, f: Filter, steps: seq<Step>) {
    && |run| == |steps| + 1
    && forall j: nat | j < |steps| :: Enabled(run[j], steps[j]) && run[j + 1] == Apply(run[j], f, steps[j])
  }

  lemma {:induction false} RunInv(run: seq<Pump>, f: Filter, steps: seq<Step>, j: nat)
    requires IsRun(run, f, steps) && j < |run| && Inv(run[0], f)
    ensures Inv(run[j], f)
  {
    if j > 0 {
      RunInv(run, f, steps, j - 1);
      StepInv(run[j - 1], f, steps[j - 1]);
    }
  }

  /** At every reachable state the values written, then the staged one, then the queued ones the
      filter will let through, are the filtered input; the queue counter is 0 with an empty list, or
      the list length plus one; and the filter has seen each value that left the list once. */
  lemma Conservation(run: seq<Pump>, f: Filter, steps: seq<Step>, j: nat)
    requires IsRun(run, f, steps) && j < |run| && run[0] == INIT
    ensures
      var q, l := run[j].queue, run[j].log;
      && l.written + Staged(q) + Kept(f, q.list) == Kept(f, l.read)
      && (if q.size == 0 then q.list == [] else q.size == |q.list| + 1)
      && (f.Some? ==> l.asked + q.list == l.read)
  {
    InitInv(f);
    RunInv(run, f, steps, j);
  }

  // ----- Ending ------------------------------------------------------------------------------

  /** If the pump aborts and there was no Breakoff, the input was closed and its filtered values
      have all been written. */
  lemma AbortMeansDone(run: seq<Pump>, f: Filter, steps: seq<Step>, j: nat)
    requires IsRun(run, f, steps) && j < |run| && run[0] == INIT
    requires run[j].sched.aborted && !run[j].broken
    ensures run[j].inputDone && run[j].log.written == Kept(f, run[j].log.read)
  {
    InitInv(f);
    RunInv(run, f, steps, j);
  }

  /** While the input is open, a pump that has not seen it close stops for a Breakoff and for nothing else: on its
      signal, or with an empty queue when the loop finds the reload channel closed. */
  lemma OpenTurnAborts(p: Pump, f: Filter, e: Selected)
    requires Inv(p, f) && !p.inputDone && Enabled(p, Turn(e))
    ensures RunOnce(p, f, e).sched.aborted <==> e.Break? || (p.queue.size == 0 && e == Reload(false))
    ensures RunOnce(p, f, e).sched.aborted ==> p.broken
  {
  }

  /** A broken pump can always stop, and its queue stays as it is. */
  lemma BreakAborts(p: Pump, f: Filter)
    requires Inv(p, f) && p.broken && !p.sched.aborted
    ensures Enabled(p, Turn(Break)) && RunOnce(p, f, Break).sched.aborted
    ensures RunOnce(p, f, Break).queue == p.queue && RunOnce(p, f, Break).log == p.log
  {
  }

  /** Turns that only wake the loop. */
  predicate Idles(e: Selected) {
    e.Timeout? || e.Reload?
  }

  /** Once the input is closed, a turn other than a timer or reload one aborts the pump, shortens
      the queue, or leaves it and takes the read case off the closed channel: the case that may
      point at it again after a turn with a full queue. */
  lemma ClosedTurnDecreases(p: Pump, f: Filter, e: Selected)
    requires Inv(p, f) && p.inputDone && Enabled(p, Turn(e)) && !Idles(e)
    ensures
      var p' := RunOnce(p, f, e);
      || p'.sched.aborted
      || p'.queue.size < p.queue.size
      || (p'.queue == p.queue && p.sched.rwCase.Input? && p'.sched.rwCase.Dummy?)
  {
    StagingShape(f, p.queue.list, p.queue.send);
  }

  /** The read case really can point at the closed channel a second time: after the close was seen,
      a full queue's turn restores it, and when the capacity is raised the close is read again. */
  lemma ClosedReadRecurs(p: Pump, f: Filter)
    requires Inv(p, f) && p.sched.inputClosed && !p.sched.aborted && p.queue.size > 0 && Blocked(p)
    requires p.queue.size < MAX_CAP
    ensures
      var p1 := RunOnce(p, f, Timeout);
      var p2 := Apply(p1, f, SetLimit(MAX_CAP));
      Enabled(p, Turn(Timeout)) && Enabled(p2, Turn(ReadClosed)) && RunOnce(p2, f, ReadClosed).queue == p.queue
  {
  }

  /** A run of a new joint that reads the close twice. */
  function TwoCloses(v: int): seq<Step> {
    [Turn(ReadOk(v)), CloseInput, Turn(ReadClosed), SetLimit(1), Turn(Timeout), SetLimit(MAX_CAP), Turn(ReadClosed)]
  }

  /** ... and this happens to every joint whose filter lets some value through. */
  lemma ClosedReadRecursFromStart(f: Filter, v: int) returns (run: seq<Pump>)
    requires Keeps(f, v)
    ensures IsRun(run, f, TwoCloses(v)) && run[0] == INIT
    ensures run[3].sched.inputClosed && Blocked(run[4]) && run[7].queue == run[3].queue && !run[7].sched.aborted
  {
    var s := TwoCloses(v);
    var p1 := Apply(INIT, f, s[0]);
    var p2 := Apply(p1, f, s[1]);
    var p3 := Apply(p2, f, s[2]);
    var p4 := Apply(p3, f, s[3]);
    var p5 := Apply(p4, f, s[4]);
    var p6 := Apply(p5, f, s[5]);
    run := [INIT, p1, p2, p3, p4, p5, p6, Apply(p6, f, s[6])];
    assert Enabled(p1, s[1]) && Enabled(p2, s[2]) && Enabled(p3, s[3]);
    assert Enabled(p4, s[4]) && Enabled(p5, s[5]) && Enabled(p6, s[6]);
  }

  /** The close was seen and nothing points at the input. */
  predicate Hidden(p: Pump) {
    p.sched.inputClosed && p.sched.waitCase.Dummy? && p.sched.rwCase.Dummy? && !Blocked(p)
  }

  lemma HiddenStep(p: Pump, f: Filter, s: Step)
    requires QueueOk(p.queue) && Hidden(p) && Enabled(p, s) && !s.SetLimit?
    ensures Hidden(Apply(p, f, s)) && !Enabled(Apply(p, f, s), Turn(ReadClosed))
  {
    StagingShape(f, p.queue.list, p.queue.send);
  }

  /** Only a change of the capacity brings the closed read back. */
  lemma {:induction false} ClosedReadNeedsSetCap(run: seq<Pump>, f: Filter, steps: seq<Step>, j: nat)
    requires IsRun(run, f, steps) && j < |run| && Inv(run[0], f) && Hidden(run[0])
    requires forall i: nat | i < |steps| :: !steps[i].SetLimit?
    ensures Hidden(run[j]) && !Enabled(run[j], Turn(ReadClosed))
  {
    if j > 0 {
      ClosedReadNeedsSetCap(run, f, steps, j - 1);
      RunInv(run, f, steps, j - 1);
      HiddenStep(run[j - 1], f, steps[j - 1]);
    }
  }

  /** Turns the closed pump can still take: two for each queued value, one for the read case. */
  function TurnsLeft(p: Pump): nat {
    if p.sched.aborted then 0
    else 2 + 2 * p.queue.size + (if p.sched.rwCase.Input? || Blocked(p) then 1 else 0)
  }

  function Busy(s: Step): nat {
    if s.Turn? && !Idles(s.e) then 1 else 0
  }

  function BusyTurns(steps: seq<Step>): nat {
    if |steps| == 0 then 0 else BusyTurns(steps[..|steps| - 1]) + Busy(steps[|steps| - 1])
  }

  /** How often the capacity is set. */
  function Resets(steps: seq<Step>): nat {
    if |steps| == 0 then 0
    else Resets(steps[..|steps| - 1]) + (if steps[|steps| - 1].SetLimit? then 1 else 0)
  }

  lemma ClosedStepBound(p: Pump, f: Filter, s: Step)
    requires Inv(p, f) && p.inputDone && Enabled(p, s)
    ensures Apply(p, f, s).inputDone
    ensures TurnsLeft(Apply(p, f, s)) + Busy(s) <= TurnsLeft(p) + (if s.SetLimit? then 1 else 0)
  {
    StagingShape(f, p.queue.list, p.queue.send);
  }

  /** With the input closed, the number of turns that are not timer or reload ones is bounded by the state
      and by how often the capacity is set: each setting allows one more closed read, and no more. */
  lemma {:induction false} ClosedPumpEnds(run: seq<Pump>, f: Filter, steps: seq<Step>, j: nat)
    requires IsRun(run, f, steps) && j < |run| && Inv(run[0], f) && run[0].inputDone
    ensures run[j].inputDone
    ensures BusyTurns(steps[..j]) + TurnsLeft(run[j]) <= TurnsLeft(run[0]) + Resets(steps[..j])
  {
    if j > 0 {
      ClosedPumpEnds(run, f, steps, j - 1);
      RunInv(run, f, steps, j - 1);
      ClosedStepBound(run[j - 1], f, steps[j - 1]);
      assert steps[..j][..j - 1] == steps[..j - 1];
    }
  }

  /** A closed pump that has not aborted always has a turn that makes progress, provided the reader
      of the output takes what it is offered. */
  lemma ClosedPumpMoves(p: Pump, f: Filter) returns (e: Selected)
    requires Inv(p, f) && p.inputDone && !p.sched.aborted
    ensures Enabled(p, Turn(e)) && TurnsLeft(RunOnce(p, f, e)) < TurnsLeft(p)
  {
    if p.queue.size == 0 && p.sched.inputClosed {
      e := Timeout;
    } else {
      e := if p.queue.size > 0 then Written else ReadClosed;
      ClosedStepBound(p, f, Turn(e));
    }
  }

  // ----- Capacity ----------------------------------------------------------------------------

  /** A value is read only while the queue is below the limit of that turn. */
  lemma ReadBelowLimit(p: Pump, f: Filter, v: int)
    requires Inv(p, f)
    ensures Enabled(p, Turn(ReadOk(v))) ==> p.queue.size < p.maxIn
  {
  }

  lemma StepBounded(p: Pump, f: Filter, s: Step)
    requires Inv(p, f) && Enabled(p, s) && !s.SetLimit? && p.queue.size <= p.maxIn
    ensures Apply(p, f, s).maxIn == p.maxIn && Apply(p, f, s).queue.size <= p.maxIn
  {
    StagingShape(f, p.queue.list, p.queue.send);
  }

  /** Under a fixed capacity the queue never exceeds it. */
  lemma {:induction false} QueueBounded(run: seq<Pump>, f: Filter, steps: seq<Step>, j: nat)
    requires IsRun(run, f, steps) && j < |run| && Inv(run[0], f) && run[0].queue.size <= run[0].maxIn
    requires forall i: nat | i < |steps| :: !steps[i].SetLimit?
    ensures run[j].maxIn == run[0].maxIn && run[j].queue.size <= run[j].maxIn
  {
    if j > 0 {
      QueueBounded(run, f, steps, j - 1);
      RunInv(run, f, steps, j - 1);
      StepBounded(run[j - 1], f, steps[j - 1]);
    }
  }

  /** The capacity that is asked for, or room for one value more than the channels' own buffers hold. */
  function Capacity(cap: nat, chCap: nat): nat {
    if cap > chCap then cap else chCap + 1
  }

  /** What SetCap stores for a requested capacity, the channels' own buffers holding `chCap`: with those the
      queue makes up that capacity. */
  function LimitFor(cap: nat, chCap: nat): (limit: nat)
    ensures limit >= 1 && limit + chCap == Capacity(cap, chCap)
  {
    if cap < chCap + 1 then 1 else cap - chCap
  }

  /** With the capacity set to `cap` and left alone, the read buffer, the queue and the write buffer
      never hold more than `cap` values between them, or one more than the buffers if that is
      larger. */
  lemma TotalBuffered(run: seq<Pump>, f: Filter, steps: seq<Step>, j: nat, cap: nat,
                      readCap: nat, writeCap: nat, inRead: nat, inWrite: nat)
    requires IsRun(run, f, steps) && j < |run| && Inv(run[0], f) && run[0].queue.size <= run[0].maxIn
    requires run[0].maxIn == LimitFor(cap, readCap + writeCap)
    requires forall i: nat | i < |steps| :: !steps[i].SetLimit?
    requires inRead <= readCap && inWrite <= writeCap
    ensures inRead + run[j].queue.size + inWrite <= Capacity(cap, readCap + writeCap)
  {
    QueueBounded(run, f, steps, j);
  }

  /** ... and all of it is there to be used: with full buffers a pump whose input is open can take one more value
      exactly while they and the queue hold less than the capacity. */
  lemma RoomExactly(p: Pump, f: Filter, v: int, cap: nat, readCap: nat, writeCap: nat)
    requires Inv(p, f) && !p.inputDone && p.maxIn == LimitFor(cap, readCap + writeCap)
    ensures Enabled(p, Turn(ReadOk(v)))
       <==> !p.sched.aborted && readCap + p.queue.size + writeCap < Capacity(cap, readCap + writeCap)
  {
  }

  /** The capacity is set on a new joint, and then the values are read, one by one. */
  function Filling(limit: nat, vs: seq<int>): seq<Step> {
    [SetLimit(limit)] + seq(|vs|, k requires 0 <= k < |vs| => Turn(ReadOk(vs[k])))
  }

  /** Holding `vs` and at work. */
  predicate Holds(p: Pump, limit: nat, vs: seq<int>) {
    && p.maxIn == limit && p.queue.size == |vs| && p.log.read == vs && p.log.written == []
    && !p.inputDone && !p.broken && p.sched == INIT.sched
  }

  lemma HoldsMore(p: Pump, f: Filter, limit: nat, vs: seq<int>, v: int)
    requires Holds(p, limit, vs) && |vs| < limit && (vs == [] ==> Keeps(f, v))
    ensures Enabled(p, Turn(ReadOk(v))) && Holds(RunOnce(p, f, ReadOk(v)), limit, vs + [v])
  {
  }

  lemma RunMore(run: seq<Pump>, f: Filter, steps: seq<Step>, s: Step)
    requires IsRun(run, f, steps) && Enabled(run[|steps|], s)
    ensures IsRun(run + [Apply(run[|steps|], f, s)], f, steps + [s])
  {
  }

  /** A joint whose writer finds no reader can be filled up to its limit. */
  lemma {:induction false} FillRun(f: Filter, limit: nat, vs: seq<int>) returns (run: seq<Pump>)
    requires 1 <= limit <= MAX_CAP && |vs| <= limit && (vs != [] ==> Keeps(f, vs[0]))
    ensures IsRun(run, f, Filling(limit, vs)) && run[0] == INIT && Holds(run[|vs| + 1], limit, vs)
  {
    if vs == [] {
      run := [INIT, Apply(INIT, f, SetLimit(limit))];
    } else {
      var n := |vs| - 1;
      var before := FillRun(f, limit, vs[..n]);
      var steps, s := Filling(limit, vs[..n]), Turn(ReadOk(vs[n]));
      assert vs == vs[..n] + [vs[n]];
      assert Filling(limit, vs) == steps + [s];
      HoldsMore(before[n + 1], f, limit, vs[..n], vs[n]);
      RunMore(before, f, steps, s);
      run := before + [Apply(before[n + 1], f, s)];
    }
  }

  /** So a new joint takes exactly what its capacity leaves beside the buffers, and then no more. */
  lemma FillsUp(f: Filter, cap: nat, readCap: nat, writeCap: nat, vs: seq<int>) returns (run: seq<Pump>)
    requires cap <= MAX_CAP && readCap + writeCap < MAX_CAP
    requires vs != [] && Keeps(f, vs[0]) && readCap + |vs| + writeCap == Capacity(cap, readCap + writeCap)
    ensures IsRun(run, f, Filling(LimitFor(cap, readCap + writeCap), vs)) && run[0] == INIT
    ensures run[|vs| + 1].log.read == vs && run[|vs| + 1].log.written == []
    ensures forall v :: !Enabled(run[|vs| + 1], Turn(ReadOk(v)))
  {
    run := FillRun(f, LimitFor(cap, readCap + writeCap), vs);
  }
}
