/** The joint of two channels (joint/pipe.go) and its scheduler (joint/scheduler.go), imperative, each
    method proved to be the matching function of `PumpSpec`. */
module Joint {
  import opened Wrappers
  import opened Sequences
  import opened PumpSpec
  import LinkedList

  /** The index of the select case that fired. */
  datatype CaseIndex = ReloadI | TimeoutI | CloseI | ReadI | WriteI

  /** What reflect.Select returns: the case, the value received, and whether the channel was open. */
  datatype Choice = Choice(chosen: CaseIndex, recv: int, ok: bool)

  function ChoiceOf(e: Selected): Choice {
    match e
    case Reload(ok) => Choice(ReloadI, 0, ok)
    case Timeout => Choice(TimeoutI, 0, true)
    case Break => Choice(CloseI, 0, false)
    case ReadOk(v) => Choice(ReadI, v, true)
    case ReadClosed => Choice(ReadI, 0, false)
    case Written => Choice(WriteI, 0, false)
  }

  /** The turns of a transport loop that is offered the select outcomes `es`. */
  function Turns(p: Pump, f: Filter, es: seq<Selected>): Pump {
    if |es| == 0 then p
    else
      var q := Turns(p, f, es[..|es| - 1]);
      var e := es[|es| - 1];
      if Enabled(q, Turn(e)) then PumpSpec.RunOnce(q, f, e) else q
  }

  lemma {:induction false} AbortedStays(p: Pump, f: Filter, es: seq<Selected>, i: nat)
    requires i <= |es| && Turns(p, f, es[..i]).sched.aborted
    ensures Turns(p, f, es) == Turns(p, f, es[..i])
  {
    if i == |es| {
      assert es[..i] == es;
    } else {
      assert es[..|es| - 1][..i] == es[..i];
      AbortedStays(p, f, es[..|es| - 1], i);
    }
  }

  /** A Joint together with the scheduler that embeds it.  `read`, `written` and `asked` record
      history; `inputDone` is the environment's closing of the input channel. */
  class Scheduler {
    const readCap: nat
    const writeCap: nat
    const filter: Filter
    const list: LinkedList.List<int>
    var maxIn: nat
    var queueSize: nat
    var broken: bool
    var send: Option<int>
    var waitCase: ReadCase
    var rwCase: ReadCase
    var aborted: bool
    var inputClosed: bool
    var inputDone: bool
    ghost var read: seq<int>
    ghost var written: seq<int>
    ghost var asked: seq<int>

    ghost predicate Linked()
      reads this, list, list.spine
    {
      list.Valid() && readCap + writeCap < 0x8000_0000_0000_0000
    }

    ghost function View(): Pump
      reads this, list, list.spine
      requires Linked()
    {
      Pump(maxIn,
           Queue(list.Contents(), queueSize, send),
           Sched(waitCase, rwCase, inputClosed, aborted),
           inputDone, broken,
           Log(read, written, asked))
    }

    ghost predicate Valid()
      reads this, list, list.spine
    {
      Linked() && Inv(View(), filter)
    }

    constructor (readCap: nat, writeCap: nat, filter: Filter)
      requires readCap + writeCap < 0x8000_0000_0000_0000
      ensures Valid() && View() == INIT && fresh(list) && fresh(list.spine)
      ensures this.readCap == readCap && this.writeCap == writeCap && this.filter == filter
    {
      this.readCap, this.writeCap, this.filter := readCap, writeCap, filter;
      list := new LinkedList.List();
      maxIn, queueSize, send := MAX_CAP, 0, None;
      waitCase, rwCase := Input, Input;
      aborted, inputClosed, inputDone, broken := false, false, false, false;
      read, written, asked := [], [], [];
      new;
      InitInv(filter);
    }

    /** The capacity, on unsigned 64-bit numbers: the subtraction never wraps and the stored limit is
        at least 1.  It fails only on the largest number, and then changes nothing. */
    method SetCap(cap: nat) returns (ok: bool)
      requires Valid() && cap <= MAX_UINT64
      modifies this`maxIn
      ensures Valid()
      ensures ok == (cap <= MAX_CAP)
      ensures View() == if ok && !broken
                        then Apply(old(View()), filter, SetLimit(LimitFor(cap, readCap + writeCap)))
                        else old(View())
      ensures ok && !broken ==> maxIn + readCap + writeCap == Capacity(cap, readCap + writeCap)
    {
      var chCap := readCap + writeCap;
      var min := chCap + 1;
      var l := cap;
      if l < min {
        l := min;
      }
      if l > MAX_CAP {
        return false;
      }
      if maxIn != l - chCap && !broken {
        maxIn := l - chCap;
      }
      return true;
    }

    method Breakoff()
      requires Valid()
      modifies this`broken
      ensures Valid()
      ensures View() == Apply(old(View()), filter, PumpSpec.Breakoff)
    {
      if broken {
        return;
      }
      broken := true;
    }

    /** The environment closes the input channel. */
    method CloseInput()
      requires Valid()
      modifies this`inputDone
      ensures Valid() && View() == Apply(old(View()), filter, PumpSpec.CloseInput)
    {
      inputDone := true;
    }

    /** The scheduler's turn in which `e` is what the select would return. */
    method RunOnce(e: Selected)
      requires Valid() && Enabled(View(), Turn(e))
      modifies this, list, list.spine
      ensures Valid() && View() == PumpSpec.RunOnce(old(View()), filter, e)
      ensures fresh(set n | n in list.spine && n !in old(list.spine))
    {
      StepInv(View(), filter, Turn(e));
      if queueSize == 0 {
        WaitRead(e);
      } else {
        WaitReadOrWrite(e);
      }
    }

    method WaitRead(e: Selected)
      requires Valid() && Enabled(View(), Turn(e)) && queueSize == 0
      modifies this
      ensures Linked() && View() == PumpSpec.RunOnce(old(View()), filter, e)
      ensures list.spine == old(list.spine)
    {
      if inputClosed {
        aborted := true;
        return;
      }
      var c := ChoiceOf(e);
      if !c.ok {
        aborted := true;
        return;
      }
      if c.chosen == TimeoutI || c.chosen == ReloadI {
        return;
      }
      read := read + [c.recv];
      asked := asked + Asking(filter, [c.recv]);
      if filter.Some? && !filter.value(c.recv) {
        return;
      }
      queueSize := queueSize + 1;
      send := Some(c.recv);
    }

    method WaitReadOrWrite(e: Selected)
      requires Linked() && QueueOk(View().queue) && CanFire(View(), e) && queueSize > 0
      modifies this, list, list.spine
      ensures Linked() && (maxIn, inputDone, broken) == old((maxIn, inputDone, broken))
      ensures Waiting() == QueueAfter(old(View()), filter, e)
      ensures Sched(waitCase, rwCase, inputClosed, aborted) == SchedAfter(old(View()), e)
      ensures Log(read, written, asked) == LogAfter(old(View()), filter, e)
      ensures fresh(set n | n in list.spine && n !in old(list.spine))
    {
      ghost var before := View();
      var c := TryReadOrWrite(e);
      SameOutcome(before, View(), filter, e);
      if c.chosen == TimeoutI || c.chosen == ReloadI {
        return;
      }
      if c.chosen == WriteI {
        WriteTurn(e);
      } else {
        ReadTurn(c, e);
      }
    }

    /** What a turn does to the queue and the history does not depend on the read cases. */
    static lemma SameOutcome(p: Pump, q: Pump, f: Filter, e: Selected)
      requires q.queue == p.queue && q.log == p.log && q.sched.inputClosed == p.sched.inputClosed
      ensures QueueAfter(q, f, e) == QueueAfter(p, f, e) && LogAfter(q, f, e) == LogAfter(p, f, e)
    {
    }

    ghost function Flags(): Sched
      reads this
    {
      Sched(waitCase, rwCase, inputClosed, aborted)
    }

    method WriteTurn(e: Selected)
      requires Linked() && QueueOk(View().queue) && queueSize > 0 && e.Written?
      modifies this`queueSize, this`send, this`written, this`asked, list
      ensures Linked() && forall n | n in list.spine :: n in old(list.spine)
      ensures Waiting() == QueueAfter(old(View()), filter, e)
      ensures Log(read, written, asked) == LogAfter(old(View()), filter, e)
    {
      HandleSend();
    }

    method ReadTurn(c: Choice, e: Selected)
      requires Linked() && QueueOk(View().queue) && queueSize > 0
      requires c == ChoiceOf(e) && (e.Break? || e.ReadOk? || e.ReadClosed?)
      modifies this`aborted, this`waitCase, this`rwCase, this`inputClosed, this`queueSize, this`read, list, list.spine
      ensures Linked()
      ensures Waiting() == QueueAfter(old(View()), filter, e)
      ensures Flags() == if e.ReadClosed? then Sched(Dummy, Dummy, true, old(aborted))
                         else if e.Break? then old(Flags()).(aborted := true)
                         else old(Flags())
      ensures Log(read, written, asked) == LogAfter(old(View()), filter, e)
      ensures fresh(set n | n in list.spine && n !in old(list.spine))
    {
      HandleRecv(c);
    }

    /** The select with a possibly hidden input; afterwards the read case is put back if it was. */
    method TryReadOrWrite(e: Selected) returns (c: Choice)
      requires Linked() && QueueOk(View().queue) && CanFire(View(), e) && queueSize > 0
      modifies this`rwCase
      ensures c == ChoiceOf(e)
      ensures rwCase == if Blocked(old(View())) then Input else old(rwCase)
    {
      if queueSize >= maxIn {
        rwCase := Dummy;
        c := ChoiceOf(e);
        rwCase := Input;
      } else {
        c := ChoiceOf(e);
      }
    }

    ghost function Waiting(): Queue
      reads this, list, list.spine
      requires list.Valid()
    {
      Queue(list.Contents(), queueSize, send)
    }

    method HandleSend()
      requires list.Valid() && QueueOk(Waiting()) && queueSize > 0
      modifies this`queueSize, this`send, this`written, this`asked, list
      ensures list.Valid()
      ensures Waiting() == NextStaged(filter, old(list.Contents()), old(send))
      ensures written == old(written) + SendSlot(old(Waiting()))
      ensures asked == old(asked) + Asking(filter, Tried(filter, old(list.Contents())))
      ensures forall n | n in list.spine :: n in old(list.spine)
    {
      written := written + [send.value];
      queueSize := queueSize - 1;
      PrepareNextWrite();
    }

    method PrepareNextWrite()
      requires list.Valid() && queueSize == |list.Contents()|
      modifies this`queueSize, this`send, this`asked, list
      ensures list.Valid()
      ensures Waiting() == NextStaged(filter, old(list.Contents()), old(send))
      ensures asked == old(asked) + Asking(filter, Tried(filter, old(list.Contents())))
      ensures forall n | n in list.spine :: n in old(list.spine)
    {
      ghost var calls: seq<int> := [];
      while queueSize > 0
        invariant list.Valid() && queueSize == |list.Contents()|
        invariant NextStaged(filter, list.Contents(), send) == NextStaged(filter, old(list.Contents()), send)
        invariant calls + Tried(filter, list.Contents()) == Tried(filter, old(list.Contents()))
        invariant send == old(send) && asked == old(asked)
        invariant forall n | n in list.spine :: n in old(list.spine)
        decreases queueSize
      {
        ghost var before := list.Contents();
        var val := list.Pop();
        Assoc(calls, [before[0]], if Keeps(filter, before[0]) then [] else Tried(filter, before[1..]));
        calls := calls + [val.value];
        if filter.Some? && !filter.value(val.value) {
          queueSize := queueSize - 1;
        } else {
          send := val;
          break;
        }
      }
      asked := asked + Asking(filter, calls);
    }

    method HandleRecv(c: Choice)
      requires Linked() && (c.chosen == CloseI || c.chosen == ReadI) && (c.ok ==> c.chosen == ReadI)
      modifies this`aborted, this`waitCase, this`rwCase, this`inputClosed, this`queueSize, this`read, list, list.spine
      ensures Linked()
      ensures aborted == (old(aborted) || (!c.ok && c.chosen == CloseI))
      ensures !c.ok && c.chosen == ReadI ==> waitCase == rwCase == Dummy && inputClosed
      ensures c.ok || c.chosen == CloseI ==>
        waitCase == old(waitCase) && rwCase == old(rwCase) && inputClosed == old(inputClosed)
      ensures list.Contents() == old(list.Contents()) + (if c.ok then [c.recv] else [])
      ensures queueSize == old(queueSize) + (if c.ok then 1 else 0)
      ensures read == old(read) + (if c.ok then [c.recv] else [])
      ensures fresh(set n | n in list.spine && n !in old(list.spine))
    {
      if !c.ok {
        if c.chosen == CloseI {
          aborted := true;
        } else {
          waitCase := Dummy;
          rwCase := Dummy;
          inputClosed := true;
        }
        return;
      }
      if c.chosen == ReadI {
        list.Push(c.recv);
        queueSize := queueSize + 1;
        read := read + [c.recv];
      }
    }

    method TurnIfPossible(e: Selected)
      requires Valid() && !aborted
      modifies this, list, list.spine
      ensures Valid() && broken == old(broken)
      ensures View() == if Enabled(old(View()), Turn(e)) then PumpSpec.RunOnce(old(View()), filter, e) else old(View())
      ensures fresh(set n | n in list.spine && n !in old(list.spine))
    {
      if CanFireNow(e) {
        RunOnce(e);
      }
    }

    /** The transport loop over the select outcomes `es`, skipping those that cannot happen. */
    method RunTurns(es: seq<Selected>)
      requires Valid()
      modifies this, list, list.spine
      ensures Valid() && View() == Turns(old(View()), filter, es)
      ensures broken == old(broken)
    {
      ghost var start := View();
      var i := 0;
      while i < |es| && !aborted
        invariant i <= |es| && Valid()
        invariant View() == Turns(start, filter, es[..i]) && broken == start.broken
        invariant fresh(set n | n in list.spine && n !in old(list.spine))
      {
        assert es[..i + 1][..i] == es[..i];
        TurnIfPossible(es[i]);
        i := i + 1;
      }
      if i < |es| {
        AbortedStays(start, filter, es, i);
      } else {
        assert es[..i] == es;
      }
    }

    /** transport: the loop, and when the scheduler has aborted, its deferred Breakoff.  If it aborted
        without a Breakoff from outside, every value read was written or rejected by the filter. */
    method Transport(es: seq<Selected>)
      requires Valid()
      modifies this, list, list.spine
      ensures Valid()
      ensures
        var p := Turns(old(View()), filter, es);
        View() == if p.sched.aborted then p.(broken := true) else p
      ensures written <= Kept(filter, read)
      ensures aborted && !old(broken) ==> inputDone && written == Kept(filter, read)
    {
      RunTurns(es);
      Delivered(View(), filter);
      if aborted {
        Breakoff();
      }
    }

    static lemma Delivered(p: Pump, f: Filter)
      requires Inv(p, f)
      ensures p.log.written <= Kept(f, p.log.read)
      ensures p.sched.aborted && !p.broken ==> p.inputDone && p.log.written == Kept(f, p.log.read)
    {
    }

    predicate CanFireNow(e: Selected)
      reads this, list, list.spine
      requires Linked()
      ensures CanFireNow(e) == CanFire(View(), e)
    {
      var readCase := if queueSize == 0 then waitCase else if queueSize >= maxIn then Dummy else rwCase;
      match e
      case Reload(ok) => ok || broken
      case Timeout => true
      case Break => broken
      case ReadOk(_) => readCase.Input? && !inputDone
      case ReadClosed => readCase.Input? && inputDone
      case Written => queueSize > 0
    }
  }
}
