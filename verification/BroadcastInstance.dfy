/** The goroutines of one broadcaster instance as imperative steps over channels on the heap: messages
    point at the next channel, and any number of listeners may share one.  Each step is proved to be the
    matching step of `BroadcastChain`, in which channels are positions of a chain. */
module BroadcastInstance {
  import opened Wrappers
  import opened C = BroadcastChain

  /** A channel of capacity 1. */
  class Chan {
    var buf: Option<Msg>

    constructor ()
      ensures buf == None
    {
      buf := None;
    }
  }

  datatype Msg = Next(next: Chan, payload: Payload) | TerminationMsg

  /** Where a listener goroutine stands, with its locals. */
  datatype LoopPc = Taking | Putting(msg: Msg) | Calling(v: Payload) | Closing | Done

  datatype Loop = Loop(rc: Chan, pc: LoopPc, handled: seq<Payload>)

  /** A message, and a goroutine, seen through the chain. */
  ghost predicate SameMsg(chain: seq<Chan>, m: Msg, a: Message) {
    match m
    case Next(c, p) => a.Data? && a.payload == p && a.next < |chain| && chain[a.next] == c
    case TerminationMsg => a.Termination?
  }

  ghost predicate SameLoop(chain: seq<Chan>, l: Loop, a: Listener) {
    && a.rc < |chain| && chain[a.rc] == l.rc && a.handled == l.handled
    && match l.pc
       case Taking => a.pc.AtTake?
       case Putting(m) => a.pc.AtPut? && SameMsg(chain, m, a.pc.msg)
       case Calling(v) => a.pc == AtCall(v)
       case Closing => a.pc.AtClose?
       case Done => a.pc.Stopped?
  }

  lemma PcAgrees(chain: seq<Chan>, l: Loop, a: Listener)
    requires SameLoop(chain, l, a)
    ensures (l.pc.Taking? <==> a.pc.AtTake?) && (l.pc.Putting? <==> a.pc.AtPut?)
    ensures (l.pc.Calling? <==> a.pc.AtCall?) && (l.pc.Closing? <==> a.pc.AtClose?)
  {
  }

  ghost predicate SameBuf(chain: seq<Chan>, buf: Option<Msg>, a: Option<Message>) {
    if buf.None? then a.None? else a.Some? && SameMsg(chain, buf.value, a.value)
  }

  ghost predicate SameLoops(chain: seq<Chan>, loops: seq<Loop>, ls: seq<Listener>) {
    |loops| == |ls| && forall i: nat | i < |ls| :: SameLoop(chain, loops[i], ls[i])
  }

  /** One more channel at the end changes no message or goroutine. */
  lemma ChainGrows(chain: seq<Chan>, c: Chan)
    ensures forall m, a | SameMsg(chain, m, a) :: SameMsg(chain + [c], m, a)
    ensures forall b, a | SameBuf(chain, b, a) :: SameBuf(chain + [c], b, a)
    ensures forall ls, a | SameLoops(chain, ls, a) :: SameLoops(chain + [c], ls, a)
  {
    forall ls, a | SameLoops(chain, ls, a) ensures SameLoops(chain + [c], ls, a) {
      forall i: nat | i < |ls| ensures SameLoop(chain + [c], ls[i], a[i]) {
        assert SameLoop(chain, ls[i], a[i]);
      }
    }
  }

  /** What a schedule does: each wanted step happens if it is enabled at its turn. */
  function Scheduled(s: State, wanted: seq<Action>): State {
    if |wanted| == 0 then s
    else
      var before := Scheduled(s, wanted[..|wanted| - 1]);
      var a := wanted[|wanted| - 1];
      if Enabled(before, a) then Apply(before, a) else before
  }

  /** `sent` and the `handled` of a listener only record history. */
  class Instance {
    var currc: Chan
    var notifier: NotifierPc
    var sendcClosed: bool
    var loops: seq<Loop>
    var sent: seq<Payload>
    /** Every channel ever made, in order, and the state of the chain. */
    ghost var chain: seq<Chan>
    ghost var model: State

    ghost predicate ChannelsOk()
      reads this, chain
    {
      && |chain| == |model.chans|
      && (forall j: nat, k: nat | j < k < |chain| :: chain[j] != chain[k])
      && (forall k: nat | k < |chain| :: SameBuf(chain, chain[k].buf, model.chans[k]))
    }

    /** The fields are the chain's state. */
    ghost predicate Tied()
      reads this, chain
    {
      && ChannelsOk()
      && model.curr < |chain| && currc == chain[model.curr]
      && notifier == model.notifier && sendcClosed == model.closed && sent == model.sent
      && SameLoops(chain, loops, model.listeners)
    }

    ghost predicate Valid()
      reads this, chain
    {
      Tied() && Inv(model)
    }

    constructor ()
      ensures Valid() && model == C.INIT && fresh(chain)
    {
      var c := new Chan();
      currc, notifier, sendcClosed, loops, sent := c, Selecting, false, [], [];
      chain, model := [c], C.INIT;
      new;
      InitInv();
    }

    /** Whether a step would neither block nor panic. */
    predicate Ready(a: Action)
      requires Tied()
      reads this, chain
      ensures Ready(a) == Enabled(model, a)
    {
      match a
      case Receive(_) => notifier.Selecting? && !sendcClosed
      case Publish => notifier.Publishing? && currc.buf.None?
      case AcceptListener => notifier.Selecting?
      case Reply => notifier.Replying?
      case Close => !sendcClosed
      case SeeClosed => notifier.Selecting? && sendcClosed
      case Terminate => notifier.Terminating? && currc.buf.None?
      case Take(i) => i < |loops| && LoopReady(a)
      case PutBack(i) => i < |loops| && LoopReady(a)
      case Call(i) => i < |loops| && LoopReady(a)
      case CloseStub(i) => i < |loops| && LoopReady(a)
    }

    predicate LoopReady(a: Action): (r: bool)
      requires Tied() && (a.Take? || a.PutBack? || a.Call? || a.CloseStub?) && a.i < |loops|
      reads this, chain
      ensures r == Enabled(model, a)
    {
      PcAgrees(chain, loops[a.i], model.listeners[a.i]);
      match a
      case Take(i) => loops[i].pc.Taking? && LoopChan(i).buf.Some?
      case PutBack(i) => loops[i].pc.Putting? && LoopChan(i).buf.None?
      case Call(i) => loops[i].pc.Calling?
      case CloseStub(i) => loops[i].pc.Closing?
    }

    /** The channel of listener `i`, which is one of the chain. */
    function LoopChan(i: nat): (c: Chan)
      requires Tied() && i < |loops|
      reads this, chain
      ensures c in chain && model.listeners[i].rc < |chain| && chain[model.listeners[i].rc] == c
      ensures SameBuf(chain, c.buf, model.chans[model.listeners[i].rc])
    {
      assert SameLoop(chain, loops[i], model.listeners[i]);
      loops[i].rc
    }

    /** The select of runNotifierLoop and what it does without a chain channel; Reply also starts the new
        listener's goroutine. */
    method NotifierStep(a: Action)
      requires Tied() && Enabled(model, a)
      requires a.Receive? || a.AcceptListener? || a.Reply? || a.SeeClosed?
      modifies this
      ensures Tied() && model == Apply(old(model), a) && chain == old(chain)
    {
      match a {
        case Receive(v) =>
          sent := sent + [v];
          notifier := Publishing(v);
        case AcceptListener =>
          notifier := Replying;
        case Reply =>
          loops := loops + [Loop(currc, Taking, [])];
          notifier := Selecting;
        case SeeClosed =>
          notifier := Terminating;
      }
      model := Apply(model, a);
    }

    /** `currc <- b`, with a new channel in it that then becomes the tail. */
    method PublishStep()
      requires Tied() && Enabled(model, Publish)
      modifies this, currc
      ensures Tied() && model == Apply(old(model), Publish)
      ensures exists c: Chan :: fresh(c) && chain == old(chain) + [c]
    {
      var c := new Chan();
      var b := Next(c, notifier.v);
      ChainGrows(chain, c);
      currc.buf := Some(b);
      currc := c;
      notifier := Selecting;
      chain := chain + [c];
      model := Apply(model, Publish);
    }

    /** `currc <- terminationMsg`. */
    method TerminateStep()
      requires Tied() && Enabled(model, Terminate)
      modifies this, currc
      ensures Tied() && model == Apply(old(model), Terminate) && chain == old(chain)
    {
      currc.buf := Some(TerminationMsg);
      notifier := Exited;
      model := Apply(model, Terminate);
    }

    /** `msg := <-rc` of listener `i`. */
    method TakeStep(i: nat)
      requires Tied() && Enabled(model, Take(i))
      modifies this, chain
      ensures Tied() && model == Apply(old(model), Take(i)) && chain == old(chain)
    {
      var rc := LoopChan(i);
      var msg := rc.buf.value;
      rc.buf := None;
      loops := loops[i := loops[i].(pc := Putting(msg))];
      model := Apply(model, Take(i));
    }

    /** `rc <- msg`, and on to the next channel. */
    method PutBackStep(i: nat)
      requires Tied() && Enabled(model, PutBack(i))
      modifies this, chain
      ensures Tied() && model == Apply(old(model), PutBack(i)) && chain == old(chain)
    {
      var rc := LoopChan(i);
      var msg := loops[i].pc.msg;
      assert SameLoop(chain, loops[i], model.listeners[i]) && SameMsg(chain, msg, model.listeners[i].pc.msg);
      rc.buf := Some(msg);
      if msg.TerminationMsg? {
        loops := loops[i := loops[i].(pc := Closing)];
      } else {
        loops := loops[i := loops[i].(rc := msg.next, pc := Calling(msg.payload))];
      }
      model := Apply(model, PutBack(i));
    }

    /** The callback of listener `i`, or the close of its stub. */
    method CallOrClose(a: Action)
      requires Tied() && Enabled(model, a) && (a.Call? || a.CloseStub?)
      modifies this
      ensures Tied() && model == Apply(old(model), a) && chain == old(chain)
    {
      var l := loops[a.i];
      assert SameLoop(chain, l, model.listeners[a.i]);
      loops := loops[a.i := if a.Call? then l.(pc := Taking, handled := l.handled + [l.pc.v]) else l.(pc := Done)];
      model := Apply(model, a);
    }

    method CloseSendc()
      requires Tied() && !sendcClosed
      modifies this
      ensures Tied() && model == Apply(old(model), Close) && chain == old(chain)
    {
      sendcClosed := true;
      model := Apply(model, Close);
    }

    method Step(a: Action)
      requires Valid() && Enabled(model, a)
      modifies this, chain
      ensures Valid() && model == Apply(old(model), a)
      ensures fresh(set c | c in chain && c !in old(chain))
    {
      StepInv(model, a);
      Advance(a);
    }

    method Advance(a: Action)
      requires Tied() && Enabled(model, a)
      modifies this, chain
      ensures Tied() && model == Apply(old(model), a)
      ensures fresh(set c | c in chain && c !in old(chain))
    {
      match a {
        case Publish => PublishStep();
        case Terminate => TerminateStep();
        case Take(i) => TakeStep(i);
        case PutBack(i) => PutBackStep(i);
        case Call(_) => CallOrClose(a);
        case CloseStub(_) => CallOrClose(a);
        case Close => CloseSendc();
        case _ => NotifierStep(a);
      }
    }

    /** The goroutines under the schedule `wanted`: whoever's step is enabled moves, a blocked one
        does not.  Whatever the schedule, each listener has handled exactly the next payloads after
        its registration, and once its stub is closed it has handled all of them. */
    method RunSchedule(wanted: seq<Action>)
      requires Valid()
      modifies this, chain
      ensures Valid() && model == Scheduled(old(model), wanted)
      ensures old(sent) <= sent && |loops| == |model.listeners|
      ensures forall i: nat | i < |loops| ::
        var start := model.listeners[i].start;
        && start <= |sent| && loops[i].handled <= sent[start..]
        && (loops[i].pc.Done? ==> loops[i].handled == sent[start..])
    {
      for k := 0 to |wanted|
        invariant Valid() && model == Scheduled(old(model), wanted[..k]) && old(sent) <= model.sent
        invariant fresh(set c | c in chain && c !in old(chain))
      {
        assert wanted[..k + 1][..k] == wanted[..k];
        if Ready(wanted[k]) {
          Step(wanted[k]);
        }
      }
      assert wanted[..|wanted|] == wanted;
      forall i: nat | i < |loops| ensures
        var start := model.listeners[i].start;
        && start <= |sent| && loops[i].handled <= sent[start..]
        && (loops[i].pc.Done? ==> loops[i].handled == sent[start..])
      {
        assert SameLoop(chain, loops[i], model.listeners[i]);
        HandledSoFar(model, i);
      }
    }
  }
}
