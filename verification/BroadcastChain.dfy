/** One broadcaster instance (broadcast/broadcast_instance.go, broadcast/listener.go) as a
    transition system.

    The notifier goroutine and the listener goroutines share a growing chain of capacity-1
    channels.  A channel is named by its index in `chans`, in the order the notifier makes them;
    `None` is an empty channel buffer.  Every channel operation and every callback is a step of
    its own, so a run may interleave the goroutines in any order. */
module BroadcastChain {
  import opened Wrappers

  datatype Payload = Payload(ctx: nat, body: nat)

  /** A chain message: a payload with the channel of its successor, or the termination message,
      whose successor is nil. */
  datatype Message = Data(next: nat, payload: Payload) | Termination

  /** Where the notifier loop stands: in its select, about to run `currc <- b`, about to answer
      an AddListener, about to send the termination message, or returned. */
  datatype NotifierPc = Selecting | Publishing(v: Payload) | Replying | Terminating | Exited

  /** Where a listener loop stands: at `msg := <-rc`, at `rc <- msg`, at the callback, at
      `stub.Close()`, or returned. */
  datatype ListenerPc = AtTake | AtPut(msg: Message) | AtCall(v: Payload) | AtClose | Stopped

  /** `start` (how many payloads had been sent at registration) and `handled` (the callback's
      arguments, in order) record history; no step reads them. */
  datatype Listener = Listener(rc: nat, pc: ListenerPc, start: nat, handled: seq<Payload>)

  /** `sent` records, in order, the payloads whose Send returned. */
  datatype State = State(
    chans: seq<Option<Message>>,
    curr: nat,
    notifier: NotifierPc,
    closed: bool,
    listeners: seq<Listener>,
    sent: seq<Payload>)

  datatype Action =
    | Receive(v: Payload) // rendezvous of Send with the notifier's select
    | Publish // currc <- b; currc = c
    | AcceptListener // rendezvous of AddListener with the notifier's select
    | Reply // r <- currc, and the listener goroutine starts
    | Close // close(Sendc)
    | SeeClosed // the select sees the closed channel
    | Terminate // currc <- terminationMsg
    | Take(i: nat)
    | PutBack(i: nat)
    | Call(i: nat)
    | CloseStub(i: nat)

  const INIT := State([None], 0, Selecting, false, [], [])

  predicate Empty(s: State, k: nat) {
    k < |s.chans| && s.chans[k].None?
  }

  /** A step is enabled when no channel operation in it would block or panic. */
  predicate Enabled(s: State, a: Action) {
    match a
    case Receive(_) => s.notifier.Selecting? && !s.closed
    case Publish => s.notifier.Publishing? && Empty(s, s.curr)
    case AcceptListener => s.notifier.Selecting?
    case Reply => s.notifier.Replying?
    case Close => !s.closed
    case SeeClosed => s.notifier.Selecting? && s.closed
    case Terminate => s.notifier.Terminating? && Empty(s, s.curr)
    case Take(i) =>
      && i < |s.listeners| && s.listeners[i].pc.AtTake?
      && s.listeners[i].rc < |s.chans| && s.chans[s.listeners[i].rc].Some?
    case PutBack(i) => i < |s.listeners| && s.listeners[i].pc.AtPut? && Empty(s, s.listeners[i].rc)
    case Call(i) => i < |s.listeners| && s.listeners[i].pc.AtCall?
    case CloseStub(i) => i < |s.listeners| && s.listeners[i].pc.AtClose?
  }

  function Apply(s: State, a: Action): State
    requires Enabled(s, a)
  {
    match a
    case Receive(v) => s.(notifier := Publishing(v), sent := s.sent + [v])
    case Publish =>
      s.(chans := s.chans[s.curr := Some(Data(|s.chans|, s.notifier.v))] + [None],
         curr := |s.chans|,
         notifier := Selecting)
    case AcceptListener => s.(notifier := Replying)
    case Reply =>
      s.(listeners := s.listeners + [Listener(s.curr, AtTake, |s.sent|, [])], notifier := Selecting)
    case Close => s.(closed := true)
    case SeeClosed => s.(notifier := Terminating)
    case Terminate => s.(chans := s.chans[s.curr := Some(Termination)], notifier := Exited)
    case Take(i) =>
      var l := s.listeners[i];
      s.(chans := s.chans[l.rc := None],
         listeners := s.listeners[i := l.(pc := AtPut(s.chans[l.rc].value))])
    case PutBack(i) =>
      var l := s.listeners[i];
      var l' := if l.pc.msg.Termination?
                then l.(pc := AtClose)
                else l.(rc := l.pc.msg.next, pc := AtCall(l.pc.msg.payload));
      s.(chans := s.chans[l.rc := Some(l.pc.msg)], listeners := s.listeners[i := l'])
    case Call(i) =>
      var l := s.listeners[i];
      s.(listeners := s.listeners[i := l.(pc := AtTake, handled := l.handled + [l.pc.v])])
    case CloseStub(i) =>
      s.(listeners := s.listeners[i := s.listeners[i].(pc := Stopped)])
  }

  // ----- The invariant -----------------------------------------------------------------------

  /** Slot `k` has been given its message. */
  predicate Filled(s: State, k: nat) {
    k < s.curr || (k == s.curr && s.notifier.Exited?)
  }

  /** The message that belongs to filled slot `k`. */
  function MessageOf(s: State, k: nat): Message {
    if k < s.curr && k < |s.sent| then Data(k + 1, s.sent[k]) else Termination
  }

  /** Listener `i` holds the token of slot `k`. */
  predicate Holds(s: State, i: nat, k: nat) {
    i < |s.listeners| && s.listeners[i].pc.AtPut? && s.listeners[i].rc == k
  }

  ghost predicate NotifierOk(s: State) {
    && |s.chans| == s.curr + 1
    && |s.sent| == s.curr + (if s.notifier.Publishing? then 1 else 0)
    && (s.notifier.Publishing? ==> s.notifier.v == s.sent[s.curr])
    && (s.notifier.Terminating? || s.notifier.Exited? ==> s.closed)
  }

  /** A channel buffer holds only its own slot's message. */
  ghost predicate SlotsOk(s: State) {
    forall k: nat | k < |s.chans| && s.chans[k].Some? ::
      Filled(s, k) && s.chans[k].value == MessageOf(s, k)
  }

  /** A listener's position, its pending message and its history agree. */
  ghost predicate ListenerOk(s: State, l: Listener) {
    && l.rc <= s.curr
    && l.start + |l.handled| + (if l.pc.AtCall? then 1 else 0) == l.rc
    && |s.sent| >= s.curr
    && l.handled == s.sent[l.start..l.start + |l.handled|]
    && (l.pc.AtPut? ==> Filled(s, l.rc) && l.pc.msg == MessageOf(s, l.rc))
    && (l.pc.AtCall? ==> l.pc.v == s.sent[l.rc - 1])
    && (l.pc.AtClose? || l.pc.Stopped? ==> s.notifier.Exited? && l.rc == s.curr)
  }

  ghost predicate ListenersOk(s: State) {
    forall i: nat | i < |s.listeners| :: ListenerOk(s, s.listeners[i])
  }

  ghost predicate Held(s: State, k: nat) {
    exists i: nat :: Holds(s, i, k)
  }

  /** Token passing: a filled slot's message is in its channel or held by a listener, and a slot
      has at most one holder, which excludes the message being in the channel. */
  ghost predicate TokensOk(s: State) {
    && (forall k: nat | Filled(s, k) && Empty(s, k) :: Held(s, k))
    && (forall i: nat, k: nat | Holds(s, i, k) :: Empty(s, k))
    && (forall i: nat, j: nat, k: nat | Holds(s, i, k) && Holds(s, j, k) :: i == j)
  }

  ghost predicate Inv(s: State) {
    NotifierOk(s) && SlotsOk(s) && ListenersOk(s) && TokensOk(s)
  }

  lemma InitInv()
    ensures Inv(INIT)
  {
  }

  lemma PublishInv(s: State)
    requires Inv(s) && Enabled(s, Publish)
    ensures Inv(Apply(s, Publish))
  {
    var s' := Apply(s, Publish);
    forall k: nat | Filled(s', k) && Empty(s', k) ensures Held(s', k) {
      assert Filled(s, k) && Empty(s, k);
      var i: nat :| Holds(s, i, k);
      assert Holds(s', i, k);
    }
    forall i: nat, k: nat | Holds(s', i, k) ensures Empty(s', k) {
      assert Holds(s, i, k);
    }
    forall i: nat, j: nat, k: nat | Holds(s', i, k) && Holds(s', j, k) ensures i == j {
      assert Holds(s, i, k) && Holds(s, j, k);
    }
  }

  lemma TerminateInv(s: State)
    requires Inv(s) && Enabled(s, Terminate)
    ensures Inv(Apply(s, Terminate))
  {
    var s' := Apply(s, Terminate);
    forall k: nat | Filled(s', k) && Empty(s', k) ensures Held(s', k) {
      assert Filled(s, k) && Empty(s, k);
      var i: nat :| Holds(s, i, k);
      assert Holds(s', i, k);
    }
    forall i: nat, k: nat | Holds(s', i, k) ensures Empty(s', k) {
      assert Holds(s, i, k);
    }
    forall i: nat, j: nat, k: nat | Holds(s', i, k) && Holds(s', j, k) ensures i == j {
      assert Holds(s, i, k) && Holds(s, j, k);
    }
  }

  lemma TakeTokens(s: State, i: nat)
    requires Inv(s) && Enabled(s, Take(i))
    ensures TokensOk(Apply(s, Take(i)))
  {
    var s' := Apply(s, Take(i));
    var rc := s.listeners[i].rc;
    assert Holds(s', i, rc);
    forall j: nat, k: nat | Holds(s', j, k) ensures Empty(s', k) && (k == rc ==> j == i) {
      assert j != i ==> Holds(s, j, k);
    }
    forall k: nat | Filled(s', k) && Empty(s', k) ensures Held(s', k) {
      if k != rc {
        assert Filled(s, k) && Empty(s, k);
        var j: nat :| Holds(s, j, k);
        assert Holds(s', j, k);
      }
    }
    forall j1: nat, j2: nat, k: nat | Holds(s', j1, k) && Holds(s', j2, k) ensures j1 == j2 {
      if k != rc {
        assert Holds(s, j1, k) && Holds(s, j2, k);
      }
    }
  }

  lemma PutBackTokens(s: State, i: nat)
    requires Inv(s) && Enabled(s, PutBack(i))
    ensures TokensOk(Apply(s, PutBack(i)))
  {
    var s' := Apply(s, PutBack(i));
    var rc := s.listeners[i].rc;
    assert Holds(s, i, rc);
    forall j: nat, k: nat | Holds(s', j, k) ensures Empty(s', k) && Holds(s, j, k) {
      assert Holds(s, j, k);
    }
    forall k: nat | Filled(s', k) && Empty(s', k) ensures Held(s', k) {
      assert Filled(s, k) && Empty(s, k);
      var j: nat :| Holds(s, j, k);
      assert Holds(s', j, k);
    }
  }

  /** The rest of the invariant for a step of one listener. */
  lemma ListenerKeeps(s: State, a: Action)
    requires Inv(s) && Enabled(s, a) && (a.Take? || a.PutBack? || a.Call? || a.CloseStub?)
    ensures NotifierOk(Apply(s, a)) && SlotsOk(Apply(s, a)) && ListenersOk(Apply(s, a))
  {
    var s' := Apply(s, a);
    assert ListenerOk(s, s.listeners[a.i]);
    SameNotifier(s, a);
    forall k: nat | k < |s'.chans| && s'.chans[k].Some?
      ensures Filled(s', k) && s'.chans[k].value == MessageOf(s', k)
    {
    }
    ListenerMoved(s, a);
    forall j: nat | j < |s'.listeners| ensures ListenerOk(s', s'.listeners[j]) {
      if j != a.i {
        assert ListenerOk(s, s.listeners[j]);
      }
    }
  }

  lemma SameNotifier(s: State, a: Action)
    requires Enabled(s, a) && (a.Take? || a.PutBack? || a.Call? || a.CloseStub?)
    ensures
      var s' := Apply(s, a);
      && |s'.chans| == |s.chans| && |s'.listeners| == |s.listeners|
      && s'.curr == s.curr && s'.notifier == s.notifier && s'.closed == s.closed && s'.sent == s.sent
      && forall k: nat :: MessageOf(s', k) == MessageOf(s, k) && (Filled(s', k) <==> Filled(s, k))
  {
  }

  lemma ListenerMoved(s: State, a: Action)
    requires Enabled(s, a) && (a.Take? || a.PutBack? || a.Call? || a.CloseStub?)
    requires NotifierOk(s) && SlotsOk(s) && ListenerOk(s, s.listeners[a.i])
    ensures ListenerOk(Apply(s, a), Apply(s, a).listeners[a.i])
  {
    var l := s.listeners[a.i];
    SameNotifier(s, a);
    if a.Call? {
      OneMoreSent(s.sent, l.start, l.rc - 1);
    }
  }

  lemma OneMoreSent(sent: seq<Payload>, i: nat, j: nat)
    requires i <= j < |sent|
    ensures sent[i..j + 1] == sent[i..j] + [sent[j]]
  {
  }

  /** Tokens are untouched by a step that changes neither the buffers nor who holds what. */
  lemma TokensKept(s: State, s': State)
    requires Inv(s)
    requires s'.chans == s.chans && s'.curr == s.curr
    requires s'.notifier.Exited? == s.notifier.Exited?
    requires forall i: nat, k: nat :: Holds(s', i, k) <==> Holds(s, i, k)
    ensures TokensOk(s')
  {
    forall k: nat | Filled(s', k) && Empty(s', k) ensures Held(s', k) {
      assert Filled(s, k) && Empty(s, k);
      var j: nat :| Holds(s, j, k);
      assert Holds(s', j, k);
    }
  }

  /** The notifier's steps that touch no channel buffer. */
  lemma NotifierStepInv(s: State, a: Action)
    requires Inv(s) && Enabled(s, a)
    requires a.Receive? || a.AcceptListener? || a.Reply? || a.Close? || a.SeeClosed?
    ensures Inv(Apply(s, a))
  {
    var s' := Apply(s, a);
    TokensKept(s, s');
    assert SlotsOk(s');
    forall i: nat | i < |s'.listeners| ensures ListenerOk(s', s'.listeners[i]) {
      if i < |s.listeners| {
        assert ListenerOk(s, s.listeners[i]);
      }
    }
  }

  /** A step of one listener. */
  lemma ListenerStepInv(s: State, a: Action)
    requires Inv(s) && Enabled(s, a) && (a.Take? || a.PutBack? || a.Call? || a.CloseStub?)
    ensures Inv(Apply(s, a))
  {
    ListenerKeeps(s, a);
    if a.Take? {
      TakeTokens(s, a.i);
    } else if a.PutBack? {
      PutBackTokens(s, a.i);
    } else {
      TokensKept(s, Apply(s, a));
    }
  }

  /** The token-passing invariant is inductive. */
  lemma StepInv(s: State, a: Action)
    requires Inv(s) && Enabled(s, a)
    ensures Inv(Apply(s, a))
  {
    match a
    case Publish => PublishInv(s);
    case Terminate => TerminateInv(s);
    case Take(_) => ListenerStepInv(s, a);
    case PutBack(_) => ListenerStepInv(s, a);
    case Call(_) => ListenerStepInv(s, a);
    case CloseStub(_) => ListenerStepInv(s, a);
    case _ => NotifierStepInv(s, a);
  }

  // ----- Safety over whole runs --------------------------------------------------------------

  /** `run` is the sequence of states visited by `acts`, starting from a new instance. */
  ghost predicate IsRun(run: seq<State>, acts: seq<Action>) {
    && |run| == |acts| + 1
    && run[0] == INIT
    && forall j: nat | j < |acts| :: Enabled(run[j], acts[j]) && run[j + 1] == Apply(run[j], acts[j])
  }

  lemma {:induction false} RunInv(run: seq<State>, acts: seq<Action>, j: nat)
    requires IsRun(run, acts) && j < |run|
    ensures Inv(run[j])
  {
    if j == 0 {
      InitInv();
    } else {
      RunInv(run, acts, j - 1);
      StepInv(run[j - 1], acts[j - 1]);
    }
  }

  /** Later states of a run keep the sent payloads and every listener's registration point. */
  lemma {:induction false} RunGrows(run: seq<State>, acts: seq<Action>, j: nat, m: nat)
    requires IsRun(run, acts) && j <= m < |run|
    ensures run[j].sent <= run[m].sent
    ensures |run[j].listeners| <= |run[m].listeners|
    ensures forall i: nat | i < |run[j].listeners| ::
      && run[m].listeners[i].start == run[j].listeners[i].start
      && run[j].listeners[i].handled <= run[m].listeners[i].handled
    decreases m
  {
    if j < m {
      RunGrows(run, acts, j, m - 1);
      var s, s' := run[m - 1], run[m];
      assert s' == Apply(s, acts[m - 1]);
      assert s.sent <= s'.sent;
      forall i: nat | i < |s.listeners|
        ensures s'.listeners[i].start == s.listeners[i].start
        ensures s.listeners[i].handled <= s'.listeners[i].handled
      {
      }
    }
  }

  /** Delivery.  In every interleaving, if listener `i` is the one registered by step `j`, then at
      every later state what it has handled is a contiguous run of the sent payloads, in send
      order, beginning with the first payload sent after step `j`. */
  lemma Delivery(run: seq<State>, acts: seq<Action>, j: nat, m: nat)
    requires IsRun(run, acts) && j < m < |run| && acts[j].Reply?
    ensures |run[j].listeners| < |run[m].listeners|
    ensures |run[j].sent| <= |run[m].sent|
    ensures
      var l := run[m].listeners[|run[j].listeners|];
      l.handled <= run[m].sent[|run[j].sent|..]
  {
    var i := |run[j].listeners|;
    assert run[j + 1] == Apply(run[j], acts[j]);
    RunGrows(run, acts, j, j + 1);
    RunGrows(run, acts, j + 1, m);
    RunInv(run, acts, m);
    var l := run[m].listeners[i];
    assert l.start == |run[j].sent|;
    assert ListenerOk(run[m], l);
  }

  /** Where listener `i` stands in what was sent since it registered. */
  lemma HandledSoFar(s: State, i: nat)
    requires Inv(s) && i < |s.listeners|
    ensures
      var l := s.listeners[i];
      l.start <= |s.sent| && l.handled <= s.sent[l.start..] && (l.pc.Stopped? ==> l.handled == s.sent[l.start..])
  {
    var l := s.listeners[i];
    assert ListenerOk(s, l);
    assert l.handled == s.sent[l.start..][..|l.handled|];
  }

  /** Token passing, as a statement about one slot: a filled slot's message is in its channel, or
      it is held by exactly one listener, which will put that same message back. */
  lemma TokenOfSlot(s: State, k: nat)
    requires Inv(s) && Filled(s, k)
    ensures s.chans[k] == Some(MessageOf(s, k)) || s.chans[k].None?
    ensures s.chans[k].Some? ==> forall i: nat :: !Holds(s, i, k)
    ensures s.chans[k].None? ==> exists i: nat ::
      && Holds(s, i, k)
      && s.listeners[i].pc.msg == MessageOf(s, k)
      && forall j: nat | Holds(s, j, k) :: j == i
  {
    if s.chans[k].None? {
      assert Empty(s, k);
      var i: nat :| Holds(s, i, k);
      assert ListenerOk(s, s.listeners[i]);
    } else {
      assert !Empty(s, k);
    }
  }

  /** Neither the notifier's `currc <- b` (or its termination send) nor a listener's put-back ever
      blocks. */
  lemma SendsNeverBlock(s: State)
    requires Inv(s)
    ensures s.notifier.Publishing? ==> Enabled(s, Publish)
    ensures s.notifier.Terminating? ==> Enabled(s, Terminate)
    ensures forall i: nat | i < |s.listeners| && s.listeners[i].pc.AtPut? :: Enabled(s, PutBack(i))
  {
    forall i: nat | i < |s.listeners| && s.listeners[i].pc.AtPut?
      ensures Enabled(s, PutBack(i))
    {
      assert Holds(s, i, s.listeners[i].rc);
    }
  }

  // ----- Stopping ----------------------------------------------------------------------------

  /** The steps the instance's own goroutines take once no Send or AddListener is under way. */
  predicate Internal(a: Action) {
    !a.Receive? && !a.AcceptListener? && !a.Close?
  }

  predicate AllStopped(s: State) {
    forall i: nat | i < |s.listeners| :: s.listeners[i].pc.Stopped?
  }

  /** An instance at rest: every callback of every message since each registration has run. */
  ghost predicate Drained(s: State) {
    forall i: nat | i < |s.listeners| ::
      var l := s.listeners[i];
      l.pc.Stopped? && l.start <= |s.sent| && l.handled == s.sent[l.start..]
  }

  /** A listener's stub closes only after it handled everything sent since it registered. */
  lemma StubClosesLast(s: State, i: nat)
    requires Inv(s) && i < |s.listeners|
    requires s.listeners[i].pc.AtClose? || s.listeners[i].pc.Stopped?
    ensures s.closed && s.listeners[i].start <= |s.sent|
    ensures s.listeners[i].handled == s.sent[s.listeners[i].start..]
  {
    assert ListenerOk(s, s.listeners[i]);
  }

  lemma StoppedIsDrained(s: State)
    requires Inv(s) && AllStopped(s)
    ensures Drained(s)
  {
    forall i: nat | i < |s.listeners| ensures
      var l := s.listeners[i];
      l.pc.Stopped? && l.start <= |s.sent| && l.handled == s.sent[l.start..]
    {
      StubClosesLast(s, i);
    }
  }

  /** Steps a listener still has to take, given the index of the tail slot. */
  function Remaining(l: Listener, curr: nat): nat {
    if l.pc.Stopped? then 0
    else if l.pc.AtClose? then 1
    else
      var ahead := if l.rc <= curr then curr - l.rc else 0;
      3 * (ahead + 1) + (if l.pc.AtCall? then 1 else if l.pc.AtPut? then -1 else 0)
  }

  function RemainingAll(ls: seq<Listener>, curr: nat): nat {
    if |ls| == 0 then 0 else RemainingAll(ls[..|ls| - 1], curr) + Remaining(ls[|ls| - 1], curr)
  }

  /** A bound on the internal steps still possible. */
  function Work(s: State): nat {
    var n := match s.notifier
      case Selecting => 2
      case Terminating => 1
      case Exited => 0
      case Publishing(_) => 3 + 3 * |s.listeners|
      case Replying => 6;
    n + RemainingAll(s.listeners, s.curr)
  }

  lemma {:induction false} RemainingUpdate(ls: seq<Listener>, curr: nat, i: nat, l: Listener)
    requires i < |ls|
    ensures RemainingAll(ls[i := l], curr)
         == RemainingAll(ls, curr) - Remaining(ls[i], curr) + Remaining(l, curr)
  {
    var n := |ls| - 1;
    if i == n {
      assert ls[i := l][..n] == ls[..n];
    } else {
      assert ls[i := l][..n] == ls[..n][i := l];
      RemainingUpdate(ls[..n], curr, i, l);
    }
  }

  lemma {:induction false} RemainingShift(ls: seq<Listener>, curr: nat)
    ensures RemainingAll(ls, curr + 1) <= RemainingAll(ls, curr) + 3 * |ls|
  {
    if |ls| > 0 {
      RemainingShift(ls[..|ls| - 1], curr);
    }
  }

  lemma ListenerWork(s: State, a: Action)
    requires Inv(s) && Enabled(s, a) && (a.Take? || a.PutBack? || a.Call? || a.CloseStub?)
    ensures
      var s' := Apply(s, a);
      && s'.notifier == s.notifier && s'.curr == s.curr
      && s'.listeners == s.listeners[a.i := s'.listeners[a.i]]
      && Remaining(s'.listeners[a.i], s.curr) < Remaining(s.listeners[a.i], s.curr)
  {
    assert ListenerOk(s, s.listeners[a.i]);
  }

  lemma NotifierWork(s: State, a: Action)
    requires Inv(s) && Enabled(s, a) && (a.Publish? || a.Reply?)
    ensures RemainingAll(Apply(s, a).listeners, Apply(s, a).curr)
         <= RemainingAll(s.listeners, s.curr) + (if a.Publish? then 3 * |s.listeners| else 3)
  {
    if a.Publish? {
      RemainingShift(s.listeners, s.curr);
    } else {
      assert Apply(s, a).listeners[..|s.listeners|] == s.listeners;
    }
  }

  /** Every internal step uses up work. */
  lemma WorkDecreases(s: State, a: Action)
    requires Inv(s) && Enabled(s, a) && Internal(a)
    ensures Work(Apply(s, a)) < Work(s)
  {
    if a.Publish? || a.Reply? {
      NotifierWork(s, a);
    } else if a.Take? || a.PutBack? || a.Call? || a.CloseStub? {
      ListenerWork(s, a);
      RemainingUpdate(s.listeners, s.curr, a.i, Apply(s, a).listeners[a.i]);
    }
  }

  /** A listener that has not returned can move, or waits for one that can put its message back. */
  lemma ListenerMoves(s: State, i: nat) returns (a: Action)
    requires Inv(s) && s.notifier.Exited? && i < |s.listeners| && !s.listeners[i].pc.Stopped?
    ensures Internal(a) && Enabled(s, a)
  {
    match s.listeners[i].pc
    case AtPut(_) =>
      SendsNeverBlock(s);
      a := PutBack(i);
    case AtCall(_) => a := Call(i);
    case AtClose => a := CloseStub(i);
    case AtTake => a := TakeOrPutBack(s, i);
  }

  lemma TakeOrPutBack(s: State, i: nat) returns (a: Action)
    requires Inv(s) && s.notifier.Exited? && i < |s.listeners| && s.listeners[i].pc.AtTake?
    ensures Internal(a) && Enabled(s, a)
  {
    var k := s.listeners[i].rc;
    assert ListenerOk(s, s.listeners[i]);
    if s.chans[k].Some? {
      a := Take(i);
    } else {
      assert Filled(s, k) && Empty(s, k);
      var j: nat :| Holds(s, j, k);
      a := PutBack(j);
    }
  }

  /** A step that an instance which has been closed but is not yet at rest can take. */
  lemma Progress(s: State) returns (a: Action)
    requires Inv(s) && s.closed && !(s.notifier.Exited? && AllStopped(s))
    ensures Internal(a) && Enabled(s, a)
  {
    match s.notifier
    case Selecting => a := SeeClosed;
    case Publishing(_) =>
      SendsNeverBlock(s);
      a := Publish;
    case Replying => a := Reply;
    case Terminating =>
      SendsNeverBlock(s);
      a := Terminate;
    case Exited =>
      var i: nat :| i < |s.listeners| && !s.listeners[i].pc.Stopped?;
      a := ListenerMoves(s, i);
  }

  /** Delivery without Stop: while the goroutines have nothing left to do, closed or not, every listener has
      handled everything sent since it registered.  By WorkDecreases that point is always reached once no
      Send or AddListener comes any more. */
  lemma QuietIsDelivered(s: State)
    requires Inv(s) && forall a | Internal(a) :: !Enabled(s, a)
    ensures forall i: nat | i < |s.listeners| ::
      s.listeners[i].start <= |s.sent| && s.listeners[i].handled == s.sent[s.listeners[i].start..]
  {
    SendsNeverBlock(s);
    assert !Enabled(s, Publish) && !Enabled(s, Reply) && !Enabled(s, Terminate);
    forall i: nat | i < |s.listeners|
      ensures s.listeners[i].start <= |s.sent| && s.listeners[i].handled == s.sent[s.listeners[i].start..]
    {
      QuietListener(s, i);
    }
  }

  lemma QuietListener(s: State, i: nat)
    requires Inv(s) && i < |s.listeners| && forall a | Internal(a) :: !Enabled(s, a)
    requires s.notifier.Selecting? || s.notifier.Exited?
    ensures s.listeners[i].start <= |s.sent| && s.listeners[i].handled == s.sent[s.listeners[i].start..]
  {
    var l := s.listeners[i];
    assert ListenerOk(s, l);
    assert !Enabled(s, PutBack(i)) && !Enabled(s, Call(i)) && !Enabled(s, CloseStub(i)) && !Enabled(s, Take(i));
    SendsNeverBlock(s);
    if l.pc.AtTake? && l.rc < s.curr {
      var j := Holder(s, l.rc);
    }
  }

  lemma Holder(s: State, k: nat) returns (j: nat)
    requires Inv(s) && Filled(s, k) && s.chans[k].None?
    ensures Enabled(s, PutBack(j))
  {
    assert Empty(s, k);
    j :| Holds(s, j, k);
  }

  /** `run` is a sequence of internal steps from `s`. */
  ghost predicate IsInternalRun(s: State, acts: seq<Action>)
    decreases |acts|
  {
    |acts| > 0 ==> Internal(acts[0]) && Enabled(s, acts[0]) && IsInternalRun(Apply(s, acts[0]), acts[1..])
  }

  function RunFrom(s: State, acts: seq<Action>): State
    requires IsInternalRun(s, acts)
    decreases |acts|
  {
    if |acts| == 0 then s else RunFrom(Apply(s, acts[0]), acts[1..])
  }

  /** Stop terminates.  After close, every run of the goroutines is finite, with the bound `Work`;
      and a run that cannot be extended ends with the notifier and all listeners returned, each
      listener having handled every message from its registration on. */
  lemma {:induction false} StopTerminates(s: State, acts: seq<Action>)
    requires Inv(s) && s.closed && IsInternalRun(s, acts)
    ensures |acts| <= Work(s)
    ensures
      var e := RunFrom(s, acts);
      (forall a | Internal(a) :: !Enabled(e, a)) ==>
        e.notifier.Exited? && AllStopped(e) && Drained(e) && s.sent == e.sent
    decreases |acts|
  {
    if |acts| > 0 {
      StepInv(s, acts[0]);
      WorkDecreases(s, acts[0]);
      StopTerminates(Apply(s, acts[0]), acts[1..]);
    } else if !(s.notifier.Exited? && AllStopped(s)) {
      var a := Progress(s);
    } else {
      StoppedIsDrained(s);
    }
  }
}
