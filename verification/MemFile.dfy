/** The event bus (mfs/event.go) and the file objects that listen to it (mfs/mem_file.go). */
module MemFile {
  import opened Wrappers

  datatype EventType = RenamedType | RemovedType | CreatedType | ModifiedType | Wildcard

  /** A handler function: a file's rename, a file's unregistListener, or a user's callback. */
  datatype Callback = OnRename(f: MFile) | OnRemoved(f: MFile) | User(n: nat)

  datatype Handler = Handler(id: nat, fn: Callback)

  /** What OnEvent returns: enough to unbind the handler. */
  datatype Stub = Stub(typ: EventType, id: nat)

  function Without(hs: seq<Handler>, id: nat): seq<Handler> {
    if hs == [] then []
    else
      var n := |hs| - 1;
      Without(hs[..n], id) + (if hs[n].id == id then [] else [hs[n]])
  }

  lemma {:induction false} WithoutHas(hs: seq<Handler>, id: nat, h: Handler)
    ensures h in Without(hs, id) <==> h in hs && h.id != id
  {
    if hs != [] {
      var n := |hs| - 1;
      WithoutHas(hs[..n], id, h);
      assert hs == hs[..n] + [hs[n]];
    }
  }

  /** The shift in place that drops the handlers with one id. */
  method RemoveHandlerByID(handlers: seq<Handler>, id: nat) returns (r: seq<Handler>)
    ensures r == Without(handlers, id)
  {
    r := handlers;
    var count: nat := 0;
    var i: nat := 0;
    while i < |r|
      invariant i <= |r| == |handlers| && count <= i
      invariant r[..i - count] == Without(handlers[..i], id)
      invariant r[i..] == handlers[i..]
    {
      assert handlers[..i + 1][..i] == handlers[..i];
      assert r[i] == r[i..][0] == handlers[i];
      assert r[i + 1..] == r[i..][1..] == handlers[i..][1..] == handlers[i + 1..];
      if r[i].id == id {
        count := count + 1;
      } else if count != 0 {
        r := r[i - count := r[i]];
      }
      i := i + 1;
    }
    assert handlers[..i] == handlers;
    r := r[..|r| - count];
  }

  /** `hs` holds exactly the handlers subscribed for type `t`. */
  ghost predicate Lists(subs: set<(EventType, Handler)>, t: EventType, hs: seq<Handler>) {
    && (forall p | p in subs && p.0 == t :: p.1 in hs)
    && (forall h | h in hs :: (t, h) in subs)
  }

  lemma ListsMore(subs: set<(EventType, Handler)>, t: EventType, hs: seq<Handler>, u: EventType, h: Handler)
    requires Lists(subs, t, hs)
    ensures Lists(subs + {(u, h)}, t, if t == u then hs + [h] else hs)
  {
  }

  /** The subscriptions that unbinding a stub leaves: an id goes from its type's list and, whatever the
      type, from the wildcard one. */
  function Unbound(subs: set<(EventType, Handler)>, stub: Stub): set<(EventType, Handler)> {
    set p | p in subs && !((p.0 == stub.typ || p.0 == Wildcard) && p.1.id == stub.id)
  }

  lemma ListsLess(subs: set<(EventType, Handler)>, t: EventType, hs: seq<Handler>, stub: Stub)
    requires Lists(subs, t, hs)
    ensures Lists(Unbound(subs, stub), t, if t == stub.typ || t == Wildcard then Without(hs, stub.id) else hs)
  {
    forall h {
      WithoutHas(hs, stub.id, h);
    }
  }

  class Bus {
    var hid: nat
    var typToHandler: map<EventType, seq<Handler>>
    var wildcardHandler: seq<Handler>
    /** The subscriptions in force. */
    ghost var subs: set<(EventType, Handler)>

    constructor ()
      ensures Tied() && IdsOk() && subs == {}
    {
      hid, typToHandler, wildcardHandler, subs := 0, map[], [], {};
    }

    function HandlersOf(typ: EventType): seq<Handler>
      reads this
    {
      if typ == Wildcard then wildcardHandler
      else if typ in typToHandler then typToHandler[typ]
      else []
    }

    /** The handler lists hold exactly the subscriptions in force. */
    ghost predicate Tied()
      reads this
    {
      forall t :: Lists(subs, t, HandlersOf(t))
    }

    predicate SameId(p: (EventType, Handler), q: (EventType, Handler)) {
      p.1.id == q.1.id
    }

    /** Ids were given out once each. */
    ghost predicate IdsOk()
      reads this
    {
      && (forall p | p in subs :: p.1.id <= hid)
      && (forall p, q {:trigger SameId(p, q)} | p in subs && q in subs && SameId(p, q) :: p == q)
    }

    /** A file holds its two subscriptions. */
    ghost predicate Subscribed(f: MFile)
      reads this, f
    {
      && |f.unEventList| == 2
      && f.unEventList[0].typ == RenamedType
      && f.unEventList[1].typ == RemovedType
      && (RenamedType, Handler(f.unEventList[0].id, OnRename(f))) in subs
      && (RemovedType, Handler(f.unEventList[1].id, OnRemoved(f))) in subs
    }

    /** A file is subscribed or has unsubscribed. */
    ghost predicate Settled(f: MFile)
      reads this, f
    {
      Subscribed(f) || f.unEventList == []
    }

    /** A file's handler was registered for the type it takes, and the file knows its stub. */
    ghost predicate HandlerOk(t: EventType, h: Handler, objs: set<MFile>)
      reads objs
    {
      && (h.fn.OnRename? ==> h.fn.f in objs && t == RenamedType && Stub(t, h.id) in h.fn.f.unEventList)
      && (h.fn.OnRemoved? ==> h.fn.f in objs && t == RemovedType && Stub(t, h.id) in h.fn.f.unEventList)
    }

    /** The bus and the files ever created on it agree. */
    ghost predicate Consistent(objs: set<MFile>)
      reads this, objs
    {
      && Tied() && IdsOk()
      && (forall f | f in objs :: f.drv == this)
      && (forall f {:trigger Settled(f)} | f in objs :: Settled(f))
      && (forall p | p in subs :: HandlerOk(p.0, p.1, objs))
    }

    method OnEvent(typ: EventType, fn: Callback) returns (stub: Stub)
      requires Tied() && IdsOk()
      modifies this
      ensures Tied() && IdsOk() && hid == old(hid) + 1 && stub == Stub(typ, hid)
      ensures subs == old(subs) + {(typ, Handler(hid, fn))}
    {
      hid := hid + 1;
      var h := Handler(hid, fn);
      if typ == Wildcard {
        wildcardHandler := wildcardHandler + [h];
      } else {
        typToHandler := typToHandler[typ := HandlersOf(typ) + [h]];
      }
      subs := subs + {(typ, h)};
      forall t ensures Lists(subs, t, HandlersOf(t)) {
        ListsMore(old(subs), t, old(HandlersOf(t)), typ, h);
      }
      stub := Stub(typ, hid);
    }

    /** The unbind function of a stub; a second call changes nothing. */
    method UnEvent(stub: Stub)
      requires Tied() && IdsOk()
      modifies this
      ensures Tied() && IdsOk() && hid == old(hid)
      ensures subs == Unbound(old(subs), stub)
    {
      if stub.typ != Wildcard {
        var hs := RemoveHandlerByID(HandlersOf(stub.typ), stub.id);
        typToHandler := typToHandler[stub.typ := hs];
      }
      wildcardHandler := RemoveHandlerByID(wildcardHandler, stub.id);
      subs := Unbound(subs, stub);
      forall t ensures Lists(subs, t, HandlersOf(t)) {
        ListsLess(old(subs), t, old(HandlersOf(t)), stub);
      }
    }

    /** Unbinding the stub of a subscription in force drops just that one. */
    lemma UnboundIs(stub: Stub, fn: Callback)
      requires IdsOk() && (stub.typ, Handler(stub.id, fn)) in subs
      ensures Unbound(subs, stub) == subs - {(stub.typ, Handler(stub.id, fn))}
    {
      forall p | p in subs && p.1.id == stub.id ensures p == (stub.typ, Handler(stub.id, fn)) {
        assert SameId(p, (stub.typ, Handler(stub.id, fn)));
      }
    }

    /** The handlers a Trigger calls: those of its type and the wildcard ones. */
    function Snapshot(typ: EventType): (hs: seq<Handler>)
      reads this
      ensures forall h | h in hs :: h in HandlersOf(typ) || h in HandlersOf(Wildcard)
      ensures forall h | h in HandlersOf(typ) :: h in hs
    {
      HandlersOf(typ) + wildcardHandler
    }

    /** Trigger of a removed event: exactly the files of that name unsubscribe, the live one and any
        replaced object that still carried the name. */
    method TriggerRemoved(name: string, ghost objs: set<MFile>)
      requires Consistent(objs)
      modifies this, objs`unEventList
      ensures Consistent(objs)
      ensures forall f | f in objs ::
        f.unEventList == if f.name == name then [] else old(f.unEventList)
    {
      var handlers := Snapshot(RemovedType);
      assert Lists(subs, RemovedType, HandlersOf(RemovedType)) && Lists(subs, Wildcard, HandlersOf(Wildcard));
      assert forall h | h in handlers && h.fn.OnRemoved? :: h.fn.f in objs;
      for i := 0 to |handlers|
        invariant Consistent(objs)
        invariant forall j: nat | i <= j < |handlers| && handlers[j].fn.OnRemoved? :: handlers[j].fn.f in objs
        invariant forall f | f in objs ::
          f.unEventList == old(f.unEventList) || (f.name == name && f.unEventList == [])
        invariant forall j: nat | j < i && handlers[j].fn.OnRemoved? && handlers[j].fn.f.name == name ::
          handlers[j].fn.f.unEventList == []
      {
        if handlers[i].fn.OnRemoved? {
          handlers[i].fn.f.UnregistListener(name, objs);
        }
      }
      forall f | f in objs && f.name == name && old(f.unEventList) != [] ensures f.unEventList == [] {
        assert old(Settled(f));
        var h := Handler(old(f.unEventList)[1].id, OnRemoved(f));
        assert h in old(HandlersOf(RemovedType));
        assert h in handlers;
      }
    }

    /** Trigger of a rename event: exactly the subscribed files of the old name change theirs. */
    method TriggerRenamed(from: string, to: string, ghost objs: set<MFile>)
      requires Consistent(objs) && from != to
      modifies objs`name
      ensures Consistent(objs)
      ensures forall f | f in objs && old(f.name) == from && f.unEventList != [] :: f.name == to
      ensures forall f | f in objs && (old(f.name) != from || f.unEventList == []) :: f.name == old(f.name)
    {
      var handlers := Snapshot(RenamedType);
      assert Lists(subs, RenamedType, HandlersOf(RenamedType)) && Lists(subs, Wildcard, HandlersOf(Wildcard));
      assert forall h | h in handlers && h.fn.OnRename? :: h.fn.f in objs && h.fn.f.unEventList != [];
      for i := 0 to |handlers|
        invariant forall f | f in objs ::
          f.name == old(f.name) || (old(f.name) == from && f.name == to && f.unEventList != [])
        invariant forall j: nat | j < i && handlers[j].fn.OnRename? && old(handlers[j].fn.f.name) == from ::
          handlers[j].fn.f.name == to
      {
        if handlers[i].fn.OnRename? {
          handlers[i].fn.f.Rename(from, to);
        }
      }
      forall f | f in objs ensures Settled(f) {
        assert old(Settled(f));
      }
      forall f | f in objs && old(f.name) == from && f.unEventList != [] ensures f.name == to {
        assert old(Settled(f));
        var h := Handler(f.unEventList[0].id, OnRename(f));
        assert h in handlers;
      }
    }

    /** A rename event that follows a move in an index puts every indexed file's name in step again. */
    method TriggerMoved(from: string, to: string, ghost objs: set<MFile>, ghost index: map<string, MFile>)
      requires Consistent(objs) && from != to && from !in index
      requires forall n | n in index :: index[n] in objs && index[n].unEventList != []
      requires to in index ==> index[to].name == from
      requires forall n | n in index && n != to :: index[n].name == n
      modifies objs`name
      ensures Consistent(objs)
      ensures forall n | n in index :: index[n].name == n
    {
      TriggerRenamed(from, to, objs);
      forall n | n in index && n != to ensures index[n].name == n {
        assert old(index[n].name) == n;
      }
    }
  }

  /** What the buffer of Map holds in the end. */
  function LastWrite(writes: seq<Bytes>): Bytes {
    if writes == [] then [] else writes[|writes| - 1]
  }

  class MFile {
    const drv: Bus
    const origFile: string
    var name: string
    var content: Option<Bytes>
    var dirty: bool
    var unEventList: seq<Stub>

    constructor (drv: Bus, origFile: string, name: string)
      ensures this.drv == drv && this.origFile == origFile && this.name == name
      ensures content == None && !dirty && unEventList == []
    {
      this.drv, this.origFile, this.name := drv, origFile, name;
      content, dirty, unEventList := None, false, [];
    }

    method RegistListener(ghost objs: set<MFile>)
      requires this !in objs && unEventList == [] && drv.Consistent(objs)
      modifies this`unEventList, drv
      ensures drv.Consistent(objs + {this}) && unEventList != []
    {
      var s1 := drv.OnEvent(RenamedType, OnRename(this));
      unEventList := unEventList + [s1];
      var s2 := drv.OnEvent(RemovedType, OnRemoved(this));
      unEventList := unEventList + [s2];
      forall f | f in objs ensures drv.Settled(f) {
        assert old(drv.Settled(f));
      }
      assert drv.Settled(this);
    }

    method UnregistListener(removed: string, ghost objs: set<MFile>)
      requires this in objs && drv.Consistent(objs)
      modifies this`unEventList, drv
      ensures drv.Consistent(objs)
      ensures unEventList == if name == removed then [] else old(unEventList)
    {
      if removed == name {
        assert drv.Settled(this);
        ghost var fns := [OnRename(this), OnRemoved(this)];
        ghost var mine := seq(|unEventList|, i requires 0 <= i < |unEventList| && |unEventList| == 2 reads this =>
          (unEventList[i].typ, Handler(unEventList[i].id, fns[i])));
        for i := 0 to |unEventList|
          invariant drv.Tied() && drv.IdsOk()
          invariant unEventList == old(unEventList)
          invariant drv.subs == old(drv.subs) - (if i >= 1 then {mine[0]} else {}) - (if i >= 2 then {mine[1]} else {})
        {
          drv.UnboundIs(unEventList[i], fns[i]);
          drv.UnEvent(unEventList[i]);
        }
        unEventList := [];
        forall f | f in objs && f != this ensures drv.Settled(f) {
          assert old(drv.Settled(f));
          assert |f.unEventList| == 2 ==> old(drv.Subscribed(f));
        }
        assert drv.Settled(this);
      }
    }

    /** Map: the function sees the old content, if there is any, and writes; each write replaces the one
        before. */
    method Map(src: Option<Bytes>, fn: Option<Bytes> -> seq<Bytes>, ghost objs: set<MFile>)
      requires this in objs && drv.Consistent(objs)
      modifies this`content, this`dirty
      ensures content == Some(LastWrite(fn(src))) && dirty
      ensures drv.Consistent(objs)
    {
      var buf: Bytes := [];
      var writes := fn(src);
      for i := 0 to |writes|
        invariant buf == LastWrite(writes[..i])
      {
        assert writes[..i + 1][i] == writes[i];
        buf := writes[i];
      }
      assert writes[..|writes|] == writes;
      content := Some(buf);
      dirty := true;
      forall f | f in objs ensures drv.Settled(f) {
        assert old(drv.Settled(f));
      }
    }

    method Rename(from: string, to: string)
      modifies this`name
      ensures name == if old(name) == from then to else old(name)
    {
      if name == from {
        name := to;
      }
    }
  }
}
