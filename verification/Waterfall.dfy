/** The function runner of fn/waterfall.go: building a pipeline and running it once. */
module Waterfall {
  import opened Wrappers
  import opened Sequences
  import opened WaterfallSpec

  /** What the interface{} arguments of the builder methods may hold. */
  datatype Function = Func(fn: Fn) | NotFunc

  /** What Run returns. */
  datatype RunError = NoError | BadFunction | TypeMismatch | FromFunction(err: Val) | FromPanic

  function ErrorOf(stop: Stop): RunError {
    match stop
    case Finished => NoError
    case Aborted => NoError
    case Failed(e) => FromFunction(e)
    case Crashed => FromPanic
  }

  predicate AllFuncs(list: seq<Function>) {
    forall i: nat | i < |list| :: list[i].Func?
  }

  function Fns(list: seq<Function>): (fs: seq<Fn>)
    requires AllFuncs(list)
    ensures |fs| == |list|
  {
    seq(|list|, i requires 0 <= i < |list| => list[i].fn)
  }

  /** `calls`, `errCalls` and `alwaysCalls` record the calls of the pipeline functions, of the OnErr
      function and of the Always function. */
  class FunctionRunner {
    var funcList: seq<Function>
    var outToIn: seq<Trans>
    var hasErrFunc: bool
    var hasAlwaysFunc: bool
    var isAborted: bool
    var calls: seq<seq<Val>>
    var errCalls: seq<Val>
    var alwaysCalls: nat

    /** Not run yet. */
    predicate Fresh()
      reads this
    {
      outToIn == [] && !isAborted && calls == [] && errCalls == [] && alwaysCalls == 0
    }

    constructor ()
      ensures Fresh() && funcList == [] && !hasErrFunc && !hasAlwaysFunc
    {
      funcList, outToIn, calls, errCalls, alwaysCalls := [], [], [], [], 0;
      hasErrFunc, hasAlwaysFunc, isAborted := false, false, false;
    }

    method Then(f: Function)
      modifies this`funcList
      ensures funcList == old(funcList) + [f]
    {
      funcList := funcList + [f];
    }

    /** Panics, leaving the pipeline alone, unless the outputs of `f` repeat its inputs. */
    method CaseBy(cond: bool, f: Function) returns (ok: bool)
      modifies this`funcList
      ensures ok == (f.Func? && IsConditionFn(f.fn))
      ensures funcList == if ok then old(funcList) + [Func(CaseFn(cond, f.fn))] else old(funcList)
    {
      ok := MustBeConditionThenFunction(f);
      if ok {
        Then(Func(CaseFn(cond, f.fn)));
      }
    }

    method IfThenBy(cond: bool, f: Function) returns (ok: bool)
      modifies this`funcList
      ensures ok == (f.Func? && IsConditionFn(f.fn))
      ensures funcList == if ok then old(funcList) + [Func(IfThenFn(cond, f.fn))] else old(funcList)
    {
      ok := MustBeConditionThenFunction(f);
      if ok {
        Then(Func(IfThenFn(cond, f.fn)));
      }
    }

    static method MustBeConditionThenFunction(f: Function) returns (ok: bool)
      ensures ok == (f.Func? && IsConditionFn(f.fn))
    {
      if f.NotFunc? {
        return false;
      }
      var ins, outs := f.fn.ins, f.fn.outs;
      if |ins| != |outs| && !(|ins| == |outs| + 1 && IsAbortFnType(ins[|ins| - 1])) {
        return false;
      }
      for i := 0 to |outs|
        invariant ins[..i] == outs[..i]
      {
        if ins[i] != outs[i] {
          assert ins != outs && ins[..|outs|][i] != outs[i];
          return false;
        }
      }
      assert outs[..|outs|] == outs && (|ins| == |outs| ==> ins[..|outs|] == ins);
      return true;
    }

    method OnErr()
      modifies this`hasErrFunc
      ensures hasErrFunc
    {
      hasErrFunc := true;
    }

    method Always()
      modifies this`hasAlwaysFunc
      ensures hasAlwaysFunc
    {
      hasAlwaysFunc := true;
    }

    /** Run, once.  A pipeline that the checks reject runs nothing, not even OnErr and Always.  Otherwise
        the calls are those of RunAll; OnErr is called once exactly if a function returned an error (and
        not if one panicked, although Run then returns an error too), and Always is called once. */
    method Run(args: seq<Val>) returns (err: RunError)
      requires Fresh()
      modifies this
      ensures !AllFuncs(funcList) ==> err == BadFunction && calls == [] && errCalls == [] && alwaysCalls == 0
      ensures AllFuncs(funcList) && !Accepted(Fns(funcList)) ==>
        err == TypeMismatch && calls == [] && errCalls == [] && alwaysCalls == 0
      ensures AllFuncs(funcList) && Accepted(Fns(funcList)) ==>
        var t := RunAll(Fns(funcList), args);
        && calls == t.calls && err == ErrorOf(t.stop)
        && errCalls == (if t.stop.Failed? && hasErrFunc then [t.stop.err] else [])
        && alwaysCalls == (if hasAlwaysFunc then 1 else 0)
        && (t.stop.Failed? ==> err == FromFunction(t.stop.err)) && (t.stop.Crashed? ==> err == FromPanic)
        && (t.stop.Finished? || t.stop.Aborted? ==> err == NoError)
      ensures funcList == old(funcList) && hasErrFunc == old(hasErrFunc) && hasAlwaysFunc == old(hasAlwaysFunc)
    {
      var ok := CheckFunctions();
      if !ok {
        return BadFunction;
      }
      ok := GenPipelineFunctions();
      if !ok {
        return TypeMismatch;
      }
      err := RunPipeline(args);
      if hasAlwaysFunc {
        alwaysCalls := alwaysCalls + 1;
      }
    }

    method CheckFunctions() returns (ok: bool)
      ensures ok == AllFuncs(funcList)
    {
      for i := 0 to |funcList|
        invariant AllFuncs(funcList[..i])
      {
        if funcList[i].NotFunc? {
          return false;
        }
      }
      assert funcList[..|funcList|] == funcList;
      return true;
    }

    /** One transformation for each function but the last, whose outputs go nowhere. */
    method GenPipelineFunctions() returns (ok: bool)
      requires AllFuncs(funcList) && outToIn == []
      modifies this`outToIn
      ensures ok == Accepted(Fns(funcList))
      ensures ok ==> AreTransOf(Fns(funcList), outToIn)
    {
      var fs := Fns(funcList);
      for i := 0 to |funcList|
        invariant |outToIn| == i
        invariant forall j: nat | j < i :: IsTransAt(fs, outToIn, j)
      {
        if i == |funcList| - 1 {
          outToIn := outToIn + [Trans(false, false)];
        } else {
          var t := TransOf(fs[i], fs[i + 1]);
          assert AcceptedAt(fs, i) <==> t.Some?;
          if t.None? {
            return false;
          }
          outToIn := outToIn + [t.value];
        }
        forall j: nat | j < i ensures IsTransAt(fs, outToIn, j) {
          assert IsTransAt(fs, outToIn[..i], j);
        }
        assert IsTransAt(fs, outToIn, i);
      }
      forall j: nat | j + 1 < |fs| ensures TransOf(fs[j], fs[j + 1]).Some? {
        assert IsTransAt(fs, outToIn, j);
      }
      return true;
    }

    /** run: the loop over the functions, then OnErr unless a panic left the loop. */
    method RunPipeline(args: seq<Val>) returns (err: RunError)
      requires AllFuncs(funcList) && AreTransOf(Fns(funcList), outToIn)
      requires calls == [] && errCalls == [] && !isAborted
      modifies this`calls, this`errCalls, this`isAborted
      ensures
        var t := RunAll(Fns(funcList), args);
        && calls == t.calls && err == ErrorOf(t.stop)
        && errCalls == (if t.stop.Failed? && hasErrFunc then [t.stop.err] else [])
        && (t.stop.Failed? ==> err == FromFunction(t.stop.err)) && (t.stop.Crashed? ==> err == FromPanic)
        && (t.stop.Finished? || t.stop.Aborted? ==> err == NoError)
    {
      var fs := Fns(funcList);
      var stop;
      calls, stop, isAborted := RunFunctions(fs, outToIn, FirstInput(fs, args));
      err := ErrorOf(stop);
      if stop.Failed? && hasErrFunc {
        errCalls := errCalls + [stop.err];
      }
    }
  }

  ghost predicate IsTransAt(fs: seq<Fn>, ts: seq<Trans>, i: nat) {
    i < |ts| && (i + 1 < |fs| ==> TransOf(fs[i], fs[i + 1]) == Some(ts[i]))
  }

  ghost predicate AreTransOf(fs: seq<Fn>, ts: seq<Trans>) {
    |ts| == |fs| && forall i: nat | i < |fs| :: IsTransAt(fs, ts, i)
  }

  /** The loop of run over the pipeline, with the abort flag it leaves. */
  method RunFunctions(fs: seq<Fn>, ts: seq<Trans>, first: seq<Val>)
    returns (calls: seq<seq<Val>>, stop: Stop, isAborted: bool)
    requires AreTransOf(fs, ts)
    ensures Trace(calls, stop) == RunFrom(fs, 0, first)
    ensures stop.Aborted? ==> isAborted
  {
    var input := first;
    calls, isAborted := [], false;
    var i := 0;
    while i < |fs|
      invariant 0 <= i <= |fs| && !isAborted
      invariant RunFrom(fs, 0, first)
             == Trace(calls + RunFrom(fs, i, input).calls, RunFrom(fs, i, input).stop)
    {
      var f := fs[i];
      if !Accepts(f.ins, input) {
        return calls, Crashed, isAborted;
      }
      var args := Converted(f.ins, input);
      var before := calls;
      calls := calls + [args];
      var out := f.run(args);
      if out.Panicked? {
        return calls, Crashed, isAborted;
      }
      isAborted := out.aborted;
      var er := PickErr(out.outs);
      if er.Some? {
        return calls, Failed(er.value), isAborted;
      }
      if isAborted {
        return calls, Aborted, isAborted;
      }
      assert IsTransAt(fs, ts, i);
      Assoc(before, [args], RunFrom(fs, i + 1, NextInput(fs, i, out.outs)).calls);
      input := if i + 1 < |fs| then ApplyTrans(ts[i], out.outs) else [];
      i := i + 1;
    }
    stop := Finished;
  }

  /** Run returns an error for a panic without calling OnErr, though it does call Always. */
  method PanicSkipsOnErr() returns (err: RunError, errCalls: seq<Val>, alwaysCalls: nat)
    ensures err == FromPanic && errCalls == [] && alwaysCalls == 1
  {
    var panicker := Fn([], [], args => Panicked);
    var r := new FunctionRunner();
    r.Then(Func(panicker));
    r.OnErr();
    r.Always();
    assert Fns(r.funcList) == [panicker];
    err := r.Run([]);
    errCalls, alwaysCalls := r.errCalls, r.alwaysCalls;
  }
}
