/**
  The interpreter as exec.c writes it: two stacks that are pushed and popped in place.  Each command is proved
  against the machine of ExecMachine, and InnerExecute against the structured semantics.

  An operation that raises a PostScript error returns false; what the stacks then hold is not specified, because
  the error handler's repair of them is not part of this model.
 */
module ExecInterpreter {
  import opened ExecMachine
  import opened Wrappers

  class Interpreter {
    const w: World
    /** Tops first. */
    var execStack: seq<Item>
    var opStack: seq<Obj>
    var dictStack: seq<Dict>

    constructor (w: World, dicts: seq<Dict>)
      ensures this.w == w && execStack == [] && opStack == [] && dictStack == dicts
    {
      this.w, execStack, opStack, dictStack := w, [], [], dicts;
    }

    function Values(): Data
      reads this
    {
      Data(opStack, dictStack)
    }

    function Now(): Machine
      reads this
    {
      M(execStack, Values())
    }

    /** The stacks are as next says, or next is the error that ok denies. */
    ghost predicate Is(next: Next, ok: bool)
      reads this
    {
      if ok then next == Go(Now()) else next == Fail
    }

    method PopArray() returns (r: Option<Obj>)
      modifies `opStack
      ensures r.Some? <==> |old(opStack)| >= 1 && old(opStack)[0].Arr?
      ensures r.Some? ==> r.value == old(opStack)[0] && opStack == old(opStack)[1..]
    {
      if |opStack| == 0 || !opStack[0].Arr? { return None; }
      r := Some(opStack[0]);
      opStack := opStack[1..];
    }

    method PopInteger() returns (r: Option<int>)
      modifies `opStack
      ensures r.Some? <==> |old(opStack)| >= 1 && old(opStack)[0].Int?
      ensures r.Some? ==> r.value == old(opStack)[0].n && opStack == old(opStack)[1..]
    {
      if |opStack| == 0 || !opStack[0].Int? { return None; }
      r := Some(opStack[0].n);
      opStack := opStack[1..];
    }

    method PopBoolean() returns (r: Option<bool>)
      modifies `opStack
      ensures r.Some? <==> |old(opStack)| >= 1 && old(opStack)[0].Bool?
      ensures r.Some? ==> r.value == old(opStack)[0].b && opStack == old(opStack)[1..]
    {
      if |opStack| == 0 || !opStack[0].Bool? { return None; }
      r := Some(opStack[0].b);
      opStack := opStack[1..];
    }

    method PushExec(x: Item)
      modifies `execStack
      ensures execStack == [x] + old(execStack)
    {
      execStack := [x] + execStack;
    }

    /** An integer that a loop command left on the execution stack. */
    method PopExecInteger() returns (r: Option<int>)
      modifies `execStack
      ensures r.Some? <==> |old(execStack)| >= 1 && old(execStack)[0].Ob? && old(execStack)[0].o.Int?
      ensures r.Some? ==> r.value == old(execStack)[0].o.n && execStack == old(execStack)[1..]
    {
      if |execStack| == 0 || !execStack[0].Ob? || !execStack[0].o.Int? { return None; }
      r := Some(execStack[0].o.n);
      execStack := execStack[1..];
    }

    method DoIf() returns (ok: bool)
      modifies this
      ensures Is(DoCmd(w, If, old(Now())), ok)
    {
      var ob := PopArray();
      if ob.None? { return false; }
      var b := PopBoolean();
      if b.None? { return false; }
      if b.value { PushExec(Ob(ob.value)); }
      ok := true;
    }

    method DoIfElse() returns (ok: bool)
      modifies this
      ensures Is(DoCmd(w, IfElse, old(Now())), ok)
    {
      var obF := PopArray();
      if obF.None? { return false; }
      var obT := PopArray();
      if obT.None? { return false; }
      var b := PopBoolean();
      if b.None? { return false; }
      PushExec(Ob(if b.value then obT.value else obF.value));
      ok := true;
    }

    method DoRepeat() returns (ok: bool)
      modifies this
      ensures Is(DoCmd(w, Repeat, old(Now())), ok)
    {
      var ob := PopArray();
      if ob.None? { return false; }
      var i := PopInteger();
      if i.None? { return false; }
      PushExec(LoopMark);
      PushExec(Ob(ob.value));
      PushExec(Ob(Int(i.value)));
      PushExec(CRepeat);
      ok := true;
      assert execStack == [CRepeat, Ob(Int(i.value)), Ob(ob.value), LoopMark] + old(execStack);
    }

    method DoFor() returns (ok: bool)
      modifies this
      ensures Is(DoCmd(w, For, old(Now())), ok)
    {
      var ob := PopArray();
      if ob.None? { return false; }
      var k := PopInteger();
      if k.None? { return false; }
      var j := PopInteger();
      if j.None? { return false; }
      var i := PopInteger();
      if i.None? { return false; }
      PushExec(LoopMark);
      PushExec(Ob(ob.value));
      PushExec(Ob(Int(k.value)));
      PushExec(Ob(Int(j.value)));
      PushExec(Ob(Int(i.value)));
      PushExec(CIFor);
      ok := true;
      assert execStack == [CIFor, Ob(Int(i.value)), Ob(Int(j.value)), Ob(Int(k.value)), Ob(ob.value), LoopMark]
                          + old(execStack);
    }

    method DoLoop() returns (ok: bool)
      modifies this
      ensures Is(DoCmd(w, Loop, old(Now())), ok)
    {
      var ob := PopArray();
      if ob.None? { return false; }
      PushExec(LoopMark);
      PushExec(Ob(ob.value));
      PushExec(CLoop);
      ok := true;
      assert execStack == [CLoop, Ob(ob.value), LoopMark] + old(execStack);
    }

    method DoExec() returns (ok: bool)
      modifies this
      ensures Is(DoCmd(w, Exec, old(Now())), ok)
    {
      if |opStack| == 0 { return false; }
      var ob := opStack[0];
      opStack := opStack[1..];
      PushExec(Ob(ob));
      ok := true;
    }

    /** def of a name. */
    method DoDef() returns (ok: bool)
      modifies this
      ensures Is(DoCmd(w, Def, old(Now())), ok)
    {
      if |opStack| < 2 || !opStack[1].Name? || dictStack == [] { return false; }
      var value, key := opStack[0], opStack[1];
      opStack := opStack[2..];
      dictStack := dictStack[0 := dictStack[0][key.id := value]];
      ok := true;
    }

    /**
      For exit, pops to the innermost loop mark, or to the caller's mark, which is told to clean up.  For stop, pops
      the innermost call of the interpreter with its mark, and loops within it.
     */
    method UnwindExecStk(exit: bool)
      modifies `execStack
      ensures exit ==> Unwind(w, old(execStack))
                       == if execStack != [] && execStack[0].LoopMark? then execStack[1..] else execStack
      ensures !exit ==> execStack == BelowMark(old(execStack))
    {
      while execStack != []
        invariant exit ==> Unwind(w, execStack) == Unwind(w, old(execStack))
        invariant !exit ==> BelowMark(execStack) == BelowMark(old(execStack))
        decreases |execStack|
      {
        if execStack[0].ExecMark? {
          execStack := execStack[1..];
          if !exit { return; }
          if execStack != [] { PushExec(Ob(Name(w.xit, true))); }
          PushExec(ExecMark(true));
          assert execStack == Unwind(w, old(execStack));
          return;
        }
        if execStack[0].LoopMark? && exit { return; }
        execStack := execStack[1..];
      }
    }

    method DoExit() returns (ok: bool)
      modifies this
      ensures Is(DoCmd(w, Exit, old(Now())), ok)
    {
      UnwindExecStk(true);
      if execStack != [] && execStack[0].LoopMark? { execStack := execStack[1..]; }
      ok := true;
    }

    method RunCommand(c: Command) returns (ok: bool)
      modifies this
      ensures Is(DoCmd(w, c, old(Now())), ok)
    {
      match c
      case If => ok := DoIf();
      case IfElse => ok := DoIfElse();
      case Repeat => ok := DoRepeat();
      case For => ok := DoFor();
      case Loop => ok := DoLoop();
      case Exit => ok := DoExit();
      case Exec => ok := DoExec();
      case Def => ok := DoDef();
      case Operator(index) =>
        var r := w.operator(index, Values());
        if r.None? { return false; }
        opStack, dictStack := r.value.ops, r.value.dicts;
        ok := true;
    }

    /** The rest of a repeat, with its command already popped. */
    method ContinueRepeat() returns (ok: bool)
      modifies this
      ensures Is(Step(w, M([CRepeat] + old(execStack), old(Values()))), ok)
    {
      var exec0 := execStack;
      assert ([CRepeat] + exec0)[1..] == exec0;
      var i := PopExecInteger();
      if i.None? || |execStack| < 2 || !execStack[0].Ob? || !execStack[1].LoopMark? { return false; }
      var ob := execStack[0];
      if i.value > 0 {
        PushExec(Ob(Int(i.value - 1)));
        PushExec(CRepeat);
        PushExec(ob);
        assert execStack == [ob, CRepeat, Ob(Int(i.value - 1))] + exec0[1..];
      } else {
        execStack := execStack[1..];
        execStack := execStack[1..];
        assert execStack == exec0[3..];
      }
      ok := true;
    }

    /** The rest of an integer for, with its command already popped. */
    method ContinueFor() returns (ok: bool)
      modifies this
      ensures Is(Step(w, M([CIFor] + old(execStack), old(Values()))), ok)
    {
      hide Step;
      ghost var exec0 := execStack;
      ContinuedFor(w, exec0, Values());
      var i := PopExecInteger();
      if i.None? { return false; }
      var j := PopExecInteger();
      if j.None? { return false; }
      var k := PopExecInteger();
      if k.None? || |execStack| < 2 || !execStack[0].Ob? || !execStack[1].LoopMark? { return false; }
      var ob := execStack[0];
      assert execStack == exec0[3..];
      if ForEnds(i.value, j.value, k.value) {
        execStack := execStack[2..];
        assert execStack == exec0[5..];
      } else {
        execStack := [Ob(Int(j.value)), Ob(Int(k.value))] + execStack;
        assert execStack == exec0[1..];
        execStack := [CIFor, Ob(Int(Add(w.half, i.value, j.value)))] + execStack;
        opStack := [Int(i.value)] + opStack;
        PushExec(ob);
        assert execStack == [exec0[3], CIFor, Ob(Int(Add(w.half, i.value, j.value)))] + exec0[1..];
      }
      ok := true;
    }

    /** The rest of a loop, with its command already popped. */
    method ContinueLoop() returns (ok: bool)
      modifies this
      ensures Is(Step(w, M([CLoop] + old(execStack), old(Values()))), ok)
    {
      assert ([CLoop] + execStack)[1..] == execStack;
      if execStack == [] { return false; }
      var ob := execStack[0];
      PushExec(CLoop);
      PushExec(ob);
      assert execStack == [ob, CLoop] + old(execStack);
      ok := true;
    }

    /** The branch Xname of the fetch loop. */
    method RunName(id: nat) returns (ok: bool)
      modifies this
      ensures Is(DoName(w, id, old(Now())), ok)
    {
      var found := Find(dictStack, id);
      if found.None? { return false; }
      var ob := found.value;
      if IsLiteral(ob) {
        opStack := [ob] + opStack;
        ok := true;
      } else if ob.Cmd? {
        ok := RunCommand(ob.c);
      } else {
        PushExec(Ob(ob));
        ok := true;
      }
    }

    /** An executable array on the top: its first element is fetched, and it shrinks in place or is popped. */
    method RunArray() returns (ok: bool)
      requires |execStack| >= 1 && execStack[0].Ob? && execStack[0].o.Arr? && execStack[0].o.exec
      modifies this
      ensures Is(Step(w, old(Now())), ok)
    {
      var obp := execStack[0].o;
      var ob: Obj;
      if |obp.body| > 1 {
        ob := obp.body[0];
        execStack := execStack[0 := Ob(Arr(obp.body[1..], obp.exec))];
        assert execStack == [Ob(obp.(body := obp.body[1..]))] + old(execStack)[1..];
      } else {
        execStack := execStack[1..];
        if |obp.body| == 0 { return true; }
        ob := obp.body[0];
      }
      if ob.Name? && ob.exec {
        ok := RunName(ob.id);
      } else if ob.Cmd? && ob.exec {
        ok := RunCommand(ob.c);
      } else {
        opStack := [ob] + opStack;
        ok := true;
      }
    }

    /** One round of the fetch loop when the top is not a mark. */
    method Fetch() returns (ok: bool)
      requires |execStack| >= 1 && !execStack[0].ExecMark?
      modifies this
      ensures Is(Step(w, old(Now())), ok)
    {
      match execStack[0]
      case Ob(o) =>
        if IsLiteral(o) {
          execStack := execStack[1..];
          opStack := [o] + opStack;
          ok := true;
        } else if o.Arr? {
          ok := RunArray();
        } else {
          execStack := execStack[1..];
          if o.Name? { ok := RunName(o.id); } else { ok := RunCommand(o.c); }
        }
      case LoopMark => ok := false;
      case CRepeat =>
        assert execStack == [CRepeat] + execStack[1..];
        execStack := execStack[1..];
        ok := ContinueRepeat();
      case CIFor =>
        assert execStack == [CIFor] + execStack[1..];
        execStack := execStack[1..];
        ok := ContinueFor();
      case CLoop =>
        assert execStack == [CLoop] + execStack[1..];
        execStack := execStack[1..];
        ok := ContinueLoop();
    }

    /**
      Runs ob to its end.  If it completes, the execution stack is the caller's again, and the operands and dictionaries
      are what the structured semantics says; if it exits with no loop of its own, the caller is told to exit as well.
     */
    method InnerExecute(ob: Obj, ghost fuel: nat) returns (ok: bool, cleanup: bool)
      requires !EvalObj(w, ob, Values(), fuel).Unfinished?
      modifies this
      ensures match EvalObj(w, ob, old(Values()), fuel)
              case Done(d) => ok && !cleanup && execStack == old(execStack) && Values() == d
              case Exited(d) =>
                && ok && cleanup && Values() == d
                && execStack == (if old(execStack) == [] then [] else [Ob(Name(w.xit, true))] + old(execStack))
              case Error => !ok
    {
      hide Step, EvalObj, Unwind;
      ghost var outer, d := execStack, Values();
      ghost var start := Start(ob, outer, d);
      ghost var n := ExecuteMeaning(w, ob, outer, d, fuel);
      PushExec(ExecMark(false));
      PushExec(Ob(ob));
      assert execStack == start.exec;
      ghost var k := 0;
      cleanup := false;
      var done := false;
      while !done
        invariant k <= n
        invariant !done ==> k < n && Steps(w, start, k) == Go(Now())
        invariant done ==> Steps(w, start, n) == Stop(Now(), cleanup)
        decreases n - k, !done
      {
        StepsSplit(w, start, k, 1);
        assert Steps(w, Now(), 1) == Step(w, Now());
        if execStack == [] {
          EmptyFails(w, Now());
          Halted(w, start, k + 1, n);
          return false, false;
        }
        if execStack[0].ExecMark? {
          cleanup := execStack[0].cleanup;
          MarkStops(w, Now());
          Halted(w, start, k + 1, n);
          execStack := execStack[1..];
          done := true;
        } else {
          ok := Fetch();
          if !ok {
            Halted(w, start, k + 1, n);
            return false, false;
          }
          StillRunning(w, start, k + 1, n);
          k := k + 1;
        }
      }
      ok := true;
    }
  }

  /** What is left when the innermost call of the interpreter has been stopped. */
  function BelowMark(exec: seq<Item>): seq<Item> {
    if exec == [] then [] else if exec[0].ExecMark? then exec[1..] else BelowMark(exec[1..])
  }

  /** Whatever a call has put on the execution stack, stop leaves the caller's stack. */
  lemma {:induction false} StopUnwinds(inner: seq<Item>, cleanup: bool, outer: seq<Item>)
    requires forall i :: 0 <= i < |inner| ==> !inner[i].ExecMark?
    ensures BelowMark(inner + [ExecMark(cleanup)] + outer) == outer
  {
    var exec := inner + [ExecMark(cleanup)] + outer;
    if inner == [] {
      assert exec[1..] == outer;
    } else {
      StopUnwinds(inner[1..], cleanup, outer);
      assert exec[1..] == inner[1..] + [ExecMark(cleanup)] + outer;
    }
  }

  lemma EmptyFails(w: World, m: Machine)
    requires m.exec == []
    ensures Step(w, m) == Fail
  {
  }

  /** A round of a for loop, in terms of what lies under its command. */
  lemma ContinuedFor(w: World, exec: seq<Item>, d: Data)
    ensures Step(w, M([CIFor] + exec, d))
            == if |exec| >= 5 && exec[0].Ob? && exec[0].o.Int? && exec[1].Ob? && exec[1].o.Int? && exec[2].Ob?
                  && exec[2].o.Int? && exec[3].Ob? && exec[4].LoopMark? then
                 var i, j := exec[0].o.n, exec[1].o.n;
                 if ForEnds(i, j, exec[2].o.n) then Go(M(exec[5..], d))
                 else Go(M([exec[3], CIFor, Ob(Int(Add(w.half, i, j)))] + exec[1..], d.Push(Int(i))))
               else Fail
  {
  }

  lemma StillRunning(w: World, m: Machine, k: nat, n: nat)
    requires Steps(w, m, k).Go? && !Steps(w, m, n).Go?
    ensures k < n
  {
    if n <= k {
      Halted(w, m, n, k);
    }
  }
}
