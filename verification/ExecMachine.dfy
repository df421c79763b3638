/**
  The execution stack of the interpreter (PostScript/Adobe/exec.c) and a structured semantics for it.

  InnerExecute is a loop that looks at the top of one flat stack.  Procedures are array objects that shrink
  in place as their elements are fetched; control operators leave counters, procedures, internal commands and
  loop marks on the same stack.  The structured semantics below says what if, ifelse, repeat, for, loop, exec
  and exit mean on operands and dictionaries alone, and the lemmas show that the machine computes it.
 */
module ExecMachine {
  import opened Wrappers

  /** The commands a program can name; Operator stands for one that does not touch the execution stack. */
  datatype Command = If | IfElse | Repeat | For | Loop | Exit | Exec | Def | Operator(index: nat)

  /** Objects; exec is the tag Xobj. */
  datatype Obj =
    | Int(n: int)
    | Bool(b: bool)
    | Arr(body: seq<Obj>, exec: bool)
    | Name(id: nat, exec: bool)
    | Cmd(c: Command, exec: bool)

  /** What can be on the execution stack: objects, marks, and the commands no program can reach. */
  datatype Item =
    | Ob(o: Obj)
    | LoopMark
    | ExecMark(cleanup: bool)
    | CRepeat | CIFor | CLoop

  /** A dictionary, as far as names are its keys. */
  type Dict = map<nat, Obj>

  /** What programs compute with: the operand stack and the dictionary stack, tops first. */
  datatype Data = Data(ops: seq<Obj>, dicts: seq<Dict>) {
    function Push(o: Obj): Data {
      Data([o] + ops, dicts)
    }

    function Drop(n: nat): Data
      requires n <= |ops|
    {
      Data(ops[n..], dicts)
    }
  }

  /** The value of a name in the topmost dictionary that has it. */
  function Find(dicts: seq<Dict>, id: nat): Option<Obj> {
    if dicts == [] then None else if id in dicts[0] then Some(dicts[0][id]) else Find(dicts[1..], id)
  }

  /**
    The other operators, the name that UnwindExecStk leaves for an outer interpreter, and the range of the integers.
   */
  datatype World = World(operator: (nat, Data) -> Option<Data>, xit: nat, half: Pos)

  /** The execution stack, top first, and the data. */
  datatype Machine = M(exec: seq<Item>, d: Data)

  /** After a round of the fetch loop: it goes on, the loop is done, or an error was raised. */
  datatype Next = Go(m: Machine) | Stop(m: Machine, cleanup: bool) | Fail

  type Pos = n: int | n > 0 witness 1

  /** Addition of integers from -half to half - 1, which wraps around; half is 2^31 or 2^63, as long is wide. */
  function Add(half: Pos, i: int, j: int): int {
    (i + j + half) % (2 * half) - half
  }

  /** The test that ends an integer for loop. */
  predicate ForEnds(i: int, j: int, k: int) {
    if j > 0 then i > k else i < k
  }

  // ---------------------------------------------------------------- the machine

  /** UnwindExecStk(true) followed by the rest of Exit. */
  function Unwind(w: World, exec: seq<Item>): seq<Item>
    decreases |exec|
  {
    if exec == [] then []
    else match exec[0]
      case LoopMark => exec[1..]
      case ExecMark(_) =>
        [ExecMark(true)] + (if |exec| > 1 then [Ob(Name(w.xit, true))] else []) + exec[1..]
      case _ => Unwind(w, exec[1..])
  }

  /** def of a name, in the topmost dictionary. */
  predicate CanDefine(d: Data) {
    |d.ops| >= 2 && d.ops[1].Name? && d.dicts != []
  }

  function Defined(d: Data): Data
    requires CanDefine(d)
  {
    Data(d.ops[2..], d.dicts[0 := d.dicts[0][d.ops[1].id := d.ops[0]]])
  }

  /** The procedures behind the commands. */
  function DoCmd(w: World, c: Command, m: Machine): Next {
    var d, exec := m.d, m.exec;
    match c
    case If =>
      if |d.ops| >= 2 && d.ops[0].Arr? && d.ops[1].Bool?
      then Go(M(if d.ops[1].b then [Ob(d.ops[0])] + exec else exec, d.Drop(2))) else Fail
    case IfElse =>
      if |d.ops| >= 3 && d.ops[0].Arr? && d.ops[1].Arr? && d.ops[2].Bool?
      then Go(M([Ob(if d.ops[2].b then d.ops[1] else d.ops[0])] + exec, d.Drop(3))) else Fail
    case Repeat =>
      if |d.ops| >= 2 && d.ops[0].Arr? && d.ops[1].Int?
      then Go(M([CRepeat, Ob(d.ops[1]), Ob(d.ops[0]), LoopMark] + exec, d.Drop(2))) else Fail
    case For =>
      if |d.ops| >= 4 && d.ops[0].Arr? && d.ops[1].Int? && d.ops[2].Int? && d.ops[3].Int?
      then Go(M([CIFor, Ob(d.ops[3]), Ob(d.ops[2]), Ob(d.ops[1]), Ob(d.ops[0]), LoopMark] + exec, d.Drop(4))) else Fail
    case Loop =>
      if |d.ops| >= 1 && d.ops[0].Arr?
      then Go(M([CLoop, Ob(d.ops[0]), LoopMark] + exec, d.Drop(1))) else Fail
    case Exit => Go(M(Unwind(w, exec), d))
    case Exec => if |d.ops| >= 1 then Go(M([Ob(d.ops[0])] + exec, d.Drop(1))) else Fail
    case Def => if CanDefine(d) then Go(M(exec, Defined(d))) else Fail
    case Operator(index) =>
      var r := w.operator(index, d);
      if r.Some? then Go(M(exec, r.value)) else Fail
  }

  /** Xname: look the name up, run a command, push a literal, or stack the value for execution. */
  function DoName(w: World, id: nat, m: Machine): Next {
    var found := Find(m.d.dicts, id);
    if found.None? then Fail
    else
      var v := found.value;
      if IsLiteral(v) then Go(m.(d := m.d.Push(v)))
      else if v.Cmd? then DoCmd(w, v.c, m)
      else Go(m.(exec := [Ob(v)] + m.exec))
  }

  /** Objects that move to the operand stack when they come to the top of the execution stack. */
  predicate IsLiteral(o: Obj) {
    o.Int? || o.Bool? || !o.exec
  }

  /** What happens to an element fetched from a procedure; m is the machine after the fetch. */
  function Deliver(w: World, e: Obj, m: Machine): Next {
    if e.Name? && e.exec then DoName(w, e.id, m)
    else if e.Cmd? && e.exec then DoCmd(w, e.c, m)
    else Go(m.(d := m.d.Push(e)))
  }

  /** One round of the fetch loop of InnerExecute. */
  function Step(w: World, m: Machine): Next {
    if m.exec == [] then Fail
    else
      var rest := m.exec[1..];
      match m.exec[0]
      case Ob(o) =>
        if IsLiteral(o) then Go(M(rest, m.d.Push(o)))
        else if o.Arr? then
          if |o.body| > 1 then Deliver(w, o.body[0], M([Ob(o.(body := o.body[1..]))] + rest, m.d))
          else if |o.body| == 0 then Go(M(rest, m.d))
          else Deliver(w, o.body[0], M(rest, m.d))
        else if o.Name? then DoName(w, o.id, M(rest, m.d))
        else DoCmd(w, o.c, M(rest, m.d))
      case ExecMark(cleanup) => Stop(M(rest, m.d), cleanup)
      case LoopMark => Fail
      case CRepeat =>
        if |rest| >= 3 && rest[0].Ob? && rest[0].o.Int? && rest[1].Ob? && rest[2].LoopMark? then
          var i := rest[0].o.n;
          if i > 0 then Go(M([rest[1], CRepeat, Ob(Int(i - 1))] + rest[1..], m.d))
          else Go(M(rest[3..], m.d))
        else Fail
      case CIFor =>
        if |rest| >= 5 && rest[0].Ob? && rest[0].o.Int? && rest[1].Ob? && rest[1].o.Int? && rest[2].Ob?
           && rest[2].o.Int? && rest[3].Ob? && rest[4].LoopMark? then
          var i, j, k := rest[0].o.n, rest[1].o.n, rest[2].o.n;
          if ForEnds(i, j, k) then Go(M(rest[5..], m.d))
          else Go(M([rest[3], CIFor, Ob(Int(Add(w.half, i, j)))] + rest[1..], m.d.Push(Int(i))))
        else Fail
      case CLoop =>
        if |rest| >= 1 then Go(M([rest[0], CLoop] + rest, m.d)) else Fail
  }

  /** The state after n rounds. */
  function Steps(w: World, m: Machine, n: nat): Next
    decreases n
  {
    if n == 0 then Go(m)
    else
      var next := Step(w, m);
      if next.Go? then Steps(w, next.m, n - 1) else next
  }

  lemma {:induction false} StepsSplit(w: World, m: Machine, a: nat, b: nat)
    requires Steps(w, m, a).Go?
    ensures Steps(w, m, a + b) == Steps(w, Steps(w, m, a).m, b)
    decreases a
  {
    hide Step;
    if a > 0 {
      StepsSplit(w, Step(w, m).m, a - 1, b);
    }
  }

  // ---------------------------------------------------------------- the structured semantics

  /** Normal completion, completion by exit, an error, or not finished within the given depth. */
  datatype Outcome = Done(d: Data) | Exited(d: Data) | Error | Unfinished

  function EvalObj(w: World, o: Obj, d: Data, fuel: nat): Outcome
    decreases fuel, 4, 0
  {
    if IsLiteral(o) then Done(d.Push(o))
    else if o.Arr? then EvalBody(w, o.body, d, fuel)
    else if o.Name? then EvalName(w, o.id, d, fuel)
    else EvalCmd(w, o.c, d, fuel)
  }

  /** The elements of a procedure, one after the other. */
  function EvalBody(w: World, body: seq<Obj>, d: Data, fuel: nat): Outcome
    decreases fuel, 3, |body|
  {
    if body == [] then Done(d)
    else
      var r := EvalElem(w, body[0], d, fuel);
      if r.Done? then EvalBody(w, body[1..], r.d, fuel) else r
  }

  /** An element: procedures inside procedures are data. */
  function EvalElem(w: World, e: Obj, d: Data, fuel: nat): Outcome
    decreases fuel, 2, 0
  {
    if e.Name? && e.exec then EvalName(w, e.id, d, fuel)
    else if e.Cmd? && e.exec then EvalCmd(w, e.c, d, fuel)
    else Done(d.Push(e))
  }

  function EvalName(w: World, id: nat, d: Data, fuel: nat): Outcome
    decreases fuel, 1, 0
  {
    var found := Find(d.dicts, id);
    if found.None? then Error
    else
      var v := found.value;
      if IsLiteral(v) then Done(d.Push(v))
      else if v.Cmd? then EvalCmd(w, v.c, d, fuel)
      else if fuel == 0 then Unfinished
      else EvalObj(w, v, d, fuel - 1)
  }

  function EvalCmd(w: World, c: Command, d: Data, fuel: nat): Outcome
    decreases fuel, 0, 0
  {
    match c
    case If =>
      if !(|d.ops| >= 2 && d.ops[0].Arr? && d.ops[1].Bool?) then Error
      else if !d.ops[1].b then Done(d.Drop(2))
      else if fuel == 0 then Unfinished
      else EvalObj(w, d.ops[0], d.Drop(2), fuel - 1)
    case IfElse =>
      if !(|d.ops| >= 3 && d.ops[0].Arr? && d.ops[1].Arr? && d.ops[2].Bool?) then Error
      else if fuel == 0 then Unfinished
      else EvalObj(w, if d.ops[2].b then d.ops[1] else d.ops[0], d.Drop(3), fuel - 1)
    case Repeat =>
      if !(|d.ops| >= 2 && d.ops[0].Arr? && d.ops[1].Int?) then Error
      else if fuel == 0 then Unfinished
      else EvalRepeat(w, d.ops[1].n, d.ops[0], d.Drop(2), fuel - 1)
    case For =>
      if !(|d.ops| >= 4 && d.ops[0].Arr? && d.ops[1].Int? && d.ops[2].Int? && d.ops[3].Int?) then Error
      else if fuel == 0 then Unfinished
      else EvalFor(w, d.ops[3].n, d.ops[2].n, d.ops[1].n, d.ops[0], d.Drop(4), fuel - 1)
    case Loop =>
      if !(|d.ops| >= 1 && d.ops[0].Arr?) then Error
      else if fuel == 0 then Unfinished
      else EvalLoop(w, d.ops[0], d.Drop(1), fuel - 1)
    case Exit => Exited(d)
    case Exec =>
      if |d.ops| == 0 then Error
      else if fuel == 0 then Unfinished
      else EvalObj(w, d.ops[0], d.Drop(1), fuel - 1)
    case Def => if CanDefine(d) then Done(Defined(d)) else Error
    case Operator(index) =>
      var r := w.operator(index, d);
      if r.Some? then Done(r.value) else Error
  }

  /** The procedure i times, or until it exits. */
  function EvalRepeat(w: World, i: int, proc: Obj, d: Data, fuel: nat): Outcome
    decreases fuel, 5, 0
  {
    if i <= 0 then Done(d)
    else if fuel == 0 then Unfinished
    else
      var r := EvalObj(w, proc, d, fuel - 1);
      if r.Done? then EvalRepeat(w, i - 1, proc, r.d, fuel - 1)
      else if r.Exited? then Done(r.d)
      else r
  }

  /** The procedure for i, i + j, ... up to the limit k, or until it exits; each value is pushed first. */
  function EvalFor(w: World, i: int, j: int, k: int, proc: Obj, d: Data, fuel: nat): Outcome
    decreases fuel, 5, 0
  {
    if ForEnds(i, j, k) then Done(d)
    else if fuel == 0 then Unfinished
    else
      var r := EvalObj(w, proc, d.Push(Int(i)), fuel - 1);
      if r.Done? then EvalFor(w, Add(w.half, i, j), j, k, proc, r.d, fuel - 1)
      else if r.Exited? then Done(r.d)
      else r
  }

  /** The procedure until it exits. */
  function EvalLoop(w: World, proc: Obj, d: Data, fuel: nat): Outcome
    decreases fuel, 5, 0
  {
    if fuel == 0 then Unfinished
    else
      var r := EvalObj(w, proc, d, fuel - 1);
      if r.Done? then EvalLoop(w, proc, r.d, fuel - 1)
      else if r.Exited? then Done(r.d)
      else r
  }

  // ---------------------------------------------------------------- the machine computes the structured semantics

  /** n more rounds after x. */
  function After(w: World, x: Next, n: nat): Next {
    if x.Go? then Steps(w, x.m, n) else x
  }

  /**
    After n rounds x has come to what the outcome r says: the part of the execution stack that belonged to the
    construct is gone and rest is left, or rest is unwound to the innermost loop mark, or an error was raised,
    or the machine is still running although depth rounds have gone by.
   */
  ghost predicate Reaches(w: World, x: Next, n: nat, r: Outcome, rest: seq<Item>, depth: nat) {
    match r
    case Done(d) => After(w, x, n) == Go(M(rest, d))
    case Exited(d) => After(w, x, n) == Go(M(Unwind(w, rest), d))
    case Error => After(w, x, n) == Fail
    case Unfinished => n >= depth && After(w, x, n).Go?
  }

  lemma {:induction false} ObjRuns(w: World, o: Obj, rest: seq<Item>, d: Data, fuel: nat) returns (n: nat)
    ensures Reaches(w, Go(M([Ob(o)] + rest, d)), n, EvalObj(w, o, d, fuel), rest, fuel + 1)
    decreases fuel, 4, 0
  {
    var m := M([Ob(o)] + rest, d);
    assert m.exec[1..] == rest;
    if IsLiteral(o) {
      assert Steps(w, m, 1) == Steps(w, Step(w, m).m, 0);
      n := 1;
    } else if o.Arr? {
      n := BodyRuns(w, o.body, rest, d, fuel);
    } else if o.Name? {
      n := NameRuns(w, o.id, rest, d, fuel);
      n := n + 1;
    } else {
      n := CmdRuns(w, o.c, rest, d, fuel);
      n := n + 1;
    }
  }

  lemma {:induction false} BodyRuns(w: World, body: seq<Obj>, rest: seq<Item>, d: Data, fuel: nat) returns (n: nat)
    ensures Reaches(w, Go(M([Ob(Arr(body, true))] + rest, d)), n, EvalBody(w, body, d, fuel), rest, fuel + 1)
    decreases fuel, 3, |body|
  {
    var m := M([Ob(Arr(body, true))] + rest, d);
    assert m.exec[1..] == rest;
    if |body| == 0 {
      assert Steps(w, m, 1) == Steps(w, Step(w, m).m, 0);
      n := 1;
    } else {
      var under := if |body| > 1 then [Ob(Arr(body[1..], true))] + rest else rest;
      n := ElemRuns(w, body[0], under, d, fuel);
      assert Unwind(w, under) == Unwind(w, rest) by {
        assert |body| > 1 ==> under[1..] == rest;
      }
      assert Step(w, m) == Deliver(w, body[0], M(under, d));
      assert Steps(w, m, n + 1) == After(w, Step(w, m), n);
      n := n + 1;
      var r := EvalElem(w, body[0], d, fuel);
      if r.Done? && |body| > 1 {
        var k := BodyRuns(w, body[1..], rest, r.d, fuel);
        StepsSplit(w, m, n, k);
        n := n + k;
      }
    }
  }

  lemma {:induction false} ElemRuns(w: World, e: Obj, rest: seq<Item>, d: Data, fuel: nat) returns (n: nat)
    ensures Reaches(w, Deliver(w, e, M(rest, d)), n, EvalElem(w, e, d, fuel), rest, fuel)
    decreases fuel, 2, 0
  {
    if e.Name? && e.exec {
      n := NameRuns(w, e.id, rest, d, fuel);
    } else if e.Cmd? && e.exec {
      n := CmdRuns(w, e.c, rest, d, fuel);
    } else {
      n := 0;
    }
  }

  lemma {:induction false} NameRuns(w: World, id: nat, rest: seq<Item>, d: Data, fuel: nat) returns (n: nat)
    ensures Reaches(w, DoName(w, id, M(rest, d)), n, EvalName(w, id, d, fuel), rest, fuel)
    decreases fuel, 1, 0
  {
    n := 0;
    var found := Find(d.dicts, id);
    if found.Some? && !IsLiteral(found.value) {
      if found.value.Cmd? {
        n := CmdRuns(w, found.value.c, rest, d, fuel);
      } else if fuel > 0 {
        n := ObjRuns(w, found.value, rest, d, fuel - 1);
      }
    }
  }

  lemma {:induction false} CmdRuns(w: World, c: Command, rest: seq<Item>, d: Data, fuel: nat) returns (n: nat)
    ensures Reaches(w, DoCmd(w, c, M(rest, d)), n, EvalCmd(w, c, d, fuel), rest, fuel)
    decreases fuel, 0, 0
  {
    n := 0;
    if fuel > 0 {
      match c
      case If =>
        if |d.ops| >= 2 && d.ops[0].Arr? && d.ops[1].Bool? && d.ops[1].b {
          n := ObjRuns(w, d.ops[0], rest, d.Drop(2), fuel - 1);
        }
      case IfElse =>
        if |d.ops| >= 3 && d.ops[0].Arr? && d.ops[1].Arr? && d.ops[2].Bool? {
          n := ObjRuns(w, if d.ops[2].b then d.ops[1] else d.ops[0], rest, d.Drop(3), fuel - 1);
        }
      case Repeat =>
        if |d.ops| >= 2 && d.ops[0].Arr? && d.ops[1].Int? {
          n := RepeatRuns(w, d.ops[1].n, d.ops[0], rest, d.Drop(2), fuel - 1);
        }
      case For =>
        if |d.ops| >= 4 && d.ops[0].Arr? && d.ops[1].Int? && d.ops[2].Int? && d.ops[3].Int? {
          n := ForRuns(w, d.ops[3].n, d.ops[2].n, d.ops[1].n, d.ops[0], rest, d.Drop(4), fuel - 1);
        }
      case Loop =>
        if |d.ops| >= 1 && d.ops[0].Arr? {
          n := LoopRuns(w, d.ops[0], rest, d.Drop(1), fuel - 1);
        }
      case Exec =>
        if |d.ops| >= 1 {
          n := ObjRuns(w, d.ops[0], rest, d.Drop(1), fuel - 1);
        }
      case Exit =>
      case Def =>
      case Operator(_) =>
    }
  }

  /** What a repeat with i rounds to go has on the stack. */
  function RepeatItems(i: int, proc: Obj): seq<Item> {
    [CRepeat, Ob(Int(i)), Ob(proc), LoopMark]
  }

  lemma RepeatStep(w: World, i: int, proc: Obj, rest: seq<Item>, d: Data)
    ensures Step(w, M(RepeatItems(i, proc) + rest, d))
            == Go(M(if i <= 0 then rest else [Ob(proc)] + (RepeatItems(i - 1, proc) + rest), d))
    ensures Unwind(w, RepeatItems(i, proc) + rest) == rest
  {
    var all := RepeatItems(i, proc) + rest;
    assert all[1..][3..] == rest;
    assert [all[1..][1], CRepeat, Ob(Int(i - 1))] + all[1..][1..] == [Ob(proc)] + (RepeatItems(i - 1, proc) + rest);
    UnwindLoop(w, [CRepeat, Ob(Int(i)), Ob(proc)], rest);
    assert all == [CRepeat, Ob(Int(i)), Ob(proc)] + [LoopMark] + rest;
  }

  /** One round, and then the rounds of what it leads to. */
  lemma StepThen(w: World, m: Machine, next: Machine, n: nat)
    requires Step(w, m) == Go(next)
    ensures Steps(w, m, n + 1) == Steps(w, next, n) && Steps(w, m, 1) == Go(next)
  {
    hide Step;
    assert Steps(w, m, 1) == Steps(w, next, 0);
  }

  lemma {:induction false} RepeatRuns(w: World, i: int, proc: Obj, rest: seq<Item>, d: Data, fuel: nat) returns (n: nat)
    ensures Reaches(w, Go(M(RepeatItems(i, proc) + rest, d)), n, EvalRepeat(w, i, proc, d, fuel), rest, fuel + 1)
    decreases fuel, 5, 0
  {
    hide Step, Unwind, EvalObj, RepeatItems;
    var m := M(RepeatItems(i, proc) + rest, d);
    RepeatStep(w, i, proc, rest, d);
    n := 1;
    if i <= 0 {
      StepThen(w, m, M(rest, d), 0);
    } else {
      var under := RepeatItems(i - 1, proc) + rest;
      StepThen(w, m, M([Ob(proc)] + under, d), 0);
      if fuel > 0 {
        RepeatStep(w, i - 1, proc, rest, d);
        var k := ObjRuns(w, proc, under, d, fuel - 1);
        StepThen(w, m, M([Ob(proc)] + under, d), k);
        n := k + 1;
        var r := EvalObj(w, proc, d, fuel - 1);
        if r.Done? {
          var l := RepeatRuns(w, i - 1, proc, rest, r.d, fuel - 1);
          StepsSplit(w, m, n, l);
          n := n + l;
        }
      }
    }
  }

  /** What an integer for has on the stack before the round for i. */
  function ForItems(i: int, j: int, k: int, proc: Obj): seq<Item> {
    [CIFor, Ob(Int(i)), Ob(Int(j)), Ob(Int(k)), Ob(proc), LoopMark]
  }

  lemma ForStep(w: World, i: int, j: int, k: int, proc: Obj, rest: seq<Item>, d: Data)
    ensures Step(w, M(ForItems(i, j, k, proc) + rest, d))
            == if ForEnds(i, j, k) then Go(M(rest, d))
               else Go(M([Ob(proc)] + (ForItems(Add(w.half, i, j), j, k, proc) + rest), d.Push(Int(i))))
    ensures Unwind(w, ForItems(i, j, k, proc) + rest) == rest
  {
    hide Add;
    var all, next := ForItems(i, j, k, proc) + rest, Add(w.half, i, j);
    assert all[1..][5..] == rest;
    assert [all[1..][3], CIFor, Ob(Int(next))] + all[1..][1..] == [Ob(proc)] + (ForItems(next, j, k, proc) + rest);
    UnwindLoop(w, [CIFor, Ob(Int(i)), Ob(Int(j)), Ob(Int(k)), Ob(proc)], rest);
    assert all == [CIFor, Ob(Int(i)), Ob(Int(j)), Ob(Int(k)), Ob(proc)] + [LoopMark] + rest;
  }

  lemma {:induction false} ForRuns(w: World, i: int, j: int, k: int, proc: Obj, rest: seq<Item>, d: Data, fuel: nat)
    returns (n: nat)
    ensures Reaches(w, Go(M(ForItems(i, j, k, proc) + rest, d)), n, EvalFor(w, i, j, k, proc, d, fuel), rest, fuel + 1)
    decreases fuel, 5, 0
  {
    hide Step, Unwind, EvalObj, ForItems, Add;
    var m := M(ForItems(i, j, k, proc) + rest, d);
    ForStep(w, i, j, k, proc, rest, d);
    n := 1;
    if ForEnds(i, j, k) {
      StepThen(w, m, M(rest, d), 0);
    } else {
      var next := Add(w.half, i, j);
      var under := ForItems(next, j, k, proc) + rest;
      StepThen(w, m, M([Ob(proc)] + under, d.Push(Int(i))), 0);
      if fuel > 0 {
        ForStep(w, next, j, k, proc, rest, d);
        var l := ObjRuns(w, proc, under, d.Push(Int(i)), fuel - 1);
        StepThen(w, m, M([Ob(proc)] + under, d.Push(Int(i))), l);
        n := l + 1;
        var r := EvalObj(w, proc, d.Push(Int(i)), fuel - 1);
        if r.Done? {
          var l' := ForRuns(w, next, j, k, proc, rest, r.d, fuel - 1);
          StepsSplit(w, m, n, l');
          n := n + l';
        }
      }
    }
  }

  lemma {:induction false} LoopRuns(w: World, proc: Obj, rest: seq<Item>, d: Data, fuel: nat) returns (n: nat)
    ensures Reaches(w, Go(M([CLoop, Ob(proc), LoopMark] + rest, d)), n, EvalLoop(w, proc, d, fuel), rest, fuel + 1)
    decreases fuel, 5, 0
  {
    var m := M([CLoop, Ob(proc), LoopMark] + rest, d);
    assert [m.exec[1..][0], CLoop] + m.exec[1..] == [Ob(proc)] + m.exec;
    assert Step(w, m) == Go(M([Ob(proc)] + m.exec, d));
    assert Steps(w, m, 1) == Steps(w, Step(w, m).m, 0);
    n := 1;
    if fuel > 0 {
      UnwindLoop(w, [CLoop, Ob(proc)], rest);
      assert m.exec == [CLoop, Ob(proc)] + [LoopMark] + rest;
      var l := ObjRuns(w, proc, m.exec, d, fuel - 1);
      assert Steps(w, m, l + 1) == Steps(w, Step(w, m).m, l);
      n := l + 1;
      var r := EvalObj(w, proc, d, fuel - 1);
      if r.Done? {
        var l' := LoopRuns(w, proc, rest, r.d, fuel - 1);
        StepsSplit(w, m, n, l');
        n := n + l';
      }
    }
  }

  /** Unwinding what a loop has stacked above its mark. */
  lemma {:induction false} UnwindLoop(w: World, above: seq<Item>, rest: seq<Item>)
    requires forall k :: 0 <= k < |above| ==> !above[k].LoopMark? && !above[k].ExecMark?
    ensures Unwind(w, above + [LoopMark] + rest) == rest
    decreases |above|
  {
    var all := above + [LoopMark] + rest;
    if above == [] {
      assert all[1..] == rest;
    } else {
      assert all[1..] == above[1..] + [LoopMark] + rest;
      UnwindLoop(w, above[1..], rest);
    }
  }

  /** A machine that has stopped or failed stays as it is. */
  lemma {:induction false} Halted(w: World, m: Machine, a: nat, b: nat)
    requires !Steps(w, m, a).Go? && a <= b
    ensures Steps(w, m, b) == Steps(w, m, a)
    decreases a
  {
    hide Step;
    if a > 0 && Step(w, m).Go? {
      Halted(w, Step(w, m).m, a - 1, b - 1);
    }
  }

  /** The machine as InnerExecute starts it on o. */
  function Start(o: Obj, outer: seq<Item>, d: Data): Machine {
    M([Ob(o), ExecMark(false)] + outer, d)
  }

  /** How InnerExecute ends when the structured semantics says r. */
  function Ending(w: World, outer: seq<Item>, r: Outcome): Next
    requires !r.Unfinished?
  {
    match r
    case Done(d) => Stop(M(outer, d), false)
    case Exited(d) => Stop(M((if outer == [] then [] else [Ob(Name(w.xit, true))]) + outer, d), true)
    case Error => Fail
  }

  /**
    InnerExecute halts with exactly what the structured semantics of the object says, and the execution stack of
    its caller is as it was, but for the exit that is passed on.
   */
  lemma {:induction false} ExecuteMeaning(w: World, o: Obj, outer: seq<Item>, d: Data, fuel: nat) returns (n: nat)
    requires !EvalObj(w, o, d, fuel).Unfinished?
    ensures Steps(w, Start(o, outer, d), n) == Ending(w, outer, EvalObj(w, o, d, fuel))
  {
    hide EvalObj, Step, Unwind, Steps;
    var rest := [ExecMark(false)] + outer;
    var r := EvalObj(w, o, d, fuel);
    var start := Start(o, outer, d);
    assert [Ob(o)] + rest == start.exec;
    n := ObjRuns(w, o, rest, d, fuel);
    if !r.Error? {
      var last := M(if r.Done? then rest else Unwind(w, rest), r.d);
      assert Steps(w, start, n) == Go(last);
      AtMark(w, outer, d);
      OneMore(w, start, n, last);
      MarkStops(w, last);
      assert last.exec[1..] == Ending(w, outer, r).m.exec;
      n := n + 1;
    }
  }

  lemma OneMore(w: World, m: Machine, n: nat, last: Machine)
    requires Steps(w, m, n) == Go(last)
    ensures Steps(w, m, n + 1) == Step(w, last)
  {
    hide Step;
    StepsSplit(w, m, n, 1);
    assert Steps(w, last, 1) == if Step(w, last).Go? then Steps(w, Step(w, last).m, 0) else Step(w, last);
  }

  /** Unwinding to the caller's mark. */
  lemma AtMark(w: World, outer: seq<Item>, d: Data)
    ensures Unwind(w, [ExecMark(false)] + outer)
            == [ExecMark(true)] + ((if outer == [] then [] else [Ob(Name(w.xit, true))]) + outer)
  {
  }

  lemma MarkStops(w: World, m: Machine)
    requires m.exec != [] && m.exec[0].ExecMark?
    ensures Step(w, m) == Stop(M(m.exec[1..], m.d), m.exec[0].cleanup)
  {
  }

  /** The other way round: the structured semantics is defined wherever the machine halts. */
  lemma {:induction false} HaltingIsFinished(w: World, o: Obj, outer: seq<Item>, d: Data, n: nat)
    requires !Steps(w, Start(o, outer, d), n).Go?
    ensures !EvalObj(w, o, d, n).Unfinished?
    ensures Steps(w, Start(o, outer, d), n) == Ending(w, outer, EvalObj(w, o, d, n))
  {
    assert [Ob(o)] + ([ExecMark(false)] + outer) == Start(o, outer, d).exec;
    var k := ObjRuns(w, o, [ExecMark(false)] + outer, d, n);
    if n <= k {
      Halted(w, Start(o, outer, d), n, k);
    }
    k := ExecuteMeaning(w, o, outer, d, n);
    Halted(w, Start(o, outer, d), n, if k > n then k else n);
    Halted(w, Start(o, outer, d), k, if k > n then k else n);
  }

  /** Two depths at which an object finishes give one result. */
  lemma FinishedOnce(w: World, o: Obj, d: Data, fuel: nat, fuel': nat)
    requires !EvalObj(w, o, d, fuel).Unfinished? && !EvalObj(w, o, d, fuel').Unfinished?
    ensures EvalObj(w, o, d, fuel) == EvalObj(w, o, d, fuel')
  {
    var a := ExecuteMeaning(w, o, [], d, fuel);
    var b := ExecuteMeaning(w, o, [], d, fuel');
    Halted(w, Start(o, [], d), a, a + b);
    Halted(w, Start(o, [], d), b, a + b);
  }

  /** The first element of a longer procedure runs with the rest of the procedure beneath it. */
  lemma FirstRuns(w: World, body: seq<Obj>, rest: seq<Item>, d: Data, fuel: nat) returns (n: nat)
    requires |body| > 1 && EvalElem(w, body[0], d, fuel).Done?
    ensures Steps(w, M([Ob(Arr(body, true))] + rest, d), n)
            == Go(M([Ob(Arr(body[1..], true))] + rest, EvalElem(w, body[0], d, fuel).d))
  {
    hide EvalElem, Deliver, Unwind;
    var m := M([Ob(Arr(body, true))] + rest, d);
    assert m.exec[1..] == rest;
    n := ElemRuns(w, body[0], [Ob(Arr(body[1..], true))] + rest, d, fuel);
    assert Steps(w, m, n + 1) == After(w, Step(w, m), n);
    n := n + 1;
  }

  /** When its first k elements have completed, a procedure is on the stack with the rest of its elements. */
  lemma {:induction false} PrefixRuns(w: World, body: seq<Obj>, k: nat, rest: seq<Item>, d: Data, fuel: nat)
    returns (n: nat)
    requires k < |body| && EvalBody(w, body[..k], d, fuel).Done?
    ensures Steps(w, M([Ob(Arr(body, true))] + rest, d), n)
            == Go(M([Ob(Arr(body[k..], true))] + rest, EvalBody(w, body[..k], d, fuel).d))
    decreases k
  {
    hide EvalElem, Step;
    n := 0;
    if k == 0 {
      assert body[0..] == body;
    } else {
      assert body[..k][1..] == body[1..][..k - 1] && body[1..][k - 1..] == body[k..];
      n := FirstRuns(w, body, rest, d, fuel);
      var l := PrefixRuns(w, body[1..], k - 1, rest, EvalElem(w, body[0], d, fuel).d, fuel);
      StepsSplit(w, M([Ob(Arr(body, true))] + rest, d), n, l);
      n := n + l;
    }
  }

  /**
    A procedure whose last element is a name that stands for a procedure by then, its own for instance, comes to the
    start of that procedure with the same execution stack beneath: the last element is run after the first procedure
    has been popped.
   */
  lemma TailCallKeepsHeight(w: World, body: seq<Obj>, id: nat, rest: seq<Item>, d: Data, fuel: nat) returns (n: nat)
    requires body != [] && body[|body| - 1] == Name(id, true) && EvalBody(w, body[..|body| - 1], d, fuel).Done?
    requires var found := Find(EvalBody(w, body[..|body| - 1], d, fuel).d.dicts, id);
             found.Some? && found.value.Arr? && found.value.exec
    ensures n > 0
    ensures var d' := EvalBody(w, body[..|body| - 1], d, fuel).d;
            Steps(w, M([Ob(Arr(body, true))] + rest, d), n) == Go(M([Ob(Find(d'.dicts, id).value)] + rest, d'))
  {
    var m := M([Ob(Arr(body, true))] + rest, d);
    n := PrefixRuns(w, body, |body| - 1, rest, d, fuel);
    StepsSplit(w, m, n, 1);
    var m' := Steps(w, m, n).m;
    assert m'.exec[1..] == rest && body[|body| - 1..] == [Name(id, true)];
    assert Steps(w, m', 1) == Step(w, m');
    n := n + 1;
  }

  // ---------------------------------------------------------------- what programs compute, in numbers

  predicate InRange(half: int, i: int) {
    -half <= i < half
  }

  /** Sums in range are sums; others wrap around. */
  lemma AddMeans(half: Pos, i: int, j: int)
    ensures InRange(half, Add(half, i, j))
    ensures InRange(half, i + j) ==> Add(half, i, j) == i + j
    ensures exists turns :: Add(half, i, j) == i + j - turns * (2 * half)
  {
    var turns := (i + j + half) / (2 * half);
    assert Add(half, i, j) == i + j - turns * (2 * half);
    if InRange(half, i + j) {
      assert 0 <= i + j + half < 2 * half;
      SmallRemainder(i + j + half, 2 * half);
    }
  }

  lemma SmallRemainder(a: int, b: int)
    requires 0 <= a < b
    ensures a % b == a
  {
  }

  /** A name has the value that the first dictionary with it gives it, and none just if no dictionary has it. */
  lemma {:induction false} FindMeans(dicts: seq<Dict>, id: nat)
    ensures Find(dicts, id).None? <==> forall n :: 0 <= n < |dicts| ==> id !in dicts[n]
    ensures forall n :: 0 <= n < |dicts| && id in dicts[n] && (forall m :: 0 <= m < n ==> id !in dicts[m]) ==>
              Find(dicts, id) == Some(dicts[n][id])
  {
    if dicts != [] {
      var rest := dicts[1..];
      FindMeans(rest, id);
      assert forall n :: 0 < n < |dicts| ==> dicts[n] == rest[n - 1];
      if id !in dicts[0] {
        forall n | 0 <= n < |dicts| && id in dicts[n] && forall m :: 0 <= m < n ==> id !in dicts[m]
          ensures Find(dicts, id) == Some(dicts[n][id])
        {
          forall m | 0 <= m < n - 1 ensures id !in rest[m] {
            assert rest[m] == dicts[m + 1];
          }
          assert rest[n - 1] == dicts[n];
        }
      }
    }
  }

  /** The procedure on each of the numbers, pushed one after the other, or until it exits. */
  function EvalEach(w: World, numbers: seq<int>, proc: Obj, d: Data, fuel: nat): Outcome
    decreases fuel
  {
    if numbers == [] then Done(d)
    else if fuel == 0 then Unfinished
    else
      var r := EvalObj(w, proc, d.Push(Int(numbers[0])), fuel - 1);
      if r.Done? then EvalEach(w, numbers[1..], proc, r.d, fuel - 1)
      else if r.Exited? then Done(r.d)
      else r
  }

  /** n numbers from i on in steps of j. */
  function Numbers(i: int, j: int, n: nat): (numbers: seq<int>)
    ensures |numbers| == n && forall r :: 0 <= r < n ==> numbers[r] == i + r * j
  {
    seq(n, r => i + r * j)
  }

  /**
    for runs its procedure on i, i + j, i + 2j and so on, for as long as they have not passed k: n numbers, when the
    last of them has not passed k and the one after it has.  That one must still be an integer of the machine.
   */
  lemma {:induction false} ForIsEach(w: World, i: int, j: int, k: int, n: nat, proc: Obj, d: Data, fuel: nat)
    requires j != 0 && InRange(w.half, i) && InRange(w.half, i + n * j)
    requires j > 0 ==> i + n * j > k && (n > 0 ==> i + (n - 1) * j <= k)
    requires j < 0 ==> i + n * j < k && (n > 0 ==> i + (n - 1) * j >= k)
    ensures EvalFor(w, i, j, k, proc, d, fuel) == EvalEach(w, Numbers(i, j, n), proc, d, fuel)
    decreases fuel
  {
    hide EvalObj, Add;
    if n > 0 {
      Onward(i, j, n);
      if fuel > 0 {
        var r := EvalObj(w, proc, d.Push(Int(i)), fuel - 1);
        if r.Done? {
          AddMeans(w.half, i, j);
          ForIsEach(w, i + j, j, k, n - 1, proc, r.d, fuel - 1);
          NumbersRest(i, j, n);
        }
      }
    }
  }

  /** The numbers go all in one direction. */
  lemma Onward(i: int, j: int, n: nat)
    requires n > 0
    ensures i + n * j == i + j + (n - 1) * j
    ensures j > 0 ==> i <= i + (n - 1) * j && i + j <= i + n * j
    ensures j < 0 ==> i >= i + (n - 1) * j && i + j >= i + n * j
  {
    assert n * j == (n - 1) * j + j;
  }

  lemma NumbersRest(i: int, j: int, n: nat)
    requires n > 0
    ensures Numbers(i, j, n)[1..] == Numbers(i + j, j, n - 1)
  {
    forall r | 0 <= r < n - 1 ensures Numbers(i, j, n)[1..][r] == Numbers(i + j, j, n - 1)[r] {
      assert (r + 1) * j == r * j + j;
    }
  }

  /** How many numbers a loop of integers runs over. */
  function Rounds(i: int, j: int, k: int): nat
    requires j != 0
  {
    if j > 0 then (if i <= k then (k - i) / j + 1 else 0) else (if i >= k then (i - k) / -j + 1 else 0)
  }

  lemma RoundsFit(i: int, j: int, k: int)
    requires j != 0
    ensures var n := Rounds(i, j, k);
            && (j > 0 ==> i + n * j > k && (n > 0 ==> i + (n - 1) * j <= k))
            && (j < 0 ==> i + n * j < k && (n > 0 ==> i + (n - 1) * j >= k))
  {
    if j > 0 && i <= k {
      Divided(k - i, j);
    } else if j < 0 && i >= k {
      Divided(i - k, -j);
      var q := (i - k) / -j;
      assert q * -j == -(q * j) && (q + 1) * -j == -((q + 1) * j);
    }
  }

  lemma Divided(a: nat, j: int)
    requires j > 0
    ensures a / j * j <= a < (a / j + 1) * j
  {
    assert a == a / j * j + a % j;
    assert (a / j + 1) * j == a / j * j + j;
  }

  /** i j k {} for leaves i, i + j, ... on the stack, the last on top. */
  lemma {:induction false} EachPushed(w: World, numbers: seq<int>, d: Data, fuel: nat)
    requires fuel > |numbers|
    ensures EvalEach(w, numbers, Arr([], true), d, fuel)
            == Done(Data(seq(|numbers|, r requires 0 <= r < |numbers| => Int(numbers[|numbers| - 1 - r])) + d.ops,
                         d.dicts))
    decreases |numbers|
  {
    var left := seq(|numbers|, r requires 0 <= r < |numbers| => Int(numbers[|numbers| - 1 - r])) + d.ops;
    if numbers == [] {
      assert left == d.ops;
    } else {
      var rest, d1 := numbers[1..], d.Push(Int(numbers[0]));
      assert EvalObj(w, Arr([], true), d1, fuel - 1) == Done(d1);
      EachPushed(w, rest, d1, fuel - 1);
      assert left == seq(|rest|, r requires 0 <= r < |rest| => Int(rest[|rest| - 1 - r])) + d1.ops;
    }
  }

  /** What i j k {} for should leave: the numbers from i to k in steps of j. */
  function Pushed(i: int, j: int, n: nat, d: Data): Data {
    Data(seq(n, r requires 0 <= r < n => Int(i + (n - 1 - r) * j)) + d.ops, d.dicts)
  }

  lemma ForPushes(w: World, i: int, j: int, k: int, d: Data, fuel: nat)
    requires j != 0 && InRange(w.half, i) && InRange(w.half, i + Rounds(i, j, k) * j)
    requires fuel > Rounds(i, j, k)
    ensures EvalFor(w, i, j, k, Arr([], true), d, fuel) == Done(Pushed(i, j, Rounds(i, j, k), d))
  {
    hide EvalFor, EvalEach, Rounds;
    var n := Rounds(i, j, k);
    var numbers := Numbers(i, j, n);
    RoundsFit(i, j, k);
    ForIsEach(w, i, j, k, n, Arr([], true), d, fuel);
    EachPushed(w, numbers, d, fuel);
    assert seq(n, r requires 0 <= r < n => Int(numbers[n - 1 - r]))
        == seq(n, r requires 0 <= r < n => Int(i + (n - 1 - r) * j));
  }

  /** A loop with an empty procedure pushes something in every round. */
  lemma {:induction false} ForGrows(w: World, i: int, j: int, k: int, d: Data, fuel: nat)
    ensures var r := EvalFor(w, i, j, k, Arr([], true), d, fuel);
            r.Done? || r.Unfinished?
    ensures var r := EvalFor(w, i, j, k, Arr([], true), d, fuel);
            r.Done? ==> |r.d.ops| >= |d.ops| + if ForEnds(i, j, k) then 0 else 1
    decreases fuel
  {
    hide Add;
    if fuel > 0 && !ForEnds(i, j, k) {
      assert EvalObj(w, Arr([], true), d.Push(Int(i)), fuel - 1) == Done(d.Push(Int(i)));
      ForGrows(w, Add(w.half, i, j), j, k, d.Push(Int(i)), fuel - 1);
    }
  }

  /** If the number after the n that have not passed k is out of range, the loop goes on from where that wraps to. */
  lemma {:induction false} ForOverruns(w: World, i: int, j: int, k: int, n: nat, d: Data, fuel: nat)
    requires InRange(w.half, i) && InRange(w.half, j) && InRange(w.half, k) && !InRange(w.half, i + n * j)
    requires n > 0 && if j > 0 then i + (n - 1) * j <= k else i + (n - 1) * j >= k
    ensures var r := EvalFor(w, i, j, k, Arr([], true), d, fuel);
            r.Done? ==> |r.d.ops| > |d.ops| + n
    decreases fuel
  {
    hide Add;
    Onward(i, j, n);
    if fuel > 0 {
      var d1, i1 := d.Push(Int(i)), Add(w.half, i, j);
      assert EvalObj(w, Arr([], true), d1, fuel - 1) == Done(d1);
      AddMeans(w.half, i, j);
      if n == 1 {
        Wrapped(w.half, i, j);
        ForGrows(w, i1, j, k, d1, fuel - 1);
      } else {
        Onward(i + j, j, n - 1);
        ForOverruns(w, i1, j, k, n - 1, d1, fuel - 1);
      }
    }
  }

  /** A sum that is too great comes out below both, and one that is too small above both. */
  lemma Wrapped(half: Pos, i: int, j: int)
    requires InRange(half, i) && InRange(half, j) && !InRange(half, i + j)
    ensures j > 0 ==> Add(half, i, j) < i
    ensures j <= 0 ==> Add(half, i, j) > i
  {
    if j > 0 {
      assert Add(half, i, j) == (i + j + half) % (2 * half) - half;
      Shifted(i + j + half, 2 * half, 1);
    } else {
      Shifted(i + j + half, 2 * half, -1);
    }
  }

  lemma Shifted(a: int, b: int, q: int)
    requires b > 0 && q * b <= a < q * b + b
    ensures a % b == a - q * b
  {
    assert a == a / b * b + a % b;
    Times(a / b, q, b);
  }

  lemma {:induction false} Times(p: int, q: int, b: int)
    requires b > 0
    ensures p > q ==> p * b >= q * b + b
    ensures p < q ==> p * b + b <= q * b
    decreases if p > q then p - q else q - p
  {
    assert (p - 1) * b == p * b - b && (p + 1) * b == p * b + b;
    if p > q + 1 {
      Times(p - 1, q, b);
    } else if p < q - 1 {
      Times(p + 1, q, b);
    }
  }

  /** i j k {} for leaves just the numbers from i to k in steps of j if and only if the one after them is an integer. */
  lemma ForPushesIff(w: World, i: int, j: int, k: int, d: Data, fuel: nat)
    requires j != 0 && InRange(w.half, i) && InRange(w.half, j) && InRange(w.half, k) && fuel > Rounds(i, j, k)
    ensures EvalFor(w, i, j, k, Arr([], true), d, fuel) == Done(Pushed(i, j, Rounds(i, j, k), d))
       <==> InRange(w.half, i + Rounds(i, j, k) * j)
  {
    hide EvalFor, Rounds;
    var n := Rounds(i, j, k);
    RoundsFit(i, j, k);
    if InRange(w.half, i + n * j) {
      ForPushes(w, i, j, k, d, fuel);
    } else {
      assert n > 0;
      ForOverruns(w, i, j, k, n, d, fuel);
    }
  }

  /** In steps of 0 a loop ends at once if i is below k, and never otherwise. */
  lemma {:induction false} ForStill(w: World, i: int, k: int, d: Data, fuel: nat)
    requires InRange(w.half, i)
    ensures EvalFor(w, i, 0, k, Arr([], true), d, fuel) == if i < k then Done(d) else Unfinished
    decreases fuel
  {
    if i >= k && fuel > 0 {
      AddMeans(w.half, i, 0);
      assert EvalObj(w, Arr([], true), d.Push(Int(i)), fuel - 1) == Done(d.Push(Int(i)));
      ForStill(w, i, k, d.Push(Int(i)), fuel - 1);
    }
  }

  /** A loop up to the greatest integer, or down to the least one, never ends: the next number has wrapped around. */
  lemma {:induction false} ForNeverEnds(w: World, i: int, j: int, d: Data, fuel: nat)
    requires InRange(w.half, i)
    ensures j > 0 ==> EvalFor(w, i, j, w.half - 1, Arr([], true), d, fuel).Unfinished?
    ensures j <= 0 ==> EvalFor(w, i, j, 0 - w.half as int, Arr([], true), d, fuel).Unfinished?
    decreases fuel
  {
    hide Add;
    if fuel > 0 {
      AddMeans(w.half, i, j);
      assert EvalObj(w, Arr([], true), d.Push(Int(i)), fuel - 1) == Done(d.Push(Int(i)));
      ForNeverEnds(w, Add(w.half, i, j), j, d.Push(Int(i)), fuel - 1);
    }
  }

  lemma OneElement(w: World, e: Obj, d: Data, fuel: nat)
    ensures EvalObj(w, Arr([e], true), d, fuel) == EvalElem(w, e, d, fuel)
  {
    hide EvalElem;
    var body: seq<Obj> := [e];
    assert body[1..] == [];
    var r := EvalElem(w, e, d, fuel);
    if r.Done? {
      assert EvalBody(w, [], r.d, fuel) == Done(r.d);
    }
    assert EvalBody(w, body, d, fuel) == r;
  }

  /** repeat of a procedure that pushes a 1 leaves as many as it was given, and none for a count below 1. */
  lemma {:induction false} RepeatPushes(w: World, i: int, d: Data, fuel: nat)
    requires fuel > 0 && fuel > i
    ensures EvalRepeat(w, i, Arr([Int(1)], true), d, fuel)
            == Done(Data(seq(if i > 0 then i else 0, _ => Int(1)) + d.ops, d.dicts))
    decreases fuel
  {
    var ones := seq(if i > 0 then i else 0, _ => Int(1));
    if i > 0 {
      OneElement(w, Int(1), d, fuel - 1);
      if i == 1 {
        assert ones + d.ops == d.Push(Int(1)).ops;
      } else {
        RepeatPushes(w, i - 1, d.Push(Int(1)), fuel - 1);
        assert ones + d.ops == seq(i - 1, _ => Int(1)) + d.Push(Int(1)).ops;
      }
    } else {
      assert ones + d.ops == d.ops;
    }
  }

  /**
    What becomes of an object that comes to be executed, by its type and tag: numbers and booleans are pushed whatever
    their tag, and so is what is tagged literal; an executable procedure, name or command is not.
   */
  lemma ExecutedOrPushed(w: World, o: Obj, d: Data, fuel: nat)
    ensures o.Int? || o.Bool? || !o.exec ==> EvalObj(w, o, d, fuel) == Done(d.Push(o))
    ensures EvalObj(w, Arr([], true), d, fuel) == Done(d)
    ensures EvalObj(w, Arr([o], true), d, fuel) == if o.Arr? then Done(d.Push(o)) else EvalObj(w, o, d, fuel)
    ensures o.Name? && o.exec && (forall n :: 0 <= n < |d.dicts| ==> o.id !in d.dicts[n]) ==>
              EvalObj(w, o, d, fuel) == Error
    ensures o.Name? && o.exec && d.dicts != [] && o.id in d.dicts[0] && d.dicts[0][o.id].Int? ==>
              EvalObj(w, o, d, fuel) == Done(d.Push(d.dicts[0][o.id]))
    ensures EvalObj(w, Cmd(Exit, true), d, fuel) == Exited(d)
  {
    if o.Name? { FindMeans(d.dicts, o.id); }
    OneElement(w, o, d, fuel);
  }

  /** After def the name has the value, other names have theirs, and so has everything in the dictionaries below. */
  lemma DefMeans(w: World, d: Data, fuel: nat)
    requires |d.ops| >= 2 && d.ops[1].Name? && d.dicts != []
    ensures EvalCmd(w, Def, d, fuel).Done?
    ensures var d' := EvalCmd(w, Def, d, fuel).d;
            && d'.ops == d.ops[2..] && d'.dicts[1..] == d.dicts[1..]
            && Find(d'.dicts, d.ops[1].id) == Some(d.ops[0])
            && forall id :: id != d.ops[1].id ==> Find(d'.dicts, id) == Find(d.dicts, id)
  {
  }
}
