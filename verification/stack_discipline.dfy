/**
 Stack discipline of the emitted stub: run on the abstract interpreter from
 the entry frame of `invoke(Object, Object[])`, the code before the call leaves
 exactly the receiver (for an instance target) and one value of each parameter
 type on the stack; the call then consumes them, and the stub returns a
 reference exactly when the target is void or returns a reference.
 */
module StackDiscipline {
  import opened Wrappers
  import opened JvmTypes
  import opened Descriptors
  import opened Naming
  import opened Emitter
  import opened StackMachine

  /** Locals of the stub, class `self`: `this`, the receiver `Object`, the
      argument array `Object[]`. */
  function StubLocals(self: string): seq<VType> {
    [Value(ClassType(self)), Value(ObjectType), Value(ArrayType(ObjectType))]
  }

  /** The entry frame of an instance method with a well-formed signature. */
  lemma EntryFrameOf(self: JType, ps: seq<JType>, r: RetType)
    requires WellFormedTypes(ps) && WellFormedRet(r)
    ensures EntryFrame(self, MethodDescriptor(ps, r)) == Some(Frame([Value(self)] + ParamSlots(ps), []))
  {
    ParseMethodDescriptor(ps, r);
  }

  /** The entry frame of an instance method taking two one-slot parameters. */
  lemma EntryFrameOfPair(self: JType, a: JType, b: JType, r: RetType)
    requires WellFormedTypes([a, b]) && WellFormedRet(r)
    requires Slots(a) == [Value(a)] && Slots(b) == [Value(b)]
    ensures EntryFrame(self, MethodDescriptor([a, b], r)) == Some(Frame([Value(self), Value(a), Value(b)], []))
  {
    EntryFrameOf(self, [a, b], r);
    var ps := [a, b];
    assert ps[0] == a && ps[1..] == [b];
    assert [b][0] == b && [b][1..] == [];
    assert ParamSlots([b]) == [Value(b)] + ParamSlots([]);
    assert ParamSlots(ps) == [Value(a)] + ParamSlots([b]) == [Value(a), Value(b)];
    assert [Value(self)] + ParamSlots(ps) == [Value(self), Value(a), Value(b)];
  }

  /** The entry frame the stub's own descriptor gives it. */
  lemma StubEntryFrame(self: string)
    ensures EntryFrame(ClassType(self), InvokeDescriptor) == Some(Frame(StubLocals(self), []))
  {
    var a, b := ObjectType, ArrayType(ObjectType);
    assert WellFormedTypes([a, b]) by {
      assert WellFormedName(ObjectName);
      assert forall i | 0 <= i < 2 :: [a, b][i] == a || [a, b][i] == b;
    }
    EntryFrameOfPair(ClassType(self), a, b, Returns(a));
  }

  /** The target's signature as verification types: one per parameter. */
  function ArgStack(ps: seq<JType>): (s: seq<VType>)
    ensures |s| == |ps|
  {
    seq(|ps|, i requires 0 <= i < |ps| => Value(ps[i]))
  }

  /** The receiver, cast to the owner, for an instance target. */
  function ReceiverStack(t: Target): seq<VType> {
    if t.isStatic then [] else [Value(OwnerType(t))]
  }

  /** A frame whose `args` local holds an `Object[]`. */
  predicate ArgumentsLocal(f: Frame) {
    |f.locals| > ArgumentsSlot && f.locals[ArgumentsSlot] == Value(ArrayType(ObjectType))
  }

  /** Loading `args` pushes an `Object[]`. */
  lemma LoadArgumentsStep(f: Frame, supers: Hierarchy)
    requires ArgumentsLocal(f)
    ensures Step(ALoad(ArgumentsSlot), f, supers) == Success(Running(Push(f, Value(ArrayType(ObjectType)))))
  {
  }

  /** Loading an element of an `Object[]` replaces it by an `Object`. */
  lemma ElementStep(i: nat, f: Frame, supers: Hierarchy)
    requires |f.stack| > 0 && f.stack[|f.stack| - 1] == Value(ArrayType(ObjectType))
    ensures Step(ArrayElement(i), f, supers) == Success(Running(ReplaceTop(f, Value(ObjectType))))
  {
  }

  /** A cast of a reference to a reference type replaces it by the target type. */
  lemma CastStep(c: JType, f: Frame, supers: Hierarchy)
    requires c.IsReference() && |f.stack| > 0 && IsRef(f.stack[|f.stack| - 1])
    ensures Step(CheckCast(c), f, supers) == Success(Running(ReplaceTop(f, Value(c))))
  {
  }

  /** The accessor call replaces the wrapper by the primitive it holds. */
  lemma UnwrapStep(k: Prim, f: Frame, supers: Hierarchy)
    requires |f.stack| > 0 && f.stack[|f.stack| - 1] == Value(Boxed(k))
    ensures Step(Unwrap(k), f, supers) == Success(Running(ReplaceTop(f, Value(PrimType(k)))))
  {
    UnboxDescriptorParses(k);
    var n := |f.stack|;
    assert f.stack[n - 0..] == [];
  }

  /** One parameter's code pushes one value of exactly the parameter's type:
      the unwrapped primitive, or the cast reference. */
  lemma ArgumentRun(i: nat, p: JType, f: Frame, supers: Hierarchy)
    requires ArgumentsLocal(f)
    ensures Run(ArgumentCode(i, p), f, supers) == Success(Running(Push(f, Value(p))))
  {
    var c := CastType(p);
    var tail: seq<Instr> := if p.PrimType? then [Unwrap(p.prim)] else [];
    var f1 := Push(f, Value(ArrayType(ObjectType)));
    var f2 := Push(f, Value(ObjectType));
    var f3 := Push(f, Value(c));
    var r2 := [CheckCast(c)] + tail;
    var r1 := [ArrayElement(i)] + r2;
    assert ArgumentCode(i, p) == [ALoad(ArgumentsSlot)] + r1;
    RunCons(ALoad(ArgumentsSlot), r1, f, supers);
    LoadArgumentsStep(f, supers);
    assert Run(ArgumentCode(i, p), f, supers) == Run(r1, f1, supers);
    RunCons(ArrayElement(i), r2, f1, supers);
    ElementStep(i, f1, supers);
    assert ReplaceTop(f1, Value(ObjectType)) == f2;
    assert Run(r1, f1, supers) == Run(r2, f2, supers);
    RunCons(CheckCast(c), tail, f2, supers);
    CastStep(c, f2, supers);
    assert ReplaceTop(f2, Value(c)) == f3;
    assert Run(r2, f2, supers) == Run(tail, f3, supers);
    if p.PrimType? {
      RunCons(Unwrap(p.prim), [], f3, supers);
      UnwrapStep(p.prim, f3, supers);
      assert ReplaceTop(f3, Value(p)) == Push(f, Value(p));
      assert [Unwrap(p.prim)] + [] == tail;
    } else {
      assert c == p;
    }
  }

  /** The verification types of a longer parameter list. */
  lemma ArgStackSnoc(ps: seq<JType>)
    requires |ps| > 0
    ensures ArgStack(ps) == ArgStack(ps[..|ps| - 1]) + [Value(ps[|ps| - 1])]
  {
  }

  /** The argument code pushes the parameter types, in declaration order, and
      touches nothing else. */
  lemma {:induction false} ArgumentsRun(ps: seq<JType>, f: Frame, supers: Hierarchy)
    requires ArgumentsLocal(f)
    ensures Run(ArgumentsCode(ps), f, supers) == Success(Running(f.(stack := f.stack + ArgStack(ps))))
    decreases |ps|
  {
    if |ps| == 0 {
      assert f.(stack := f.stack + []) == f;
    } else {
      var n := |ps| - 1;
      var front := ps[..n];
      var a, b := ArgumentsCode(front), ArgumentCode(n, ps[n]);
      assert ArgumentsCode(ps) == a + b;
      RunAppend(a, b, f, supers);
      ArgumentsRun(front, f, supers);
      var f' := f.(stack := f.stack + ArgStack(front));
      assert Run(a + b, f, supers) == Run(b, f', supers);
      ArgumentRun(n, ps[n], f', supers);
      ArgStackSnoc(ps);
      assert Push(f', Value(ps[n])) == f.(stack := f.stack + ArgStack(ps));
    }
  }

  /** An instance target's receiver code pushes the receiver, cast to the owner
      class (the class the generator was given, not necessarily the declaring
      class); a static target's pushes nothing. */
  lemma ReceiverRun(t: Target, f: Frame, supers: Hierarchy)
    requires |f.locals| > ReceiverSlot && IsRef(f.locals[ReceiverSlot])
    ensures Run(ReceiverCode(t), f, supers) == Success(Running(f.(stack := f.stack + ReceiverStack(t))))
  {
    if !t.isStatic {
      var code := ReceiverCode(t);
      var f1 := Push(f, f.locals[ReceiverSlot]);
      RunFrom(code, 0, f, supers);
      assert code[0..] == code;
      RunFrom(code, 1, f1, supers);
      assert ReplaceTop(f1, Value(OwnerType(t))) == f.(stack := f.stack + ReceiverStack(t));
      assert code[2..] == [];
    } else {
      assert f.(stack := f.stack + []) == f;
    }
  }

  /** The code before the call. */
  function CallPrefix(t: Target): seq<Instr> {
    ReceiverCode(t) + ArgumentsCode(t.params)
  }

  /** At the call, started from the stub's entry frame, the stack holds
      exactly the receiver (instance targets only) followed by one value of each
      parameter type, in declaration order; the locals are untouched. */
  lemma PrefixRun(t: Target, self: string, supers: Hierarchy)
    ensures Run(CallPrefix(t), Frame(StubLocals(self), []), supers)
      == Success(Running(Frame(StubLocals(self), ReceiverStack(t) + ArgStack(t.params))))
  {
    var f := Frame(StubLocals(self), []);
    RunAppend(ReceiverCode(t), ArgumentsCode(t.params), f, supers);
    ReceiverRun(t, f, supers);
    var f' := Frame(StubLocals(self), ReceiverStack(t));
    assert f.(stack := f.stack + ReceiverStack(t)) == f';
    ArgumentsRun(t.params, f', supers);
    assert Then(Run(ReceiverCode(t), f, supers), ArgumentsCode(t.params), supers)
        == Run(ArgumentsCode(t.params), f', supers);
  }

  /** Whether the receiver, cast to the owner, may be passed where the
      declaring class is expected. */
  predicate ReceiverOk(t: Target, supers: Hierarchy) {
    t.isStatic || Assignable(Value(OwnerType(t)), ClassType(InternalName(t.declaring)), supers)
  }

  predicate WellFormedTarget(t: Target) {
    WellFormedTypes(t.params) && WellFormedRet(t.ret)
  }

  /** What the call leaves: the target's result, or nothing for void. */
  lemma CallRun(t: Target, self: string, supers: Hierarchy)
    requires WellFormedTarget(t)
    ensures var f := Frame(StubLocals(self), ReceiverStack(t) + ArgStack(t.params));
      Step(InvokeMethod(TargetRef(t)), f, supers)
        == if ReceiverOk(t, supers) then Success(Running(Frame(StubLocals(self), ResultSlot(t.ret))))
           else Failure(ReceiverMismatch)
  {
    var f := Frame(StubLocals(self), ReceiverStack(t) + ArgStack(t.params));
    var m := TargetRef(t);
    ParseMethodDescriptor(t.params, t.ret);
    InvokeMethodStep(m, f, t.params, t.ret, supers);
    var s := f.stack;
    var n := |t.params| + |ReceiverStack(t)|;
    assert |s| == n;
    assert s[|s| - |t.params|..] == ArgStack(t.params);
    assert ArgsMatch(s[|s| - |t.params|..], t.params, supers);
    assert s[..|s| - n] == [];
    assert [] + ResultSlot(t.ret) == ResultSlot(t.ret);
    if !t.isStatic {
      assert s[|s| - n] == Value(OwnerType(t));
    }
  }

  /** The call and, for a void target, the null that replaces its missing result. */
  function CallBody(t: Target): seq<Instr> {
    [InvokeMethod(TargetRef(t))] + (if t.ret == Void then [AConstNull] else [])
  }

  /** The stack the return instruction sees: null for a void target, the
      result otherwise. */
  function ReturnStack(r: RetType): seq<VType> {
    if r == Void then [NullRef] else ResultSlot(r)
  }

  /** After the call and the null for void, exactly one value is on the stack. */
  lemma CallBodyRun(t: Target, self: string, supers: Hierarchy)
    requires WellFormedTarget(t) && ReceiverOk(t, supers)
    ensures Run(CallBody(t), Frame(StubLocals(self), ReceiverStack(t) + ArgStack(t.params)), supers)
      == Success(Running(Frame(StubLocals(self), ReturnStack(t.ret))))
    ensures |ReturnStack(t.ret)| == 1
  {
    CallRun(t, self, supers);
    var fc := Frame(StubLocals(self), ReceiverStack(t) + ArgStack(t.params));
    var fr := Frame(StubLocals(self), ResultSlot(t.ret));
    var mid := CallBody(t);
    RunFrom(mid, 0, fc, supers);
    assert mid[0..] == mid;
    if t.ret == Void {
      assert fr.stack + [NullRef] == [NullRef];
      RunFrom(mid, 1, fr, supers);
      assert mid[2..] == [];
    } else {
      assert mid[1..] == [];
    }
  }

  /** The reference return of a one-value stack. */
  lemma ReturnRun(f: Frame, supers: Hierarchy)
    requires |f.stack| == 1
    ensures Run([ReturnValue], f, supers)
      == if IsRef(f.stack[0]) then Success(Returned(f.stack[0])) else Failure(ReturnNotReference)
  {
    assert [ReturnValue][1..] == [];
  }

  /** What the stub is expected to do, stated from the target alone: fault on
      the receiver when the owner cannot stand for the declaring class; otherwise
      return null for a void target, the result for a reference-returning one,
      and fault at the reference return for a primitive result. */
  function Verdict(t: Target, supers: Hierarchy): Result<Outcome, Fault> {
    if !ReceiverOk(t, supers) then Failure(ReceiverMismatch)
    else
      match t.ret
      case Void => Success(Returned(NullRef))
      case Returns(x) => if x.IsReference() then Success(Returned(Value(x))) else Failure(ReturnNotReference)
  }

  /** The call and what follows it, from the stack PrefixRun leaves. */
  lemma CallCodeRun(t: Target, self: string, supers: Hierarchy)
    requires WellFormedTarget(t)
    ensures Run(CallCode(t), Frame(StubLocals(self), ReceiverStack(t) + ArgStack(t.params)), supers)
      == Verdict(t, supers)
  {
    var fc := Frame(StubLocals(self), ReceiverStack(t) + ArgStack(t.params));
    var code := CallCode(t);
    if ReceiverOk(t, supers) {
      assert code == CallBody(t) + [ReturnValue];
      RunAppend(CallBody(t), [ReturnValue], fc, supers);
      CallBodyRun(t, self, supers);
      ReturnRun(Frame(StubLocals(self), ReturnStack(t.ret)), supers);
    } else {
      CallRun(t, self, supers);
      RunFrom(code, 0, fc, supers);
      assert code[0..] == code;
    }
  }

  /** The stub's full behaviour on the interpreter, for every well-formed
      target, is the Verdict. No boxing follows the call, so a primitive result
      reaches the reference return and the stub is rejected there. */
  lemma StubRun(t: Target, self: string, supers: Hierarchy)
    requires WellFormedTarget(t)
    ensures Run(Emit(t), Frame(StubLocals(self), []), supers) == Verdict(t, supers)
  {
    var f := Frame(StubLocals(self), []);
    assert Emit(t) == CallPrefix(t) + CallCode(t);
    RunAppend(CallPrefix(t), CallCode(t), f, supers);
    PrefixRun(t, self, supers);
    CallCodeRun(t, self, supers);
  }

  /** The stub passes the interpreter exactly when the receiver fits and the
      target is void or returns a reference. */
  lemma StubAccepted(t: Target, self: string, supers: Hierarchy)
    requires WellFormedTarget(t)
    ensures Run(Emit(t), Frame(StubLocals(self), []), supers).Success?
      <==> ReceiverOk(t, supers) && (t.ret.Void? || t.ret.t.IsReference())
    ensures Run(Emit(t), Frame(StubLocals(self), []), supers).Success? ==>
      Run(Emit(t), Frame(StubLocals(self), []), supers).value.Returned?
  {
    StubRun(t, self, supers);
  }

  /** Just before the return the stack holds exactly one value: null for a
      void target, the result otherwise. */
  lemma BeforeReturn(t: Target, self: string, supers: Hierarchy)
    requires WellFormedTarget(t) && ReceiverOk(t, supers)
    ensures Emit(t) == CallPrefix(t) + CallBody(t) + [ReturnValue]
    ensures Run(CallPrefix(t) + CallBody(t), Frame(StubLocals(self), []), supers)
      == Success(Running(Frame(StubLocals(self), ReturnStack(t.ret))))
  {
    var f := Frame(StubLocals(self), []);
    RunAppend(CallPrefix(t), CallBody(t), f, supers);
    PrefixRun(t, self, supers);
    CallBodyRun(t, self, supers);
  }
}
