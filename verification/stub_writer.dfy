/**
 The generator's emitting statements, block by block, each with what its
 block does on the abstract interpreter: the receiver block pushes the cast
 receiver, each parameter block pushes one value of its parameter's type, and
 the call block consumes them and returns (or faults) as the Verdict says.
 */
module StubWriter {
  import opened Wrappers
  import opened JvmTypes
  import opened Descriptors
  import opened Naming
  import opened Emitter
  import opened StackMachine
  import opened StackDiscipline

  /** The receiver block: for an instance target, load `obj` and cast it to
      the owner. From any frame whose receiver local holds a reference, it
      pushes the receiver typed as the owner class, and nothing for a static
      target. */
  method EmitReceiver(t: Target) returns (code: seq<Instr>)
    ensures code == ReceiverCode(t)
    ensures forall f: Frame, supers: Hierarchy | |f.locals| > ReceiverSlot && IsRef(f.locals[ReceiverSlot]) ::
      Run(code, f, supers) == Success(Running(f.(stack := f.stack + ReceiverStack(t))))
  {
    code := [];
    if !t.isStatic {
      code := code + [ALoad(1)];
      code := code + [CheckCast(ClassType(InternalName(t.owner)))];
    }
    forall f: Frame, supers: Hierarchy | |f.locals| > ReceiverSlot && IsRef(f.locals[ReceiverSlot]) {
      ReceiverRun(t, f, supers);
    }
  }

  /** The calls for one parameter, with the accessor's name and descriptor
      assembled from strings. From any frame whose `args` local holds an
      `Object[]`, the block pushes exactly one value of the parameter's own
      type: the unwrapped primitive, or the cast reference. */
  method EmitArgument(i: nat, p: JType) returns (code: seq<Instr>)
    ensures code == ArgumentCode(i, p)
    ensures forall f: Frame, supers: Hierarchy | ArgumentsLocal(f) ::
      Run(code, f, supers) == Success(Running(Push(f, Value(p))))
  {
    code := [ALoad(2)];
    code := code + [ArrayElement(i)];
    if p.PrimType? {
      var boxed := BoxedName(p.prim);
      code := code + [CheckCast(ClassType(boxed))];
      var name := PrimName(p.prim) + "Value";
      var descriptor := "()" + [BaseChar(p.prim)];
      UnboxDescriptorText(p.prim);
      code := code + [InvokeVirtual(boxed, name, descriptor)];
    } else {
      code := code + [CheckCast(p)];
    }
    forall f: Frame, supers: Hierarchy | ArgumentsLocal(f) {
      ArgumentRun(i, p, f, supers);
    }
  }

  /** The loop over the parameters. The blocks come in declaration order, and
      together they push one value of each parameter type, first parameter
      deepest, leaving the locals alone. */
  method EmitArguments(ps: seq<JType>) returns (code: seq<Instr>)
    ensures code == ArgumentsCode(ps)
    ensures forall f: Frame, supers: Hierarchy | ArgumentsLocal(f) ::
      Run(code, f, supers) == Success(Running(f.(stack := f.stack + ArgStack(ps))))
  {
    code := [];
    var i := 0;
    while i < |ps|
      invariant 0 <= i <= |ps|
      invariant code == ArgumentsCode(ps[..i])
    {
      var block := EmitArgument(i, ps[i]);
      ArgumentsCodeSnoc(ps, i);
      code := code + block;
      i := i + 1;
    }
    assert ps[..|ps|] == ps;
    forall f: Frame, supers: Hierarchy | ArgumentsLocal(f) {
      ArgumentsRun(ps, f, supers);
    }
  }

  /** The call block: the call, a null for a void target, and the return.
      From the stack the argument code leaves, it yields the Verdict: a
      receiver fault, null for void, the result for a reference, and a fault
      at the reference return for a primitive result. */
  method EmitCall(t: Target) returns (code: seq<Instr>)
    ensures code == CallCode(t)
    ensures WellFormedTarget(t) ==> forall self: string, supers: Hierarchy ::
      Run(code, Frame(StubLocals(self), ReceiverStack(t) + ArgStack(t.params)), supers) == Verdict(t, supers)
  {
    code := [InvokeMethod(TargetRef(t))];
    if t.ret == Void {
      code := code + [AConstNull];
    }
    code := code + [ReturnValue];
    if WellFormedTarget(t) {
      forall self: string, supers: Hierarchy {
        CallCodeRun(t, self, supers);
      }
    }
  }

  /** The body of `invoke` as the generator emits it: the receiver block, the
      argument loop when there are parameters, then the call block. Run from
      the entry frame of `invoke`, it yields the Verdict. */
  method EmitInvokeBody(t: Target) returns (code: seq<Instr>)
    ensures code == Emit(t)
    ensures WellFormedTarget(t) ==> forall self: string, supers: Hierarchy ::
      Run(code, Frame(StubLocals(self), []), supers) == Verdict(t, supers)
  {
    code := EmitReceiver(t);
    if |t.params| != 0 {
      var arguments := EmitArguments(t.params);
      code := code + arguments;
    } else {
      assert ArgumentsCode(t.params) == [];
    }
    var call := EmitCall(t);
    code := code + call;
    if WellFormedTarget(t) {
      forall self: string, supers: Hierarchy {
        StubRun(t, self, supers);
      }
    }
  }
}
