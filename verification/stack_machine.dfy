/**
 An abstract interpreter over verification types, in the manner of the type
 checker of section 4.10.1 of The Java Virtual Machine Specification (Java SE 8),
 for the instructions the stub emitter produces. Each instruction's effect on
 the operand stack follows its entry in section 6.5. A value on the stack is
 known only by its type; the class hierarchy is an input (`supers`, the pairs
 (subclass, superclass) of internal names known to the loader).
 */
module StackMachine {
  import opened Wrappers
  import opened JvmTypes
  import opened Descriptors
  import opened Emitter

  /** A verification type: a value of a field type, the null reference, or the
      unusable second slot of a `long` or `double` local. */
  datatype VType = Value(t: JType) | NullRef | Top

  datatype Frame = Frame(locals: seq<VType>, stack: seq<VType>)

  datatype Fault =
    | StackUnderflow
    | BadLocal(slot: nat)
    | NotAnArrayOfReferences
    | NotAReference
    | CastToPrimitive
    | BadDescriptor(desc: string)
    | ArgumentMismatch
    | ReceiverMismatch
    | ReturnNotReference

  /** After an instruction the method either continues or has returned a value. */
  datatype Outcome = Running(frame: Frame) | Returned(value: VType)

  type Hierarchy = set<(string, string)>

  predicate IsRef(v: VType) {
    v.NullRef? || (v.Value? && v.t.IsReference())
  }

  /** Whether a value of verification type `v` may be passed where `t` is
      expected: same type, any reference for `java/lang/Object`, null for any
      reference type, or a class declared a subclass of the expected class. */
  predicate Assignable(v: VType, t: JType, supers: Hierarchy) {
    match v
    case Top => false
    case NullRef => t.IsReference()
    case Value(u) =>
      || u == t
      || (t == ObjectType && u.IsReference())
      || (u.ClassType? && t.ClassType? && (u.internalName, t.internalName) in supers)
  }

  predicate ArgsMatch(args: seq<VType>, ps: seq<JType>, supers: Hierarchy) {
    |args| == |ps| && forall i :: 0 <= i < |ps| ==> Assignable(args[i], ps[i], supers)
  }

  /** What a call leaves on the stack: nothing for void, else one result. */
  function ResultSlot(r: RetType): seq<VType> {
    match r
    case Void => []
    case Returns(t) => [Value(t)]
  }

  function Push(f: Frame, v: VType): Frame {
    f.(stack := f.stack + [v])
  }

  /** Replaces the top of a non-empty stack. */
  function ReplaceTop(f: Frame, v: VType): Frame
    requires |f.stack| > 0
  {
    f.(stack := f.stack[..|f.stack| - 1] + [v])
  }

  /** A call of a method with parameter types `ps` and result `r`: pops the
      arguments (and the receiver, which must be assignable to `receiver`, when
      there is one) and pushes the result. */
  function Call(f: Frame, receiver: Option<JType>, ps: seq<JType>, r: RetType, supers: Hierarchy): Result<Outcome, Fault> {
    var n := |ps| + (if receiver.Some? then 1 else 0);
    if |f.stack| < n then Failure(StackUnderflow)
    else if !ArgsMatch(f.stack[|f.stack| - |ps|..], ps, supers) then Failure(ArgumentMismatch)
    else if receiver.Some? && !Assignable(f.stack[|f.stack| - n], receiver.value, supers) then Failure(ReceiverMismatch)
    else Success(Running(f.(stack := f.stack[..|f.stack| - n] + ResultSlot(r))))
  }

  /** A call site: its descriptor says what the call consumes and produces. */
  function Invoke(f: Frame, receiver: Option<JType>, desc: string, supers: Hierarchy): Result<Outcome, Fault> {
    match ParseMethod(desc)
    case None => Failure(BadDescriptor(desc))
    case Some((ps, r)) => Call(f, receiver, ps, r, supers)
  }

  /** One instruction. */
  function Step(ins: Instr, f: Frame, supers: Hierarchy): Result<Outcome, Fault> {
    match ins
    case ALoad(k) =>
      if k < |f.locals| && IsRef(f.locals[k]) then Success(Running(Push(f, f.locals[k])))
      else Failure(BadLocal(k))
    case ArrayElement(_) =>
      if |f.stack| == 0 then Failure(StackUnderflow)
      else
        var top := f.stack[|f.stack| - 1];
        if top.NullRef? then Success(Running(ReplaceTop(f, NullRef)))
        else if top.Value? && top.t.ArrayType? && top.t.component.IsReference() then
          Success(Running(ReplaceTop(f, Value(top.t.component))))
        else Failure(NotAnArrayOfReferences)
    case CheckCast(t) =>
      if !t.IsReference() then Failure(CastToPrimitive)
      else if |f.stack| == 0 then Failure(StackUnderflow)
      else if !IsRef(f.stack[|f.stack| - 1]) then Failure(NotAReference)
      else Success(Running(ReplaceTop(f, Value(t))))
    case InvokeVirtual(owner, _, desc) =>
      Invoke(f, Some(ClassType(owner)), desc, supers)
    case InvokeMethod(m) =>
      Invoke(f, if m.isStatic then None else Some(ClassType(m.owner)), m.desc, supers)
    case AConstNull =>
      Success(Running(Push(f, NullRef)))
    case ReturnValue =>
      // the stub's own result type is java/lang/Object, so this is areturn
      if |f.stack| == 0 then Failure(StackUnderflow)
      else if Assignable(f.stack[|f.stack| - 1], ObjectType, supers) then Success(Returned(f.stack[|f.stack| - 1]))
      else Failure(ReturnNotReference)
  }

  /** A call site whose descriptor parses is the call of that signature. */
  lemma InvokeMethodStep(m: MethodRef, f: Frame, ps: seq<JType>, r: RetType, supers: Hierarchy)
    requires ParseMethod(m.desc) == Some((ps, r))
    ensures Step(InvokeMethod(m), f, supers)
      == Call(f, if m.isStatic then None else Some(ClassType(m.owner)), ps, r, supers)
  {
  }

  /** Straight-line execution: stops at the first fault or return. */
  function Run(code: seq<Instr>, f: Frame, supers: Hierarchy): Result<Outcome, Fault>
    decreases |code|
  {
    if |code| == 0 then Success(Running(f))
    else
      match Step(code[0], f, supers)
      case Failure(e) => Failure(e)
      case Success(Returned(v)) => Success(Returned(v))
      case Success(Running(f')) => Run(code[1..], f', supers)
  }

  /** Continues a run with more code, if the first part is still running. */
  function Then(r: Result<Outcome, Fault>, code: seq<Instr>, supers: Hierarchy): Result<Outcome, Fault> {
    match r
    case Success(Running(f)) => Run(code, f, supers)
    case _ => r
  }

  /** Running a concatenation is running the first part, then the second. */
  lemma {:induction false} RunAppend(a: seq<Instr>, b: seq<Instr>, f: Frame, supers: Hierarchy)
    ensures Run(a + b, f, supers) == Then(Run(a, f, supers), b, supers)
    decreases |a|
  {
    if |a| == 0 {
      assert a + b == b;
    } else {
      assert (a + b)[0] == a[0];
      assert (a + b)[1..] == a[1..] + b;
      match Step(a[0], f, supers)
      case Failure(_) =>
      case Success(Returned(_)) =>
      case Success(Running(f')) =>
        RunAppend(a[1..], b, f', supers);
    }
  }

  /** Running an instruction followed by more code. */
  lemma RunCons(ins: Instr, rest: seq<Instr>, f: Frame, supers: Hierarchy)
    ensures Run([ins] + rest, f, supers) == Then(Step(ins, f, supers), rest, supers)
  {
    assert ([ins] + rest)[0] == ins && ([ins] + rest)[1..] == rest;
  }

  /** Running from position k on, one step at a time. */
  lemma RunFrom(code: seq<Instr>, k: nat, f: Frame, supers: Hierarchy)
    requires k < |code|
    ensures Run(code[k..], f, supers) == Then(Step(code[k], f, supers), code[k + 1..], supers)
  {
    assert code[k..][0] == code[k];
    assert code[k..][1..] == code[k + 1..];
  }

  /** The local slots a parameter occupies: two for `long` and `double`
      (section 2.6.1), one for every other type. */
  function Slots(p: JType): seq<VType> {
    if p == PrimType(Long) || p == PrimType(Double) then [Value(p), Top] else [Value(p)]
  }

  function ParamSlots(ps: seq<JType>): seq<VType> {
    if |ps| == 0 then [] else Slots(ps[0]) + ParamSlots(ps[1..])
  }

  /** The frame on entry to an instance method of class `self` with the given
      descriptor: `this` in local 0, then the parameters; empty stack. */
  function EntryFrame(self: JType, desc: string): (r: Option<Frame>)
    ensures r.Some? ==> |r.value.locals| > 0 && r.value.locals[0] == Value(self) && r.value.stack == []
  {
    match ParseMethod(desc)
    case None => None
    case Some((ps, _)) => Some(Frame([Value(self)] + ParamSlots(ps), []))
  }
}
