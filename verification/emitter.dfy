/**
 The dispatch-stub emitter: translation of a target-method description into
 the instruction sequence of the generated `invoke(Object, Object[])` body.
 Each instruction is the abstract counterpart of one code-emitter call; how
 the emitter library encodes it (which invoke opcode it picks, whether a cast
 to `java/lang/Object` is dropped) is deliberately left open.
 */
module Emitter {
  import opened Wrappers
  import opened JvmTypes
  import opened Descriptors
  import opened Naming

  /** What the generator knows about its target. `owner` is the class handed
      to the generator (the receiver is cast to it); `declaring` is the class
      that declares the method (the call is made against it). Both are binary
      names such as `test.invoker.TestHandlerInvoker$Bean`. */
  datatype Target = Target(
    owner: string,
    declaring: string,
    name: string,
    params: seq<JType>,
    ret: RetType,
    isStatic: bool)

  /** A call site as the emitter library receives it: declaring class in
      internal form, method name, method descriptor and the static flag. */
  datatype MethodRef = MethodRef(owner: string, name: string, desc: string, isStatic: bool)

  datatype Instr =
    | ALoad(slot: nat)                                    // aload of a local
    | ArrayElement(index: nat)                            // push the constant index, then aaload
    | CheckCast(t: JType)                                 // guarded downcast
    | InvokeVirtual(owner: string, name: string, desc: string)
    | InvokeMethod(m: MethodRef)                          // the call to the target
    | AConstNull
    | ReturnValue                                         // return of the stub's Object result

  /** Descriptor of the generated `invoke(Object obj, Object[] args)`, which
      returns `Object`: `(Ljava/lang/Object;[Ljava/lang/Object;)Ljava/lang/Object;`. */
  const InvokeDescriptor: string := MethodDescriptor([ObjectType, ArrayType(ObjectType)], Returns(ObjectType))

  /** Locals of `invoke(Object obj, Object[] args)`: 0 is `this`. */
  const ReceiverSlot: nat := 1
  const ArgumentsSlot: nat := 2

  function OwnerType(t: Target): JType {
    ClassType(InternalName(t.owner))
  }

  function TargetRef(t: Target): MethodRef {
    MethodRef(InternalName(t.declaring), t.name, MethodDescriptor(t.params, t.ret), t.isStatic)
  }

  /** The type the i-th argument is cast to: the wrapper for a primitive,
      the parameter's own type otherwise. */
  function CastType(p: JType): (c: JType)
    ensures c.IsReference()
  {
    if p.PrimType? then Boxed(p.prim) else p
  }

  function ReceiverCode(t: Target): seq<Instr> {
    if t.isStatic then [] else [ALoad(ReceiverSlot), CheckCast(OwnerType(t))]
  }

  /** Call of the wrapper's accessor that yields the primitive value. */
  function Unwrap(p: Prim): Instr {
    InvokeVirtual(BoxedName(p), UnboxName(p), UnboxDescriptor(p))
  }

  /** Code that leaves the i-th argument, converted to parameter type `p`, on the stack. */
  function ArgumentCode(i: nat, p: JType): seq<Instr> {
    [ALoad(ArgumentsSlot), ArrayElement(i), CheckCast(CastType(p))]
      + (if p.PrimType? then [Unwrap(p.prim)] else [])
  }

  /** The argument code of all parameters, in declaration order. */
  function ArgumentsCode(ps: seq<JType>): seq<Instr>
    decreases |ps|
  {
    if |ps| == 0 then [] else ArgumentsCode(ps[..|ps| - 1]) + ArgumentCode(|ps| - 1, ps[|ps| - 1])
  }

  /** The call, a null result for a void target, and the return. */
  function CallCode(t: Target): seq<Instr> {
    [InvokeMethod(TargetRef(t))] + (if t.ret == Void then [AConstNull] else []) + [ReturnValue]
  }

  /** The body of the generated `invoke`. */
  function Emit(t: Target): seq<Instr> {
    ReceiverCode(t) + ArgumentsCode(t.params) + CallCode(t)
  }

  /** Extending the parameter prefix by one appends that parameter's code. */
  lemma ArgumentsCodeSnoc(ps: seq<JType>, i: nat)
    requires i < |ps|
    ensures ArgumentsCode(ps[..i + 1]) == ArgumentsCode(ps[..i]) + ArgumentCode(i, ps[i])
  {
    assert ps[..i + 1][..i] == ps[..i];
  }

  // ---------------------------------------------------------------------
  // Views of an instruction sequence

  /** The items `pick` selects from `code`, in order. */
  function Collect<T>(code: seq<Instr>, pick: Instr -> Option<T>): seq<T>
    decreases |code|
  {
    if |code| == 0 then []
    else
      match pick(code[0])
      case Some(x) => [x] + Collect(code[1..], pick)
      case None => Collect(code[1..], pick)
  }

  lemma {:induction false} CollectAppend<T>(a: seq<Instr>, b: seq<Instr>, pick: Instr -> Option<T>)
    ensures Collect(a + b, pick) == Collect(a, pick) + Collect(b, pick)
    decreases |a|
  {
    if |a| == 0 {
      assert a + b == b;
    } else {
      assert (a + b)[0] == a[0];
      assert (a + b)[1..] == a[1..] + b;
      CollectAppend(a[1..], b, pick);
    }
  }

  function LoadedSlot(ins: Instr): Option<nat> {
    if ins.ALoad? then Some(ins.slot) else None
  }

  function ElementIndex(ins: Instr): Option<nat> {
    if ins.ArrayElement? then Some(ins.index) else None
  }

  function CastTarget(ins: Instr): Option<JType> {
    if ins.CheckCast? then Some(ins.t) else None
  }

  function CallSite(ins: Instr): Option<MethodRef> {
    if ins.InvokeMethod? then Some(ins.m) else None
  }

  lemma CollectSingle<T>(x: Instr, pick: Instr -> Option<T>)
    ensures Collect([x], pick) == if pick(x).Some? then [pick(x).value] else []
  {
    assert [x][1..] == [];
  }

  /** Collecting from a sequence of three instructions and a tail. */
  lemma CollectThree<T>(x: Instr, y: Instr, z: Instr, tail: seq<Instr>, pick: Instr -> Option<T>)
    ensures Collect([x, y, z] + tail, pick)
      == Collect([x], pick) + Collect([y], pick) + Collect([z], pick) + Collect(tail, pick)
  {
    assert [x, y, z] + tail == [x] + ([y] + ([z] + tail));
    CollectAppend([x], [y] + ([z] + tail), pick);
    CollectAppend([y], [z] + tail, pick);
    CollectAppend([z], tail, pick);
  }

  /** A view of one parameter's code, instruction by instruction. */
  lemma ArgumentCodeSplit<T>(i: nat, p: JType, pick: Instr -> Option<T>)
    ensures Collect(ArgumentCode(i, p), pick)
      == Collect([ALoad(ArgumentsSlot)], pick) + Collect([ArrayElement(i)], pick)
         + Collect([CheckCast(CastType(p))], pick)
         + Collect(if p.PrimType? then [Unwrap(p.prim)] else [], pick)
  {
    var tail: seq<Instr> := if p.PrimType? then [Unwrap(p.prim)] else [];
    assert ArgumentCode(i, p) == [ALoad(ArgumentsSlot), ArrayElement(i), CheckCast(CastType(p))] + tail;
    CollectThree(ALoad(ArgumentsSlot), ArrayElement(i), CheckCast(CastType(p)), tail, pick);
  }

  /** The instructions of one parameter's code, each seen through `pick`. */
  lemma ArgumentCodeSingles<T>(i: nat, p: JType, pick: Instr -> Option<T>)
    ensures Collect(ArgumentCode(i, p), pick)
      == (if pick(ALoad(ArgumentsSlot)).Some? then [pick(ALoad(ArgumentsSlot)).value] else [])
         + (if pick(ArrayElement(i)).Some? then [pick(ArrayElement(i)).value] else [])
         + (if pick(CheckCast(CastType(p))).Some? then [pick(CheckCast(CastType(p))).value] else [])
         + (if p.PrimType? && pick(Unwrap(p.prim)).Some? then [pick(Unwrap(p.prim)).value] else [])
  {
    ArgumentCodeSplit(i, p, pick);
    CollectSingle(ALoad(ArgumentsSlot), pick);
    CollectSingle(ArrayElement(i), pick);
    CollectSingle(CheckCast(CastType(p)), pick);
    if p.PrimType? {
      CollectSingle(Unwrap(p.prim), pick);
    }
  }

  /** One parameter's code reads `args`, loads element i and casts it once. */
  lemma ArgumentCodeViews(i: nat, p: JType)
    ensures Collect(ArgumentCode(i, p), ElementIndex) == [i]
    ensures Collect(ArgumentCode(i, p), LoadedSlot) == [ArgumentsSlot]
    ensures Collect(ArgumentCode(i, p), CastTarget) == [CastType(p)]
    ensures Collect(ArgumentCode(i, p), CallSite) == []
  {
    ArgumentCodeSingles(i, p, ElementIndex);
    ArgumentCodeSingles(i, p, LoadedSlot);
    ArgumentCodeSingles(i, p, CastTarget);
    ArgumentCodeSingles(i, p, CallSite);
  }

  /** The view of the argument code of a longer list: the shorter list's
      view, then the last parameter's. */
  lemma ArgumentsCodeSplit<T>(ps: seq<JType>, pick: Instr -> Option<T>)
    requires |ps| > 0
    ensures Collect(ArgumentsCode(ps), pick)
      == Collect(ArgumentsCode(ps[..|ps| - 1]), pick) + Collect(ArgumentCode(|ps| - 1, ps[|ps| - 1]), pick)
  {
    CollectAppend(ArgumentsCode(ps[..|ps| - 1]), ArgumentCode(|ps| - 1, ps[|ps| - 1]), pick);
  }

  lemma IndicesSnoc(n: nat)
    ensures seq(n, i => i) + [n] == seq(n + 1, i => i)
  {
  }

  lemma SlotsSnoc(n: nat)
    ensures seq(n, i => ArgumentsSlot) + [ArgumentsSlot] == seq(n + 1, i => ArgumentsSlot)
  {
  }

  lemma CastsSnoc(ps: seq<JType>)
    requires |ps| > 0
    ensures seq(|ps| - 1, i requires 0 <= i < |ps| - 1 => CastType(ps[..|ps| - 1][i])) + [CastType(ps[|ps| - 1])]
      == seq(|ps|, i requires 0 <= i < |ps| => CastType(ps[i]))
  {
  }

  /** The argument array is read once per parameter, element 0 first; every
      element is cast once, to its parameter's cast type; and the target is
      not called here (the accessor calls are counted by ArgumentsCodeCalls). */
  lemma {:induction false} ArgumentsCodeViews(ps: seq<JType>)
    ensures Collect(ArgumentsCode(ps), ElementIndex) == seq(|ps|, i => i)
    ensures Collect(ArgumentsCode(ps), LoadedSlot) == seq(|ps|, i => ArgumentsSlot)
    ensures Collect(ArgumentsCode(ps), CastTarget) == seq(|ps|, i requires 0 <= i < |ps| => CastType(ps[i]))
    ensures Collect(ArgumentsCode(ps), CallSite) == []
    decreases |ps|
  {
    if |ps| > 0 {
      var n := |ps| - 1;
      ArgumentsCodeViews(ps[..n]);
      ArgumentCodeViews(n, ps[n]);
      ArgumentsCodeSplit(ps, ElementIndex);
      ArgumentsCodeSplit(ps, LoadedSlot);
      ArgumentsCodeSplit(ps, CastTarget);
      ArgumentsCodeSplit(ps, CallSite);
      IndicesSnoc(n);
      SlotsSnoc(n);
      CastsSnoc(ps);
    }
  }

  lemma ReceiverCodeViews(t: Target)
    ensures Collect(ReceiverCode(t), LoadedSlot) == if t.isStatic then [] else [ReceiverSlot]
    ensures Collect(ReceiverCode(t), ElementIndex) == []
    ensures Collect(ReceiverCode(t), CastTarget) == if t.isStatic then [] else [OwnerType(t)]
    ensures Collect(ReceiverCode(t), CallSite) == []
  {
    if !t.isStatic {
      var x, y := ALoad(ReceiverSlot), CheckCast(OwnerType(t));
      assert ReceiverCode(t) == [x] + [y];
      CollectAppend([x], [y], LoadedSlot); CollectSingle(x, LoadedSlot); CollectSingle(y, LoadedSlot);
      CollectAppend([x], [y], ElementIndex); CollectSingle(x, ElementIndex); CollectSingle(y, ElementIndex);
      CollectAppend([x], [y], CastTarget); CollectSingle(x, CastTarget); CollectSingle(y, CastTarget);
      CollectAppend([x], [y], CallSite); CollectSingle(x, CallSite); CollectSingle(y, CallSite);
    }
  }

  lemma CallCodeViews(t: Target)
    ensures Collect(CallCode(t), LoadedSlot) == []
    ensures Collect(CallCode(t), ElementIndex) == []
    ensures Collect(CallCode(t), CastTarget) == []
    ensures Collect(CallCode(t), CallSite) == [TargetRef(t)]
  {
    var x, z := InvokeMethod(TargetRef(t)), ReturnValue;
    var y: seq<Instr> := if t.ret == Void then [AConstNull] else [];
    assert CallCode(t) == [x] + (y + [z]);
    CollectAppend([x], y + [z], LoadedSlot); CollectAppend(y, [z], LoadedSlot);
    CollectAppend([x], y + [z], ElementIndex); CollectAppend(y, [z], ElementIndex);
    CollectAppend([x], y + [z], CastTarget); CollectAppend(y, [z], CastTarget);
    CollectAppend([x], y + [z], CallSite); CollectAppend(y, [z], CallSite);
    CollectSingle(x, LoadedSlot); CollectSingle(z, LoadedSlot);
    CollectSingle(x, ElementIndex); CollectSingle(z, ElementIndex);
    CollectSingle(x, CastTarget); CollectSingle(z, CastTarget);
    CollectSingle(x, CallSite); CollectSingle(z, CallSite);
    if t.ret == Void {
      CollectSingle(AConstNull, LoadedSlot); CollectSingle(AConstNull, ElementIndex);
      CollectSingle(AConstNull, CastTarget); CollectSingle(AConstNull, CallSite);
    }
  }

  /** A view of the stub is the views of its three blocks, in order. */
  lemma EmitSplit<T>(t: Target, pick: Instr -> Option<T>)
    ensures Collect(Emit(t), pick)
      == Collect(ReceiverCode(t), pick) + Collect(ArgumentsCode(t.params), pick) + Collect(CallCode(t), pick)
  {
    var r, a, c := ReceiverCode(t), ArgumentsCode(t.params), CallCode(t);
    CollectAppend(r + a, c, pick);
    CollectAppend(r, a, pick);
  }

  /** The reads of the stub: the receiver local exactly when the target is an
      instance method, then one `args` load and one element load per
      parameter, element 0 first. */
  lemma EmitReads(t: Target)
    ensures Collect(Emit(t), LoadedSlot)
      == (if t.isStatic then [] else [ReceiverSlot]) + seq(|t.params|, i => ArgumentsSlot)
    ensures Collect(Emit(t), ElementIndex) == seq(|t.params|, i => i)
  {
    ArgumentsCodeViews(t.params);
    ReceiverCodeViews(t);
    CallCodeViews(t);
    EmitSplit(t, LoadedSlot);
    EmitSplit(t, ElementIndex);
    var n := |t.params|;
    assert seq(n, i => ArgumentsSlot) + [] == seq(n, i => ArgumentsSlot);
    assert seq(n, i => i) + [] == seq(n, i => i);
  }

  /** The casts of the stub: the receiver is cast to the owner exactly when
      the target is an instance method, then each argument once, in
      declaration order. */
  lemma EmitCasts(t: Target)
    ensures Collect(Emit(t), CastTarget)
      == (if t.isStatic then [] else [OwnerType(t)])
         + seq(|t.params|, i requires 0 <= i < |t.params| => CastType(t.params[i]))
  {
    ArgumentsCodeViews(t.params);
    ReceiverCodeViews(t);
    CallCodeViews(t);
    EmitSplit(t, CastTarget);
    var n := |t.params|;
    assert seq(n, i requires 0 <= i < n => CastType(t.params[i])) + []
        == seq(n, i requires 0 <= i < n => CastType(t.params[i]));
  }

  /** The target is called exactly once in the stub, as its declaring class
      declares it. */
  lemma EmitTargetCall(t: Target)
    ensures Collect(Emit(t), CallSite) == [TargetRef(t)]
  {
    ArgumentsCodeViews(t.params);
    ReceiverCodeViews(t);
    CallCodeViews(t);
    EmitSplit(t, CallSite);
  }

  // ---------------------------------------------------------------------
  // Every call the stub makes

  /** Any call instruction, seen as the method it calls; the accessor calls
      are `invokevirtual`, so not static. */
  function Called(ins: Instr): Option<MethodRef> {
    match ins
    case InvokeVirtual(owner, name, desc) => Some(MethodRef(owner, name, desc, false))
    case InvokeMethod(m) => Some(m)
    case _ => None
  }

  /** The accessor that unwraps a primitive of kind `k`, as a method reference. */
  function UnwrapRef(k: Prim): MethodRef {
    MethodRef(BoxedName(k), UnboxName(k), UnboxDescriptor(k), false)
  }

  /** The accessors the parameters need, in declaration order: one for each
      primitive parameter, none for a reference one. */
  function UnwrapCalls(ps: seq<JType>): seq<MethodRef>
    decreases |ps|
  {
    if |ps| == 0 then []
    else UnwrapCalls(ps[..|ps| - 1]) + (if ps[|ps| - 1].PrimType? then [UnwrapRef(ps[|ps| - 1].prim)] else [])
  }

  /** One parameter's code calls the accessor of a primitive, and nothing for a reference. */
  lemma ArgumentCodeCalls(i: nat, p: JType)
    ensures Collect(ArgumentCode(i, p), Called) == if p.PrimType? then [UnwrapRef(p.prim)] else []
  {
    ArgumentCodeSingles(i, p, Called);
  }

  /** The argument code calls exactly the accessors of the primitive
      parameters, in declaration order. */
  lemma {:induction false} ArgumentsCodeCalls(ps: seq<JType>)
    ensures Collect(ArgumentsCode(ps), Called) == UnwrapCalls(ps)
    decreases |ps|
  {
    if |ps| > 0 {
      var n := |ps| - 1;
      ArgumentsCodeCalls(ps[..n]);
      ArgumentCodeCalls(n, ps[n]);
      ArgumentsCodeSplit(ps, Called);
    }
  }

  lemma ReceiverCodeCalls(t: Target)
    ensures Collect(ReceiverCode(t), Called) == []
  {
    if !t.isStatic {
      var x, y := ALoad(ReceiverSlot), CheckCast(OwnerType(t));
      CollectAppend([x], [y], Called); CollectSingle(x, Called); CollectSingle(y, Called);
    }
  }

  lemma CallCodeCalls(t: Target)
    ensures Collect(CallCode(t), Called) == [TargetRef(t)]
  {
    var x, z := InvokeMethod(TargetRef(t)), ReturnValue;
    var y: seq<Instr> := if t.ret == Void then [AConstNull] else [];
    CollectAppend([x], y + [z], Called); CollectAppend(y, [z], Called);
    CollectSingle(x, Called); CollectSingle(z, Called);
    if t.ret == Void {
      CollectSingle(AConstNull, Called);
    }
  }

  /** Every call the stub makes: the accessors of the primitive parameters in
      declaration order, then the target, and nothing else. */
  lemma EmitCalls(t: Target)
    ensures Collect(Emit(t), Called) == UnwrapCalls(t.params) + [TargetRef(t)]
  {
    ReceiverCodeCalls(t);
    ArgumentsCodeCalls(t.params);
    CallCodeCalls(t);
    EmitSplit(t, Called);
  }

  /** The argument code of a prefix of the parameters is a prefix of the
      argument code of all of them. */
  lemma {:induction false} ArgumentsCodePrefix(ps: seq<JType>, k: nat)
    requires k <= |ps|
    ensures ArgumentsCode(ps[..k]) <= ArgumentsCode(ps)
    decreases |ps| - k
  {
    if k < |ps| {
      ArgumentsCodePrefix(ps, k + 1);
      assert ps[..k + 1][..k] == ps[..k];
    } else {
      assert ps[..k] == ps;
    }
  }

  /** The i-th parameter's code: the `args` load and element-i load, then for a
      primitive the cast to its wrapper and the wrapper's `<prim>Value` accessor
      with descriptor `()` followed by the primitive's BaseType character; for a
      reference one cast to the parameter's own type. */
  lemma ArgumentCodeShape(i: nat, p: JType)
    ensures p.PrimType? ==>
      ArgumentCode(i, p)
        == [ALoad(2), ArrayElement(i), CheckCast(ClassType(BoxedName(p.prim))),
            InvokeVirtual(BoxedName(p.prim), PrimName(p.prim) + "Value", "()" + [BaseChar(p.prim)])]
    ensures !p.PrimType? ==> ArgumentCode(i, p) == [ALoad(2), ArrayElement(i), CheckCast(p)]
  {
    if p.PrimType? {
      UnboxDescriptorText(p.prim);
    }
  }

  /** A prefix of the middle part extends the first part to a prefix of the whole. */
  lemma PrefixOfMiddle<T>(r: seq<T>, front: seq<T>, a: seq<T>, c: seq<T>)
    requires front <= a
    ensures r + front <= r + a + c
  {
    assert (r + a + c)[..|r| + |front|] == r + front;
  }

  /** In the stub, the i-th parameter's code comes right after the receiver
      code and the code of the parameters before it. */
  lemma ArgumentBlock(t: Target, i: nat)
    requires i < |t.params|
    ensures ReceiverCode(t) + ArgumentsCode(t.params[..i]) + ArgumentCode(i, t.params[i]) <= Emit(t)
  {
    var ps := t.params;
    ArgumentsCodePrefix(ps, i + 1);
    ArgumentsCodeSnoc(ps, i);
    PrefixOfMiddle(ReceiverCode(t), ArgumentsCode(ps[..i + 1]), ArgumentsCode(ps), CallCode(t));
    assert ReceiverCode(t) + ArgumentsCode(ps[..i]) + ArgumentCode(i, ps[i])
        == ReceiverCode(t) + ArgumentsCode(ps[..i + 1]);
  }

  /** After the call a void target pushes null and returns; any other target
      returns directly, with nothing in between. */
  lemma CallTail(t: Target)
    ensures t.ret == Void ==>
      |Emit(t)| >= 3 && Emit(t)[|Emit(t)| - 3..] == [InvokeMethod(TargetRef(t)), AConstNull, ReturnValue]
    ensures t.ret != Void ==>
      |Emit(t)| >= 2 && Emit(t)[|Emit(t)| - 2..] == [InvokeMethod(TargetRef(t)), ReturnValue]
  {
  }
}
