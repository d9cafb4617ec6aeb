/**
 The invoker generator: the state it keeps (its target and the remembered
 class name), the class file it writes for a target, and the decision it makes
 when asked to define that class: refuse a missing class loader, pick the
 define overload by whether a protection domain is known, and let unchecked
 throwables through while wrapping checked exceptions.
 */
module Generator {
  import opened Wrappers
  import opened JvmTypes
  import opened Descriptors
  import opened Decimal
  import opened Naming
  import opened Emitter
  import opened StackMachine
  import opened StackDiscipline
  import opened StubWriter

  /** A reflected method: its declaring class (binary name), name, signature
      and whether it is static. */
  datatype Method = Method(declaring: string, name: string, params: seq<JType>, ret: RetType, isStatic: bool)

  /** A generator: the target it was built for and its remembered class name. */
  datatype Generator = Generator(target: Target, cache: NameCache)

  /** The generator for a method alone: the receiver is cast to the class that
      declares the method. */
  function ForMethod(m: Method): (g: Generator)
    ensures g.target.owner == g.target.declaring == m.declaring
    ensures g.target.name == m.name && g.target.params == m.params && g.target.ret == m.ret
    ensures g.target.isStatic == m.isStatic && g.cache == Unnamed
  {
    Generator(Target(m.declaring, m.declaring, m.name, m.params, m.ret, m.isStatic), Unnamed)
  }

  /** The generator for a method and an explicitly given class: the receiver is
      cast to that class, the call still goes to the declaring class. */
  function ForMethodOf(m: Method, targetClass: string): (g: Generator)
    ensures g.target.owner == targetClass && g.target.declaring == m.declaring
    ensures g.target.name == m.name && g.target.params == m.params && g.target.ret == m.ret
    ensures g.target.isStatic == m.isStatic && g.cache == Unnamed
  {
    Generator(Target(targetClass, m.declaring, m.name, m.params, m.ret, m.isStatic), Unnamed)
  }

  /** The two constructors agree when the given class is the declaring one. */
  lemma ForMethodIsForMethodOf(m: Method)
    ensures ForMethod(m) == ForMethodOf(m, m.declaring)
  {
  }

  /** One request for the generator's class name, reading the clock at `clock`
      if the name is not fixed yet. */
  function ClassNameOf(g: Generator, clock: Int64): (r: (string, Generator))
    ensures r.1 == g.(cache := Named(r.0))
    ensures g.cache.Named? ==> r.0 == g.cache.name
    ensures g.cache.Unnamed? ==> r.0 == ClassName(g.target.owner, clock, g.target.name)
  {
    var (n, cache) := CachedName(g.cache, g.target.owner, g.target.name, clock);
    (n, g.(cache := cache))
  }

  // ---------------------------------------------------------------------
  // The generated class

  type Flags = bv16

  const AccPublic: Flags := 0x0001
  const AccFinal: Flags := 0x0010

  /** A method as declared in the class file: flags, name and descriptor. */
  datatype MethodHeader = MethodHeader(access: Flags, name: string, desc: string)

  /** The class the generator writes: its header, the methods it declares and
      the body of `invoke`. */
  datatype ClassFile = ClassFile(
    access: Flags,
    name: string,
    superName: string,
    interfaces: seq<string>,
    methods: seq<MethodHeader>,
    invokeCode: seq<Instr>)

  const MethodInvokerName: string := "cn/taketoday/invoker/MethodInvoker"
  const InvokerName: string := "cn/taketoday/invoker/Invoker"

  /** The public no-argument constructor that only calls the superclass's. */
  const NullConstructor: MethodHeader := MethodHeader(AccPublic, "<init>", "()V")

  /** The generated `public final Object invoke(Object obj, Object[] args)`. */
  const InvokeHeader: MethodHeader := MethodHeader(AccPublic | AccFinal, "invoke", InvokeDescriptor)

  /** The class written for a generator, and the generator after: the name
      is requested (and fixed if needed) first, then the class is declared a
      public final subclass of MethodInvoker implementing Invoker, with the
      no-argument constructor and the `invoke` method whose body the emitter
      produces. */
  function ClassFor(g: Generator, clock: Int64): (r: (ClassFile, Generator))
    ensures r.1 == ClassNameOf(g, clock).1
    ensures r.0.name == InternalName(r.1.cache.name)
    ensures r.0.invokeCode == Emit(g.target)
  {
    var (name, g') := ClassNameOf(g, clock);
    (ClassFile(AccPublic | AccFinal, InternalName(name), MethodInvokerName, [InvokerName],
               [NullConstructor, InvokeHeader], Emit(g.target)), g')
  }

  /** The class writer as the generator runs it, call by call: it requests
      the class name (fixing it if needed), declares a public final subclass
      of MethodInvoker implementing Invoker under that name in internal form,
      adds the no-argument constructor and `invoke`, and emits a body that,
      run from the entry frame of `invoke`, yields the Verdict for the target. */
  method WriteClass(g: Generator, clock: Int64) returns (cf: ClassFile, g': Generator)
    ensures g'.cache.Named? && g' == g.(cache := g'.cache)
    ensures g.cache.Named? ==> g'.cache == g.cache
    ensures g.cache.Unnamed? ==> g'.cache.name == ClassName(g.target.owner, clock, g.target.name)
    ensures cf.access == 0x0011 && cf.superName == MethodInvokerName && cf.interfaces == [InvokerName]
    ensures cf.methods == [NullConstructor, InvokeHeader]
    ensures cf.name == InternalName(g'.cache.name)
    ensures WellFormedTarget(g.target) ==> forall self: string, supers: Hierarchy ::
      Run(cf.invokeCode, Frame(StubLocals(self), []), supers) == Verdict(g.target, supers)
    ensures (cf, g') == ClassFor(g, clock)
  {
    var named := ClassNameOf(g, clock);
    g' := named.1;
    var code := EmitInvokeBody(g.target);
    cf := ClassFile(AccPublic | AccFinal, InternalName(named.0), MethodInvokerName, [InvokerName],
                    [NullConstructor, InvokeHeader], code);
  }

  // ---------------------------------------------------------------------
  // Defining the class

  /** How a throwable relates to the two catch clauses: an unchecked exception
      (a RuntimeException), an Error, or a checked exception. */
  datatype ThrowableKind = Unchecked | IsError | Checked

  datatype Throwable = Throwable(className: string, kind: ThrowableKind, message: string)

  /** What escapes the generator: a throwable rethrown as it is, or a checked
      exception wrapped in a CodeGenerationException (itself unchecked). */
  datatype Escape = Rethrown(t: Throwable) | Wrapped(cause: Throwable)

  /** The define call the generator makes: the class name, the class, the
      loader, and the protection domain when there is one. */
  datatype DefineCall =
    | DefineWithLoader(name: string, cls: ClassFile, loader: nat)
    | DefineWithDomain(name: string, cls: ClassFile, loader: nat, domain: nat)

  /** What the generator cannot see, fixed in advance: the target class's
      loader and protection domain, the clock reading of each class-name
      request, and what the class-writing strategy and the define call throw,
      if anything. */
  datatype World = World(
    loader: Option<nat>,
    domain: Option<nat>,
    clocks: (Int64, Int64),
    writeFault: Option<Throwable>,
    defineFault: Option<Throwable>)

  const IllegalState: string := "java.lang.IllegalStateException"

  function NullLoaderMessage(name: string): string {
    "ClassLoader is null while trying to define class " + name
      + ". It seems that the loader has been expired from a weak reference somehow. "
      + "Please file an issue at cglib's issue tracker."
  }

  /** The catch clauses: unchecked exceptions and errors pass, checked ones
      are wrapped. */
  function Classify(t: Throwable): (e: Escape)
    ensures e.Wrapped? <==> t.kind == Checked
    ensures e.Rethrown? ==> e.t == t
    ensures e.Wrapped? ==> e.cause == t
  {
    if t.kind == Checked then Wrapped(t) else Rethrown(t)
  }

  /** The generator asked to define its class: the define call it makes, or
      what escapes, and the generator afterwards. A class is defined exactly
      when there is a loader and neither the writer nor the define call throws;
      the two-argument overload is used exactly when there is no protection
      domain; the name passed is the one the class was written under, although
      the clock is read again in between; and nothing checked escapes. */
  function DefineClass(g: Generator, w: World): (r: (Result<DefineCall, Escape>, Generator))
    ensures r.1 == ClassNameOf(g, w.clocks.0).1
    ensures r.0.Success? <==> w.loader.Some? && w.writeFault.None? && w.defineFault.None?
    ensures r.0.Success? ==>
      && (r.0.value.DefineWithLoader? <==> w.domain.None?)
      && r.0.value.loader == w.loader.value
      && (r.0.value.DefineWithDomain? ==> r.0.value.domain == w.domain.value)
    ensures r.0.Success? ==>
      && r.1.cache == Named(r.0.value.name)
      && r.0.value.cls.name == InternalName(r.0.value.name)
      && r.0.value.cls.invokeCode == Emit(g.target)
    ensures r.0.Failure? && r.0.error.Rethrown? ==> r.0.error.t.kind != Checked
    ensures r.0.Failure? && r.0.error.Wrapped? ==> r.0.error.cause.kind == Checked
  {
    match w.loader
    case None =>
      var (name, g1) := ClassNameOf(g, w.clocks.0);
      (Failure(Rethrown(Throwable(IllegalState, Unchecked, NullLoaderMessage(name)))), g1)
    case Some(loader) =>
      var (cls, g1) := ClassFor(g, w.clocks.0);
      if w.writeFault.Some? then (Failure(Classify(w.writeFault.value)), g1)
      else
        var (name, g2) := ClassNameOf(g1, w.clocks.1);
        assert g2 == g1;
        if w.defineFault.Some? then (Failure(Classify(w.defineFault.value)), g2)
        else if w.domain.None? then (Success(DefineWithLoader(name, cls, loader)), g2)
        else (Success(DefineWithDomain(name, cls, loader, w.domain.value)), g2)
  }

  // ---------------------------------------------------------------------
  // Properties of the define decision

  /** A missing loader is refused with an IllegalStateException whose message
      names the class, before any class is written; building the message
      requests, and so fixes, the name. */
  lemma NullLoaderRefused(g: Generator, w: World)
    requires w.loader.None?
    ensures DefineClass(g, w).0
      == Failure(Rethrown(Throwable(IllegalState, Unchecked, NullLoaderMessage(DefineClass(g, w).1.cache.name))))
  {
  }

  /** With no loader, nothing but the first clock reading matters: not the
      domain, the second reading, or the faults the writer or the define call
      would have raised. */
  lemma NullLoaderIgnoresRest(g: Generator, w1: World, w2: World)
    requires w1.loader.None? && w2.loader.None? && w1.clocks.0 == w2.clocks.0
    ensures DefineClass(g, w1) == DefineClass(g, w2)
  {
  }

  /** The fault reported is the first that happened: the writer's, else the
      define call's, each passed through the catch clauses. */
  lemma FirstFaultReported(g: Generator, w: World)
    requires w.loader.Some?
    ensures w.writeFault.Some? ==> DefineClass(g, w).0 == Failure(Classify(w.writeFault.value))
    ensures w.writeFault.None? && w.defineFault.Some? ==> DefineClass(g, w).0 == Failure(Classify(w.defineFault.value))
  {
  }

  /** A second attempt with the same generator, in any world, keeps the name
      of the first and defines the class under it. */
  lemma SecondAttemptSameName(g: Generator, w1: World, w2: World)
    ensures var g1 := DefineClass(g, w1).1;
      DefineClass(g1, w2).1 == g1
    ensures var g1 := DefineClass(g, w1).1;
      DefineClass(g1, w2).0.Success? ==> DefineClass(g1, w2).0.value.name == g1.cache.name
  {
  }

  /** The name depends on the target class and method name only: two
      overloads of a method get the same name for the same clock reading. */
  lemma NameIgnoresSignature(m1: Method, m2: Method, w1: World, w2: World)
    requires m1.declaring == m2.declaring && m1.name == m2.name && w1.clocks.0 == w2.clocks.0
    ensures DefineClass(ForMethod(m1), w1).1.cache == DefineClass(ForMethod(m2), w2).1.cache
  {
  }

  /** A generator made from the method alone casts the receiver to the
      declaring class itself, so its stub never faults on the receiver: it
      returns exactly when the method is void or returns a reference. */
  lemma ForMethodStub(m: Method, self: string, supers: Hierarchy)
    requires WellFormedTypes(m.params) && WellFormedRet(m.ret)
    ensures var t := ForMethod(m).target;
      Run(Emit(t), Frame(StubLocals(self), []), supers).Success? <==> (m.ret.Void? || m.ret.t.IsReference())
  {
    StubAccepted(ForMethod(m).target, self, supers);
  }
}
