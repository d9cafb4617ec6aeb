# Method invoker generator, modelled in Dafny

The invoker library turns a reflected `java.lang.reflect.Method` into a small
generated class. That class extends `MethodInvoker`, implements `Invoker`, and
has a single method, `invoke(Object obj, Object[] args)`, which calls the
target directly instead of going through reflection. `MethodInvokerGenerator`
in `MethodInvokerCreator.java` does the work. It keeps its target method, the
class the receiver is cast to, and a class name it remembers once chosen. It
writes the class through a code emitter, and defines the class through the
target class's loader.

The project models four parts of that generator.

- **The emitter.** `Emitter.Emit` is the body of `invoke`, one abstract
  instruction per code-emitter call. It has three parts:
  - for an instance target, load `obj` and cast it to the target class;
  - for each parameter in order, load `args`, load element `i`, and cast it
    (a primitive is cast to its wrapper and then unwrapped with the wrapper's
    `<prim>Value()` accessor);
  - the call, a `null` for a void target, and the return.

  The methods of `StubWriter` follow the generator's statements one by one.
  Each carries its block's effect on the stack as its contract, and together
  they produce exactly `Emit`.
- **Descriptors and types.** Field and method descriptors (section 4.3 of The
  Java Virtual Machine Specification, Java SE 8), with a parser proved to
  invert them. Also the primitive/wrapper correspondence (section 5.1.7 of The
  Java Language Specification), and internal names (section 4.2.1).
- **The stack discipline.** An abstract interpreter over verification types
  (section 4.10.1, with effects as in section 6.5) runs the emitted body from
  the entry frame of `invoke`. Just before the call, the stack holds exactly
  the cast receiver and one value of each parameter type. The stub returns a
  reference exactly when the receiver fits the declaring class and the target
  is void or returns a reference.
- **Naming and defining.**
  - The class name is `<target class>$<nanoTime>$<method name>`. It is fixed
    by the first request and then reused.
  - The define decision:
    - a missing class loader is refused with an `IllegalStateException` that
      names the class;
    - the loader-only `defineClass` overload is used exactly when there is no
      protection domain;
    - unchecked exceptions and errors pass through, while checked exceptions
      are wrapped in `CodeGenerationException`.
  - The class header: public final, with superclass `MethodInvoker`,
    interface `Invoker`, a null constructor and `invoke`.

`WorkedExample` spells the stub out for the test suite's static
`Bean.test(short)`, and shows that it returns `null`.

The emitted `invoke` does not box a primitive result after the call. For such
a target the body is rejected at the reference return (`ReturnNotReference`,
stated by `StackDiscipline.StubRun`).

What the generator cannot see comes in as inputs:
- a clock reading for each class-name request; only a request made while no name is fixed uses it;
- the class hierarchy the interpreter consults;
- the target class's loader and protection domain;
- what the class-writing strategy and the define call throw, if anything.

Together with the clock readings, these last two make up `Generator.World`.

## Model

| member | source | states |
|---|---|---|
| `Generator.ForMethod` | src/main/java/cn/taketoday/invoker/MethodInvokerCreator.java:75-78 | the generator made from a method alone casts the receiver to the method's declaring class and calls that class; the method's name, signature and static flag are kept; no name is chosen yet |
| `Generator.ForMethodOf` | src/main/java/cn/taketoday/invoker/MethodInvokerCreator.java:80-83 | with an explicit target class, the receiver is cast to that class while the call still goes to the declaring class; no name is chosen yet |
| `Generator.ForMethodIsForMethodOf` | src/main/java/cn/taketoday/invoker/MethodInvokerCreator.java:75-83 | the one-argument constructor is the two-argument one given the method's declaring class |
| `Generator.ForMethodStub` | src/main/java/cn/taketoday/invoker/MethodInvokerCreator.java:75-78 | for a generator made from the method alone the receiver always fits, so its stub passes the interpreter exactly when the method is void or returns a reference |
| `Generator.ClassNameOf` | src/main/java/cn/taketoday/invoker/MethodInvokerCreator.java:178-187 | a name request returns the remembered name if there is one, else target class `$` clock `$` method name; afterwards that name is remembered and nothing else in the generator changes |
| `Naming.CachedName` | src/main/java/cn/taketoday/invoker/MethodInvokerCreator.java:179-186 | the lazily filled name field: after any request it holds the name returned, and a field already filled is returned unchanged |
| `Naming.FirstRequestFixesName` | src/main/java/cn/taketoday/invoker/MethodInvokerCreator.java:178-187 | across any sequence of requests, every request returns the name built from the first clock reading |
| `Naming.NamedStaysNamed` | src/main/java/cn/taketoday/invoker/MethodInvokerCreator.java:179 | once the name is set, later clock readings are ignored |
| `Naming.SplitClassNameOf` | src/main/java/cn/taketoday/invoker/MethodInvokerCreator.java:180-184 | when the method name has no `$`, the generated name splits back into target class, clock value and method name |
| `Naming.DistinctClocksDistinctNames` | src/main/java/cn/taketoday/invoker/MethodInvokerCreator.java:180-184 | for the same target class and method name, different clock readings give different class names |
| `Decimal.ParseLongToString` | src/main/java/cn/taketoday/invoker/MethodInvokerCreator.java:182 | the decimal text appended for the `long` clock value (a minus sign for negatives) reads back as that value |
| `Decimal.LongToStringInjective` | src/main/java/cn/taketoday/invoker/MethodInvokerCreator.java:182 | two clock values with the same decimal text are equal |
| `Naming.InternalNameRoundTrip` | src/main/java/cn/taketoday/invoker/MethodInvokerCreator.java:125-126 | turning a binary class name (without `/`) into its internal form replaces dots by slashes and can be undone |
| `Generator.ClassFor` | src/main/java/cn/taketoday/invoker/MethodInvokerCreator.java:121-176 | the class written is named by the generator's (now fixed) name in internal form, and its `invoke` body is the emitted stub; the generator afterwards is the one the name request leaves |
| `Generator.WriteClass` | src/main/java/cn/taketoday/invoker/MethodInvokerCreator.java:121-176 | the class writer fixes the class name (the remembered one, else target class `$` clock `$` method name) and changes nothing else in the generator; the class is public final (0x0011), extends MethodInvoker, implements Invoker, declares the null constructor then `invoke`, is named by the fixed name in internal form, and its `invoke` body, run from its entry frame, yields the Verdict for the target |
| `Generator.Classify` | src/main/java/cn/taketoday/invoker/MethodInvokerCreator.java:112-117 | a throwable is wrapped exactly when it is a checked exception; runtime exceptions and errors are rethrown unchanged |
| `Generator.DefineClass` | src/main/java/cn/taketoday/invoker/MethodInvokerCreator.java:94-118 | a class is defined exactly when there is a loader and neither writing nor defining throws; the loader-only overload is used exactly when there is no protection domain; the defined class carries the name it was written under and the emitted body; no checked exception escapes unwrapped |
| `Generator.NullLoaderRefused` | src/main/java/cn/taketoday/invoker/MethodInvokerCreator.java:98-103 | a missing loader gives an IllegalStateException whose message names the (thereby fixed) class name |
| `Generator.NullLoaderIgnoresRest` | src/main/java/cn/taketoday/invoker/MethodInvokerCreator.java:98-103 | with a missing loader nothing is written or defined: the outcome depends only on the first clock reading |
| `Generator.FirstFaultReported` | src/main/java/cn/taketoday/invoker/MethodInvokerCreator.java:105-117 | the writer's fault is reported if it throws, otherwise the define call's fault, each passed through the catch clauses |
| `Generator.SecondAttemptSameName` | src/main/java/cn/taketoday/invoker/MethodInvokerCreator.java:106-110 | defining again with the same generator, in any world, keeps its name and defines under it |
| `Generator.NameIgnoresSignature` | src/main/java/cn/taketoday/invoker/MethodInvokerCreator.java:180-184 | two overloads of one method get the same class name for the same clock reading |
| `StubWriter.EmitReceiver` | src/main/java/cn/taketoday/invoker/MethodInvokerCreator.java:135-140 | from any frame whose receiver local holds a reference, the receiver block pushes the receiver typed as the target class for an instance target, and nothing for a static one |
| `StubWriter.EmitArgument` | src/main/java/cn/taketoday/invoker/MethodInvokerCreator.java:145-161 | from any frame whose `args` local holds an `Object[]`, one parameter's block, with the accessor name and descriptor assembled from strings, pushes exactly one value of the parameter's own type |
| `StubWriter.EmitArguments` | src/main/java/cn/taketoday/invoker/MethodInvokerCreator.java:142-163 | the parameter loop's code pushes one value of each parameter type in declaration order and leaves the locals alone |
| `StubWriter.EmitCall` | src/main/java/cn/taketoday/invoker/MethodInvokerCreator.java:165-172 | from the stack the argument code leaves, the call block faults on a receiver that does not fit, returns null for a void target and the result for a reference one, and faults at the reference return for a primitive result |
| `StubWriter.EmitInvokeBody` | src/main/java/cn/taketoday/invoker/MethodInvokerCreator.java:133-173 | the body as the generator emits it (the loop skipped for no parameters), run from the entry frame of `invoke`, gives that same verdict |
| `Emitter.ArgumentCodeShape` | src/main/java/cn/taketoday/invoker/MethodInvokerCreator.java:145-161 | a primitive parameter's block is load `args`, element i, cast to the wrapper, call `<prim>Value` with descriptor `()` and the primitive's descriptor character; a reference parameter's is load, element i, one cast to its own type |
| `Emitter.ArgumentsCodeViews` | src/main/java/cn/taketoday/invoker/MethodInvokerCreator.java:142-163 | the argument code loads `args` once per parameter, reads elements 0, 1, … in order, casts each element once to its parameter's cast type, and contains no call of the target |
| `Emitter.EmitReads` | src/main/java/cn/taketoday/invoker/MethodInvokerCreator.java:135-163 | the stub reads the receiver local exactly when the target is an instance method, then `args` once per parameter, with element indices 0 to n-1 in order |
| `Emitter.EmitCasts` | src/main/java/cn/taketoday/invoker/MethodInvokerCreator.java:135-161 | the stub casts the receiver to the target class only for instance targets, then each argument once, in order |
| `Emitter.EmitTargetCall` | src/main/java/cn/taketoday/invoker/MethodInvokerCreator.java:165-166 | the stub calls the target exactly once, as its declaring class declares it |
| `Emitter.ArgumentsCodeCalls` | src/main/java/cn/taketoday/invoker/MethodInvokerCreator.java:150-158 | the argument code calls exactly the `<prim>Value` accessors of the primitive parameters, in declaration order, and nothing for reference parameters |
| `Emitter.EmitCalls` | src/main/java/cn/taketoday/invoker/MethodInvokerCreator.java:142-166 | every call in the stub: the accessors of the primitive parameters in declaration order, then the target, and nothing else |
| `Emitter.ArgumentBlock` | src/main/java/cn/taketoday/invoker/MethodInvokerCreator.java:144-162 | the i-th parameter's block sits in the stub right after the receiver block and the blocks of the parameters before it |
| `Emitter.CallTail` | src/main/java/cn/taketoday/invoker/MethodInvokerCreator.java:165-172 | the stub ends with the target call, then `aconst_null` only for a void target, then the return |
| `JvmTypes.UnboxedOf` | src/main/java/cn/taketoday/invoker/MethodInvokerCreator.java:151 | the wrapper class name identifies its primitive: it is the wrapper of exactly one primitive kind |
| `JvmTypes.BoxingInjective` | src/main/java/cn/taketoday/invoker/MethodInvokerCreator.java:151 | no two primitive kinds share a wrapper |
| `Descriptors.ParseMethodDescriptor` | src/main/java/cn/taketoday/invoker/MethodInvokerCreator.java:165-166 | the descriptor of the target call, built from its parameter and return types, parses back to exactly those types |
| `Descriptors.ParseMethod` | src/main/java/cn/taketoday/invoker/MethodInvokerCreator.java:165-166 | a descriptor that parses is the descriptor of the well-formed types the parser returns |
| `Descriptors.ParseFieldDescriptor` | src/main/java/cn/taketoday/invoker/MethodInvokerCreator.java:149 | the descriptor of a well-formed type parses back to that type, leaving the rest of the text |
| `Descriptors.UnboxDescriptorParses` | src/main/java/cn/taketoday/invoker/MethodInvokerCreator.java:155-157 | the accessor descriptor `()` plus the primitive's descriptor is a no-argument method returning that primitive |
| `StackDiscipline.StubEntryFrame` | src/main/java/cn/taketoday/invoker/MethodInvokerCreator.java:128-133 | the stub's own descriptor gives it locals `this`, an `Object` receiver and an `Object[]` argument array, and an empty stack |
| `StackDiscipline.ReceiverRun` | src/main/java/cn/taketoday/invoker/MethodInvokerCreator.java:135-140 | the receiver block pushes the receiver cast to the target class for an instance target, and nothing for a static one |
| `StackDiscipline.ArgumentRun` | src/main/java/cn/taketoday/invoker/MethodInvokerCreator.java:145-161 | one parameter's block pushes exactly one value of the parameter's own type, unwrapped for a primitive |
| `StackDiscipline.ArgumentsRun` | src/main/java/cn/taketoday/invoker/MethodInvokerCreator.java:142-163 | the parameter loop pushes one value of each parameter type, in declaration order, and changes nothing else |
| `StackDiscipline.PrefixRun` | src/main/java/cn/taketoday/invoker/MethodInvokerCreator.java:135-163 | at the call the stack holds exactly the cast receiver (instance targets only) followed by the parameter types |
| `StackDiscipline.CallRun` | src/main/java/cn/taketoday/invoker/MethodInvokerCreator.java:165-166 | the call consumes receiver and arguments and leaves the result (nothing for void), or faults when the target class cannot stand for the declaring class |
| `StackDiscipline.CallBodyRun` | src/main/java/cn/taketoday/invoker/MethodInvokerCreator.java:165-170 | after the call and the null for void, exactly one value is on the stack |
| `StackDiscipline.BeforeReturn` | src/main/java/cn/taketoday/invoker/MethodInvokerCreator.java:168-172 | just before the return the stack holds exactly `null` for a void target, the result otherwise |
| `StackDiscipline.CallCodeRun` | src/main/java/cn/taketoday/invoker/MethodInvokerCreator.java:165-172 | from the stack at the call, the rest of the stub produces the verdict stated from the target alone |
| `StackDiscipline.StubRun` | src/main/java/cn/taketoday/invoker/MethodInvokerCreator.java:133-173 | the whole stub, run from its entry frame: receiver fault, `null` for void, the result for a reference, a return fault for a primitive result (no boxing follows the call) |
| `StackDiscipline.StubAccepted` | src/main/java/cn/taketoday/invoker/MethodInvokerCreator.java:165-172 | the stub passes exactly when the receiver fits and the target is void or returns a reference, and then it has returned |
| `WorkedExample.StaticShortTestCode` | src/test/java/test/invoker/TestHandlerInvoker.java:42-44 | the stub for static `Bean.test(short)`: load `args`, element 0, cast to `java/lang/Short`, `shortValue()S`, call `test(S)V`, null, return |
| `WorkedExample.StaticShortTestReturnsNull` | src/test/java/test/invoker/TestHandlerInvoker.java:44 | that stub returns `null`, whatever the class hierarchy |

## Left out

- Byte-level class-file writing (`DefaultClassWriter`, the constant pool, frame computation) is not modelled. The class is a structured `Generator.ClassFile`.
- The emitter library's internals are not modelled: `ClassEmitter`, `CodeEmitter`, `EmitUtils` and `ReflectUtils`. The body of the null constructor is not modelled. Nor is the choice among `invokestatic`, `invokevirtual` and `invokeinterface` for the target call. The call is one abstract `InvokeMethod` carrying the static flag.
- The class-file version `JAVA_VERSION` and the `SOURCE_FILE` attribute are not modelled. They carry no behaviour.
- `create()` and `ReflectUtils.newInstance` (lines 89-92) are not modelled. Nor are the static `create` helpers and their `getDeclaredMethod` lookup with its `NoSuchMethodException` (lines 51-61). The model starts from a reflected method.
- `System.nanoTime()` is an input. Each name request is given a clock reading, and only a request made while no name is fixed uses it (lines 179-182).
- Generator.DefineClass: the strategy's `generate` is taken to request the class name before anything in it can throw. A fault raised earlier inside the strategy would leave the name unfixed, and that order is not modelled.
- Generator.DefineClass: `CodeGenerationException` is treated as unchecked. It is a runtime exception in the emitter library, which is not part of this model.
- Concurrency is not modelled. The lazily filled name field is not synchronised in the source.
- StackMachine.Assignable: assignability covers equal types, `java/lang/Object`, `null`, and declared (subclass, superclass) pairs of the given hierarchy. Array covariance, interfaces and the transitive closure of the hierarchy are not modelled.
- StackMachine.Step: a `long` or `double` takes one stack entry, not two (section 2.6.2). Only the locals use two slots (section 2.6.1).
- Descriptors.WellFormedType: the limit of 255 array dimensions (section 4.3.2) is not modelled.
- The optional `checkcast` elision for `java/lang/Object` in the emitter library is not assumed. Every parameter is cast.
- StackDiscipline.StubRun: the model checks only the stub's types. It does not model the values the target computes, or these runtime exceptions:
  - the `ClassCastException` and `NullPointerException` of a failed cast or unwrap;
  - the `ArrayIndexOutOfBoundsException` when `args` is shorter than the parameter list (the element index is not checked);
  - the `NullPointerException` when `aaload` runs on a null `args` (line 146).
- Generator.DefineClass: the define call's outcome is an input, independent of whether the written body verifies. So a `Success` does not mean the class is usable: for a target returning a primitive, the JVM would reject the class at link time, because its body fails at the reference return (`StackDiscipline.StubRun`).
