/**
 The static `test(short)` method of the `Bean` class nested in
 `test.invoker.TestHandlerInvoker`, whose invoker is created from its `Method`
 and then called as `invoke(null, new Object[] { (short) 1 })`.
 */
module WorkedExample {
  import opened Wrappers
  import opened JvmTypes
  import opened Descriptors
  import opened Naming
  import opened Emitter
  import opened StackMachine
  import opened StackDiscipline

  /** `test.invoker.TestHandlerInvoker$Bean`, by package segment. */
  const BeanName: string := "test" + "." + "invoker" + "." + "TestHandlerInvoker$Bean"

  lemma BeanInternalName()
    ensures InternalName(BeanName) == "test" + "/" + "invoker" + "/" + "TestHandlerInvoker$Bean"
  {
    InternalNameQualified("test", "invoker", "TestHandlerInvoker$Bean");
  }

  /** `Bean.test(short)`: static, void, one `short` parameter. */
  const StaticShortTest: Target := Target(BeanName, BeanName, "test", [PrimType(Short)], Void, true)

  /** The argument block: `args`, element 0, cast to `Short`, `shortValue()S`. */
  lemma StaticShortArgument()
    ensures ArgumentsCode(StaticShortTest.params) == [
      ALoad(2), ArrayElement(0),
      CheckCast(ClassType("java/lang/Short")),
      InvokeVirtual("java/lang/Short", "shortValue", "()S")]
  {
    var ps := StaticShortTest.params;
    assert ps[..0] == [];
    assert ArgumentsCode(ps) == ArgumentsCode([]) + ArgumentCode(0, PrimType(Short));
    ArgumentCodeShape(0, PrimType(Short));
    assert BoxedName(Short) == "java/lang/Short";
    assert PrimName(Short) + "Value" == "shortValue";
    assert "()" + [BaseChar(Short)] == "()S";
  }

  /** The call block: `test(S)V` on the bean class, null, return. */
  lemma StaticShortCall()
    ensures CallCode(StaticShortTest) == [
      InvokeMethod(MethodRef("test" + "/" + "invoker" + "/" + "TestHandlerInvoker$Bean", "test", "(S)V", true)),
      AConstNull,
      ReturnValue]
  {
    BeanInternalName();
    var t := StaticShortTest;
    assert ParamsDescriptor([PrimType(Short)]) == "S";
    assert MethodDescriptor(t.params, t.ret) == "(S)V";
  }

  /** The stub is exactly: `args`, element 0, cast to `Short`, `shortValue()S`,
      the call `test(S)V`, null, return. */
  lemma StaticShortTestCode()
    ensures Emit(StaticShortTest) == [
      ALoad(2), ArrayElement(0),
      CheckCast(ClassType("java/lang/Short")),
      InvokeVirtual("java/lang/Short", "shortValue", "()S"),
      InvokeMethod(MethodRef("test" + "/" + "invoker" + "/" + "TestHandlerInvoker$Bean", "test", "(S)V", true)),
      AConstNull,
      ReturnValue]
  {
    var t := StaticShortTest;
    assert ReceiverCode(t) == [];
    StaticShortArgument();
    StaticShortCall();
  }

  /** On the interpreter the stub returns null, whatever the hierarchy. */
  lemma StaticShortTestReturnsNull(self: string, supers: Hierarchy)
    ensures Run(Emit(StaticShortTest), Frame(StubLocals(self), []), supers) == Success(Returned(NullRef))
  {
    StubRun(StaticShortTest, self, supers);
  }
}
