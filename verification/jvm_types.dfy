/**
 Types as the Java Virtual Machine sees them: the eight primitive kinds, class
 types named by their internal form, and array types; together with the boxing
 conversion of section 5.1.7 of The Java Language Specification, which the
 dispatch stub reverses to pass primitives through an `Object[]`.
 */
module JvmTypes {
  import opened Wrappers

  /** The primitive kinds (section 2.3 of The Java Virtual Machine Specification). */
  datatype Prim = Boolean | Char | Byte | Short | Int | Long | Float | Double

  /** A field type: a primitive, a class or interface named by its internal
      name (`java/lang/Short`), or an array of some component type. */
  datatype JType =
    | PrimType(prim: Prim)
    | ClassType(internalName: string)
    | ArrayType(component: JType)
  {
    /** Class and array types are reference types; primitives are not. */
    predicate IsReference() {
      !PrimType?
    }
  }

  /** The result of a method: nothing (`void`) or a value of a field type. */
  datatype RetType = Void | Returns(t: JType)

  const ObjectName: string := "java" + "/" + "lang" + "/" + "Object"
  const ObjectType: JType := ClassType(ObjectName)

  /** `Class.getName()` of the primitive class, e.g. `short`. */
  function PrimName(p: Prim): string {
    match p
    case Boolean => "boolean"
    case Char => "char"
    case Byte => "byte"
    case Short => "short"
    case Int => "int"
    case Long => "long"
    case Float => "float"
    case Double => "double"
  }

  /** Internal name of the boxed counterpart of a primitive (section 5.1.7 of
      The Java Language Specification). */
  function BoxedName(p: Prim): string {
    match p
    case Boolean => "java/lang/Boolean"
    case Char => "java/lang/Character"
    case Byte => "java/lang/Byte"
    case Short => "java/lang/Short"
    case Int => "java/lang/Integer"
    case Long => "java/lang/Long"
    case Float => "java/lang/Float"
    case Double => "java/lang/Double"
  }

  /** The boxed counterpart as a class type. */
  function Boxed(p: Prim): (t: JType)
    ensures t.IsReference()
  {
    ClassType(BoxedName(p))
  }

  /** Unboxing as a partial inverse of boxing: the primitive whose wrapper class
      has the given internal name, if there is one. */
  function UnboxedOf(name: string): (r: Option<Prim>)
    ensures forall p :: r == Some(p) <==> BoxedName(p) == name
  {
    match name
    case "java/lang/Boolean" => Some(Boolean)
    case "java/lang/Character" => Some(Char)
    case "java/lang/Byte" => Some(Byte)
    case "java/lang/Short" => Some(Short)
    case "java/lang/Integer" => Some(Int)
    case "java/lang/Long" => Some(Long)
    case "java/lang/Float" => Some(Float)
    case "java/lang/Double" => Some(Double)
    case _ => None
  }

  /** Boxing never maps two primitive kinds to the same wrapper. */
  lemma BoxingInjective(p: Prim, q: Prim)
    ensures Boxed(p) == Boxed(q) ==> p == q
  {
    if Boxed(p) == Boxed(q) {
      assert UnboxedOf(BoxedName(p)) == Some(p);
      assert UnboxedOf(BoxedName(q)) == Some(q);
    }
  }

  /** Name of the wrapper's unwrapping accessor: the primitive's name followed
      by `Value`, as in `shortValue`. */
  function UnboxName(p: Prim): string {
    PrimName(p) + "Value"
  }
}
