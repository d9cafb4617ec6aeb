/**
 Field and method descriptors, sections 4.3.2 and 4.3.3 of The Java Virtual
 Machine Specification (Java SE 8): a printer for each grammar and a parser that
 recognises exactly the printed strings. The stub emitter writes descriptors such
 as `()S`; the abstract interpreter reads them back to learn what a call consumes
 and produces.
 */
module Descriptors {
  import opened Wrappers
  import opened JvmTypes

  /** The BaseType character of a primitive (table 4.3-A). */
  function BaseChar(p: Prim): char {
    match p
    case Byte => 'B'
    case Char => 'C'
    case Double => 'D'
    case Float => 'F'
    case Int => 'I'
    case Long => 'J'
    case Short => 'S'
    case Boolean => 'Z'
  }

  /** The primitive a BaseType character stands for, if any. */
  function PrimOfBaseChar(c: char): (r: Option<Prim>)
    ensures forall p :: r == Some(p) <==> BaseChar(p) == c
  {
    match c
    case 'B' => Some(Byte)
    case 'C' => Some(Char)
    case 'D' => Some(Double)
    case 'F' => Some(Float)
    case 'I' => Some(Int)
    case 'J' => Some(Long)
    case 'S' => Some(Short)
    case 'Z' => Some(Boolean)
    case _ => None
  }

  /** A class name usable inside an ObjectType descriptor: non-empty and free of
      the characters section 4.2.1 excludes from binary names in internal form. */
  predicate WellFormedName(n: string) {
    |n| > 0 && ';' !in n && '[' !in n && '.' !in n
  }

  predicate WellFormedType(t: JType) {
    match t
    case PrimType(_) => true
    case ClassType(n) => WellFormedName(n)
    case ArrayType(c) => WellFormedType(c)
  }

  predicate WellFormedTypes(ts: seq<JType>) {
    forall i :: 0 <= i < |ts| ==> WellFormedType(ts[i])
  }

  predicate WellFormedRet(r: RetType) {
    r.Returns? ==> WellFormedType(r.t)
  }

  /** FieldDescriptor: `B`…`Z`, `L` ClassName `;`, or `[` ComponentType. */
  function FieldDescriptor(t: JType): (s: string)
    ensures |s| > 0 && s[0] != ')' && s[0] != 'V'
  {
    match t
    case PrimType(p) => [BaseChar(p)]
    case ClassType(n) => "L" + n + ";"
    case ArrayType(c) => "[" + FieldDescriptor(c)
  }

  /** The ParameterDescriptors of a method, in declaration order. */
  function ParamsDescriptor(ts: seq<JType>): string {
    if |ts| == 0 then "" else FieldDescriptor(ts[0]) + ParamsDescriptor(ts[1..])
  }

  /** ReturnDescriptor: a field descriptor, or `V` for void. */
  function ReturnDescriptor(r: RetType): string {
    match r
    case Void => "V"
    case Returns(t) => FieldDescriptor(t)
  }

  /** MethodDescriptor: `(` ParameterDescriptor* `)` ReturnDescriptor. */
  function MethodDescriptor(ts: seq<JType>, r: RetType): string {
    "(" + ParamsDescriptor(ts) + ")" + ReturnDescriptor(r)
  }

  /** Splits `s` at its first occurrence of `sep`. */
  function SplitFirst(s: string, sep: char): (r: Option<(string, string)>)
    ensures r.Some? ==> s == r.value.0 + [sep] + r.value.1 && sep !in r.value.0
    ensures r.None? ==> sep !in s
  {
    if |s| == 0 then None
    else if s[0] == sep then Some(([], s[1..]))
    else
      match SplitFirst(s[1..], sep)
      case None => None
      case Some((a, b)) => Some(([s[0]] + a, b))
  }

  /** A split at a separator absent from the head is found again by SplitFirst. */
  lemma {:induction false} SplitFirstOf(a: string, sep: char, b: string)
    requires sep !in a
    ensures SplitFirst(a + [sep] + b, sep) == Some((a, b))
  {
    if |a| == 0 {
      assert a + [sep] + b == [sep] + b;
    } else {
      assert (a + [sep] + b)[0] == a[0];
      assert (a + [sep] + b)[1..] == a[1..] + [sep] + b;
      SplitFirstOf(a[1..], sep, b);
      assert [a[0]] + a[1..] == a;
    }
  }

  /** Reads one field descriptor from the front of `s`, returning the type and
      the unread rest. It accepts exactly the strings FieldDescriptor prints. */
  function ParseField(s: string): (r: Option<(JType, string)>)
    decreases |s|
    ensures r.Some? ==> WellFormedType(r.value.0)
    ensures r.Some? ==> s == FieldDescriptor(r.value.0) + r.value.1
  {
    if |s| == 0 then None
    else if s[0] == 'L' then
      match SplitFirst(s[1..], ';')
      case None => None
      case Some((n, rest)) =>
        if WellFormedName(n) then
          assert s == "L" + n + ";" + rest by {
            assert s == [s[0]] + s[1..];
          }
          Some((ClassType(n), rest))
        else None
    else if s[0] == '[' then
      match ParseField(s[1..])
      case None => None
      case Some((c, rest)) =>
        assert s == [s[0]] + s[1..];
        Some((ArrayType(c), rest))
    else
      match PrimOfBaseChar(s[0])
      case None => None
      case Some(p) =>
        assert s == [s[0]] + s[1..];
        Some((PrimType(p), s[1..]))
  }

  /** Every well-formed type is read back from its descriptor, whatever follows it. */
  lemma {:induction false} ParseFieldDescriptor(t: JType, rest: string)
    requires WellFormedType(t)
    ensures ParseField(FieldDescriptor(t) + rest) == Some((t, rest))
  {
    var s := FieldDescriptor(t) + rest;
    match t
    case PrimType(p) =>
      assert s[0] == BaseChar(p) && s[1..] == rest;
    case ClassType(n) =>
      assert s[0] == 'L';
      assert s[1..] == n + [';'] + rest;
      SplitFirstOf(n, ';', rest);
    case ArrayType(c) =>
      assert s[0] == '[';
      assert s[1..] == FieldDescriptor(c) + rest;
      ParseFieldDescriptor(c, rest);
  }

  /** The parameter descriptors of a list with a given head. */
  lemma ParamsDescriptorCons(t: JType, ts: seq<JType>)
    ensures ParamsDescriptor([t] + ts) == FieldDescriptor(t) + ParamsDescriptor(ts)
    ensures WellFormedType(t) && WellFormedTypes(ts) ==> WellFormedTypes([t] + ts)
  {
    assert ([t] + ts)[0] == t && ([t] + ts)[1..] == ts;
  }

  /** A field descriptor followed by parameter descriptors is the parameter
      descriptors of the longer list. */
  lemma ParamsDescriptorOf(s: string, t: JType, rest: string, ts: seq<JType>, rest': string)
    requires s == FieldDescriptor(t) + rest && rest == ParamsDescriptor(ts) + ")" + rest'
    requires WellFormedType(t) && WellFormedTypes(ts)
    ensures s == ParamsDescriptor([t] + ts) + ")" + rest' && WellFormedTypes([t] + ts)
  {
    ParamsDescriptorCons(t, ts);
  }

  /** Reads parameter descriptors up to and including the closing `)`. */
  function ParseParams(s: string): (r: Option<(seq<JType>, string)>)
    decreases |s|
    ensures r.Some? ==> WellFormedTypes(r.value.0)
    ensures r.Some? ==> s == ParamsDescriptor(r.value.0) + ")" + r.value.1
  {
    if |s| == 0 then None
    else if s[0] == ')' then
      assert s == [s[0]] + s[1..];
      Some(([], s[1..]))
    else
      match ParseField(s)
      case None => None
      case Some((t, rest)) =>
        assert |rest| < |s|;
        match ParseParams(rest)
        case None => None
        case Some((ts, rest')) =>
          ParamsDescriptorOf(s, t, rest, ts, rest');
          Some(([t] + ts, rest'))
  }

  lemma {:induction false} ParseParamsDescriptor(ts: seq<JType>, rest: string)
    requires WellFormedTypes(ts)
    ensures ParseParams(ParamsDescriptor(ts) + ")" + rest) == Some((ts, rest))
  {
    var s := ParamsDescriptor(ts) + ")" + rest;
    if |ts| == 0 {
      assert s == ")" + rest;
    } else {
      var tail := ParamsDescriptor(ts[1..]) + ")" + rest;
      assert s == FieldDescriptor(ts[0]) + tail;
      assert s[0] == FieldDescriptor(ts[0])[0];
      ParseFieldDescriptor(ts[0], tail);
      assert WellFormedTypes(ts[1..]) by {
        forall i | 0 <= i < |ts[1..]| ensures WellFormedType(ts[1..][i]) {
          assert ts[1..][i] == ts[i + 1];
        }
      }
      ParseParamsDescriptor(ts[1..], rest);
      assert [ts[0]] + ts[1..] == ts;
    }
  }

  /** Reads a ReturnDescriptor that makes up the whole of `s`. */
  function ParseReturn(s: string): (r: Option<RetType>)
    ensures r.Some? ==> WellFormedRet(r.value) && s == ReturnDescriptor(r.value)
  {
    if s == "V" then Some(Void)
    else
      match ParseField(s)
      case None => None
      case Some((t, after)) =>
        if after == "" then
          assert s == FieldDescriptor(t) + after;
          Some(Returns(t))
        else None
  }

  /** Every well-formed return type is read back from its descriptor. */
  lemma ParseReturnDescriptor(r: RetType)
    requires WellFormedRet(r)
    ensures ParseReturn(ReturnDescriptor(r)) == Some(r)
  {
    match r
    case Void =>
    case Returns(t) =>
      ParseFieldDescriptor(t, "");
      assert FieldDescriptor(t) + "" == FieldDescriptor(t);
      assert FieldDescriptor(t)[0] != "V"[0];
  }

  /** A string that opens with `(` and continues with the parameter and
      return descriptors is the method descriptor of that signature. */
  lemma MethodDescriptorOf(s: string, ts: seq<JType>, rest: string, r: RetType)
    requires |s| > 0 && s[0] == '('
    requires s[1..] == ParamsDescriptor(ts) + ")" + rest && rest == ReturnDescriptor(r)
    ensures s == MethodDescriptor(ts, r)
  {
    assert s == [s[0]] + s[1..];
  }

  /** Reads a whole method descriptor; nothing may follow the return descriptor. */
  function ParseMethod(s: string): (r: Option<(seq<JType>, RetType)>)
    ensures r.Some? ==> WellFormedTypes(r.value.0) && WellFormedRet(r.value.1)
    ensures r.Some? ==> s == MethodDescriptor(r.value.0, r.value.1)
  {
    if |s| == 0 || s[0] != '(' then None
    else
      match ParseParams(s[1..])
      case None => None
      case Some((ts, rest)) =>
        match ParseReturn(rest)
        case None => None
        case Some(r) =>
          MethodDescriptorOf(s, ts, rest, r);
          Some((ts, r))
  }

  /** Method descriptors of well-formed signatures are read back exactly. */
  lemma ParseMethodDescriptor(ts: seq<JType>, r: RetType)
    requires WellFormedTypes(ts) && WellFormedRet(r)
    ensures ParseMethod(MethodDescriptor(ts, r)) == Some((ts, r))
  {
    var s := MethodDescriptor(ts, r);
    var inner := ParamsDescriptor(ts) + ")" + ReturnDescriptor(r);
    assert s[0] == '(' && s[1..] == inner;
    ParseParamsDescriptor(ts, ReturnDescriptor(r));
    ParseReturnDescriptor(r);
  }

  /** The descriptor of a primitive wrapper's unwrapping accessor, e.g. `()S`. */
  function UnboxDescriptor(p: Prim): string {
    MethodDescriptor([], Returns(PrimType(p)))
  }

  /** The accessor descriptor reads back as no parameters and a result of the primitive type. */
  lemma UnboxDescriptorParses(p: Prim)
    ensures ParseMethod(UnboxDescriptor(p)) == Some(([], Returns(PrimType(p))))
  {
    ParseMethodDescriptor([], Returns(PrimType(p)));
  }

  /** The accessor descriptor is `()` followed by the BaseType character, e.g. `()S`. */
  lemma UnboxDescriptorText(p: Prim)
    ensures UnboxDescriptor(p) == "()" + [BaseChar(p)]
  {
    assert ParamsDescriptor([]) == "";
  }
}
