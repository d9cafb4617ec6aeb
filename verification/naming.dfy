/**
 Names of generated invoker classes. A generator names its class once, as the
 binary name of the target class, a `$`, the decimal clock reading taken at
 that moment, another `$` and the target method's name; later requests reuse
 the remembered name. The clock reading is an input here.
 */
module Naming {
  import opened Wrappers
  import opened Decimal

  /** Internal form of a binary class name: every `.` becomes `/`
      (section 4.2.1 of The Java Virtual Machine Specification). */
  function InternalName(binary: string): string {
    if |binary| == 0 then ""
    else [if binary[0] == '.' then '/' else binary[0]] + InternalName(binary[1..])
  }

  /** Binary form of an internal name: every `/` becomes `.`. */
  function BinaryName(internal: string): string {
    if |internal| == 0 then ""
    else [if internal[0] == '/' then '.' else internal[0]] + BinaryName(internal[1..])
  }

  /** Internal form changes dots to slashes and nothing else. */
  lemma {:induction false} InternalNameChars(binary: string)
    ensures |InternalName(binary)| == |binary|
    ensures forall i :: 0 <= i < |binary| ==>
      InternalName(binary)[i] == if binary[i] == '.' then '/' else binary[i]
  {
    if |binary| > 0 {
      InternalNameChars(binary[1..]);
    }
  }

  /** Binary form changes slashes to dots and nothing else. */
  lemma {:induction false} BinaryNameChars(internal: string)
    ensures |BinaryName(internal)| == |internal|
    ensures forall i :: 0 <= i < |internal| ==>
      BinaryName(internal)[i] == if internal[i] == '/' then '.' else internal[i]
  {
    if |internal| > 0 {
      BinaryNameChars(internal[1..]);
    }
  }

  /** A binary name (which never contains `/`) survives the trip to internal
      form and back, so distinct classes keep distinct internal names. */
  lemma InternalNameRoundTrip(binary: string)
    requires '/' !in binary
    ensures BinaryName(InternalName(binary)) == binary
    ensures '.' !in InternalName(binary)
  {
    InternalNameChars(binary);
    BinaryNameChars(InternalName(binary));
    var r := BinaryName(InternalName(binary));
    assert forall i :: 0 <= i < |r| ==> r[i] == binary[i];
  }

  /** Internal form is taken piece by piece. */
  lemma {:induction false} InternalNameAppend(a: string, b: string)
    ensures InternalName(a + b) == InternalName(a) + InternalName(b)
  {
    InternalNameChars(a + b);
    InternalNameChars(a);
    InternalNameChars(b);
    var l, r := InternalName(a + b), InternalName(a) + InternalName(b);
    assert |l| == |r|;
    forall i | 0 <= i < |l| ensures l[i] == r[i] {
      if i < |a| {
        assert (a + b)[i] == a[i];
      } else {
        assert (a + b)[i] == b[i - |a|];
      }
    }
  }

  /** A name without dots is already in internal form. */
  lemma InternalNameWithoutDots(s: string)
    requires '.' !in s
    ensures InternalName(s) == s
  {
    InternalNameChars(s);
    assert forall i :: 0 <= i < |s| ==> InternalName(s)[i] == s[i];
  }

  /** The internal form of a name qualified by two package segments. */
  lemma InternalNameQualified(a: string, b: string, c: string)
    requires '.' !in a && '.' !in b && '.' !in c
    ensures InternalName(a + "." + b + "." + c) == a + "/" + b + "/" + c
  {
    InternalNameAppend(a + "." + b + ".", c);
    InternalNameAppend(a + "." + b, ".");
    InternalNameAppend(a + ".", b);
    InternalNameAppend(a, ".");
    InternalNameWithoutDots(a);
    InternalNameWithoutDots(b);
    InternalNameWithoutDots(c);
    assert InternalName(".") == "/";
  }

  /** The generated class name built from the three components. */
  function ClassName(owner: string, clock: Int64, methodName: string): string {
    owner + "$" + LongToString(clock) + "$" + methodName
  }

  /** Splits `s` at its last occurrence of `sep`. */
  function SplitLast(s: string, sep: char): (r: Option<(string, string)>)
    decreases |s|
    ensures r.Some? ==> s == r.value.0 + [sep] + r.value.1 && sep !in r.value.1
    ensures r.None? ==> sep !in s
  {
    if |s| == 0 then None
    else if s[|s| - 1] == sep then Some((s[..|s| - 1], []))
    else
      match SplitLast(s[..|s| - 1], sep)
      case None =>
        assert s == s[..|s| - 1] + [s[|s| - 1]];
        None
      case Some((a, b)) =>
        assert s == s[..|s| - 1] + [s[|s| - 1]];
        Some((a, b + [s[|s| - 1]]))
  }

  /** A split at a separator absent from the tail is found again by SplitLast. */
  lemma {:induction false} SplitLastOf(a: string, sep: char, b: string)
    requires sep !in b
    ensures SplitLast(a + [sep] + b, sep) == Some((a, b))
    decreases |b|
  {
    var s := a + [sep] + b;
    if |b| == 0 {
      assert s[..|s| - 1] == a;
    } else {
      var b' := b[..|b| - 1];
      assert s[|s| - 1] == b[|b| - 1];
      assert s[..|s| - 1] == a + [sep] + b';
      SplitLastOf(a, sep, b');
      assert b' + [b[|b| - 1]] == b;
    }
  }

  /** Recovers owner, clock reading and method name from a generated name by
      cutting at its last two `$` signs. */
  function SplitClassName(s: string): Option<(string, int, string)> {
    match SplitLast(s, '$')
    case None => None
    case Some((front, methodName)) =>
      match SplitLast(front, '$')
      case None => None
      case Some((owner, digits)) =>
        match ParseLong(digits)
        case None => None
        case Some(clock) => Some((owner, clock, methodName))
  }

  /** The components of a generated name can be read back from it when the
      method name has no `$` (the owner may: nested classes have one). */
  lemma SplitClassNameOf(owner: string, clock: Int64, methodName: string)
    requires '$' !in methodName
    ensures SplitClassName(ClassName(owner, clock, methodName)) == Some((owner, clock as int, methodName))
  {
    var t := LongToString(clock);
    var front := owner + "$" + t;
    assert ClassName(owner, clock, methodName) == front + ['$'] + methodName;
    SplitLastOf(front, '$', methodName);
    assert '$' !in t;
    assert front == owner + ['$'] + t;
    SplitLastOf(owner, '$', t);
    ParseLongToString(clock);
  }

  /** Two clock readings that differ give two different names, whatever the
      owner and method are: the clock segment is what makes names unique. */
  lemma {:induction false} DistinctClocksDistinctNames(owner: string, c1: Int64, c2: Int64, methodName: string)
    requires c1 != c2
    ensures ClassName(owner, c1, methodName) != ClassName(owner, c2, methodName)
  {
    var s1, s2 := ClassName(owner, c1, methodName), ClassName(owner, c2, methodName);
    var t1, t2 := LongToString(c1), LongToString(c2);
    if s1 == s2 {
      assert |t1| == |t2|;
      assert s1[|owner| + 1 .. |owner| + 1 + |t1|] == t1;
      assert s2[|owner| + 1 .. |owner| + 1 + |t2|] == t2;
      LongToStringInjective(c1, c2);
      assert false;
    }
  }

  /** The remembered name of a generator: not yet fixed, or fixed for good. */
  datatype NameCache = Unnamed | Named(name: string)

  /** One request for the class name: the name handed out and the cache after. */
  function CachedName(cache: NameCache, owner: string, methodName: string, clock: Int64): (r: (string, NameCache))
    ensures r.1 == Named(r.0)
    ensures cache.Named? ==> r.0 == cache.name
  {
    match cache
    case Named(n) => (n, cache)
    case Unnamed =>
      var n := ClassName(owner, clock, methodName);
      (n, Named(n))
  }

  /** The names handed out by successive requests, the k-th reading the clock
      at `clocks[k]`. */
  function Requests(cache: NameCache, owner: string, methodName: string, clocks: seq<Int64>): (names: seq<string>)
    ensures |names| == |clocks|
    decreases |clocks|
  {
    if |clocks| == 0 then []
    else
      var (n, cache') := CachedName(cache, owner, methodName, clocks[0]);
      [n] + Requests(cache', owner, methodName, clocks[1..])
  }

  /** Once a name is fixed, every request returns it, whatever the clock says. */
  lemma {:induction false} NamedStaysNamed(name: string, owner: string, methodName: string, clocks: seq<Int64>)
    ensures forall k :: 0 <= k < |clocks| ==> Requests(Named(name), owner, methodName, clocks)[k] == name
  {
    if |clocks| > 0 {
      NamedStaysNamed(name, owner, methodName, clocks[1..]);
    }
  }

  /** The first request fixes the name from its own clock reading, and every
      later request returns that same string even when the clock has moved on. */
  lemma FirstRequestFixesName(owner: string, methodName: string, clocks: seq<Int64>)
    requires |clocks| > 0
    ensures forall k :: 0 <= k < |clocks| ==>
      Requests(Unnamed, owner, methodName, clocks)[k] == ClassName(owner, clocks[0], methodName)
  {
    NamedStaysNamed(ClassName(owner, clocks[0], methodName), owner, methodName, clocks[1..]);
  }
}
