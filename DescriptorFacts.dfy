/** What init guarantees: success always names a type, at most one level of wrapping
    (array or iterable) is resolved, type variables resolve through the mapper's
    supertypes, and a worked example of a DemoMapper-style mapper. */
module DescriptorFacts {
  import opened Optional
  import opened TypeTable
  import opened Hierarchy
  import opened Beans
  import opened Descriptor

  /** Success always records a type name; failure leaves the name as it was; a bean is
      parsed only on success, for a user-declared, non-iterable declaration, and is the
      only way the bean mark is set; the iterable mark is never cleared. */
  lemma {:induction false} InitOutcomeShape(tt: Table, mapper: string, t: TypeRef, depth: int, s: Shape)
    requires MapperWellFormed(tt, mapper)
    ensures var o := InitSpec(tt, mapper, t, depth, s);
            (o.ok ==> o.shape.typeName.Some?) &&
            (!o.ok ==> o.shape.typeName == s.typeName) &&
            (o.parsed.Some? ==> o.ok && o.shape.isJavaBean && o.shape.typeName == o.parsed &&
                                !IsIterable(tt, o.parsed.value) && !IsJavaDeclared(o.parsed.value)) &&
            (o.shape.isJavaBean != s.isJavaBean ==> o.parsed.Some?) &&
            (s.isIterable ==> o.shape.isIterable)
    decreases 2 - depth, TvRank(tt, mapper, t)
  {
    if depth <= 1 {
      match t {
        case ArrayOf(c) =>
          InitOutcomeShape(tt, mapper, c, depth + 1, s);
        case Declared(n, args) =>
          if IsIterable(tt, n) && args != [] {
            InitOutcomeShape(tt, mapper, args[0], depth + 1, s.(isIterable := true));
          }
        case TypeVar(v, o) =>
          if Owned(tt, mapper, o) {
            var sup :| sup in MapperSupers(tt, mapper) && IsNamed(sup, o);
            var i := IndexOf(Lookup(tt, o).typeParams, v);
            if 0 <= i < |sup.args| {
              InitOutcomeShape(tt, mapper, sup.args[i], depth, s);
            }
          }
        case _ =>
      }
    }
  }

  /** At depth 1 (inside an array or an iterable) only a leaf can succeed: success there
      leaves the iterable mark as it was and never stops at an array or an iterable. */
  lemma {:induction false} InitInsideWrapper(tt: Table, mapper: string, t: TypeRef, s: Shape)
    requires MapperWellFormed(tt, mapper)
    ensures var o := InitSpec(tt, mapper, t, 1, s);
            o.ok ==> o.shape.isIterable == s.isIterable &&
                     !t.ArrayOf? && !(t.Declared? && IsIterable(tt, t.name))
    decreases TvRank(tt, mapper, t)
  {
    if t.TypeVar? && Owned(tt, mapper, t.owner) {
      var sup :| sup in MapperSupers(tt, mapper) && IsNamed(sup, t.owner);
      var i := IndexOf(Lookup(tt, t.owner).typeParams, t.name);
      if 0 <= i < |sup.args| {
        InitInsideWrapper(tt, mapper, sup.args[i], s);
      }
    }
  }

  /** Primitives and void resolve to their own name at any allowed depth, leaving the marks
      and the bean fields alone. */
  lemma Leaves(tt: Table, mapper: string, p: string, depth: int, s: Shape)
    requires MapperWellFormed(tt, mapper) && depth <= 1
    ensures InitSpec(tt, mapper, Primitive(p), depth, s) == Outcome(true, s.(typeName := Some(p)), None)
    ensures InitSpec(tt, mapper, Void, depth, s) == Outcome(true, s.(typeName := Some("void")), None)
  {
  }

  /** An array resolves to its component type one level deeper and is not marked iterable
      (int[] resolves to int); an iterable is marked iterable and resolves to a leaf type
      argument; wrapping twice always fails (int[][], List<int[]>, List<List<X>> and
      List<X>[] are all refused). */
  lemma Wrappers(tt: Table, mapper: string, c: TypeRef, n: string, args: seq<TypeRef>)
    requires MapperWellFormed(tt, mapper)
    ensures InitSpec(tt, mapper, ArrayOf(c), 0, Fresh) == InitSpec(tt, mapper, c, 1, Fresh)
    ensures InitSpec(tt, mapper, ArrayOf(Primitive("int")), 0, Fresh) == Outcome(true, Fresh.(typeName := Some("int")), None)
    ensures var o := InitSpec(tt, mapper, ArrayOf(c), 0, Fresh);
            o.ok ==> !o.shape.isIterable && !c.ArrayOf? && !(c.Declared? && IsIterable(tt, c.name))
    ensures var o := InitSpec(tt, mapper, Declared(n, args), 0, Fresh);
            IsIterable(tt, n) ==> o.shape.isIterable && (o.ok ==> args != [] && !args[0].ArrayOf?)
    ensures !InitSpec(tt, mapper, ArrayOf(ArrayOf(c)), 0, Fresh).ok
    ensures IsIterable(tt, n) && args != [] && args[0].Declared? && IsIterable(tt, args[0].name) ==>
            !InitSpec(tt, mapper, Declared(n, args), 0, Fresh).ok
    ensures IsIterable(tt, n) ==> !InitSpec(tt, mapper, ArrayOf(Declared(n, args)), 0, Fresh).ok
  {
    InitInsideWrapper(tt, mapper, c, Fresh);
    assert InitSpec(tt, mapper, ArrayOf(ArrayOf(c)), 0, Fresh) == InitSpec(tt, mapper, ArrayOf(c), 1, Fresh);
    assert InitSpec(tt, mapper, ArrayOf(c), 1, Fresh) == InitSpec(tt, mapper, c, 2, Fresh);
    if IsIterable(tt, n) {
      var s1 := Fresh.(isIterable := true);
      assert InitSpec(tt, mapper, ArrayOf(Declared(n, args)), 0, Fresh) == InitSpec(tt, mapper, Declared(n, args), 1, Fresh);
      if args != [] {
        InitInsideWrapper(tt, mapper, args[0], s1);
        InitOutcomeShape(tt, mapper, args[0], 1, s1);
        assert InitSpec(tt, mapper, Declared(n, args), 1, Fresh) == InitSpec(tt, mapper, args[0], 2, s1);
      }
    }
  }

  /** A declared type that is not iterable resolves at once: to its own name, and to a bean
      parse of that declaration unless it lies in a platform package. */
  lemma InitDeclared(tt: Table, mapper: string, n: string, args: seq<TypeRef>, depth: int, s: Shape)
    requires MapperWellFormed(tt, mapper) && depth <= 1 && !IsIterable(tt, n)
    ensures InitSpec(tt, mapper, Declared(n, args), depth, s) ==
            if IsJavaDeclared(n) then Outcome(true, s.(typeName := Some(n)), None)
            else Outcome(true, s.(typeName := Some(n), isJavaBean := true), Some(n))
  {
  }

  /** An iterable with a type argument resolves that argument one level deeper, marked
      iterable. */
  lemma InitIterable(tt: Table, mapper: string, n: string, args: seq<TypeRef>, depth: int, s: Shape)
    requires MapperWellFormed(tt, mapper) && depth <= 1 && IsIterable(tt, n) && args != []
    ensures InitSpec(tt, mapper, Declared(n, args), depth, s) ==
            InitSpec(tt, mapper, args[0], depth + 1, s.(isIterable := true))
  {
  }
}
