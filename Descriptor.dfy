/** TypeDescriptor: resolves the type of a mapper method's parameter or return value to
    a type name, an iterable mark and, for a bean, its bean fields. */
module Descriptor {
  import opened Optional
  import opened TypeTable
  import opened Hierarchy
  import opened Beans

  /** The descriptor's visible state: the resolved type name and the two marks. */
  datatype Shape = Shape(typeName: Option<string>, isIterable: bool, isJavaBean: bool)

  const Fresh: Shape := Shape(None, false, false)

  /** What one call of init does: whether it succeeded, the state it leaves, and the
      declaration whose bean fields it parsed, if any. */
  datatype Outcome = Outcome(ok: bool, shape: Shape, parsed: Option<string>)

  /** All proper supertypes of the mapper, with the mapper's own type variables. */
  ghost function MapperSupers(tt: Table, mapper: string): set<TypeRef>
    requires WellFormed(tt)
  {
    Closure(tt, ElementType(tt, mapper))
  }

  /** Some proper supertype of the mapper is declaration `o`. */
  ghost predicate Owned(tt: Table, mapper: string, o: string)
    requires WellFormed(tt)
  {
    exists s :: s in MapperSupers(tt, mapper) && IsNamed(s, o)
  }

  /** 1 for a type variable that a supertype of the mapper declares, otherwise 0. */
  ghost function TvRank(tt: Table, mapper: string, t: TypeRef): nat
    requires WellFormed(tt)
  {
    if t.TypeVar? && Owned(tt, mapper, t.owner) then 1 else 0
  }

  /** What the Java compiler guarantees of a mapper interface: an acyclic hierarchy, no
      declaration inherited twice with different arguments (section 8.1.5 of the Java
      Language Specification), and type arguments of the supertypes expressed in the
      mapper's own terms, never by a type variable of one of those supertypes. */
  ghost predicate MapperWellFormed(tt: Table, mapper: string) {
    WellFormed(tt) &&
    var c := MapperSupers(tt, mapper);
    (forall s1, s2 :: s1 in c && s2 in c && s1.Declared? && s2.Declared? && s1.name == s2.name ==> s1 == s2) &&
    (forall s, k :: s in c && s.Declared? && 0 <= k < |s.args| ==> TvRank(tt, mapper, s.args[k]) == 0)
  }

  /** init(mapperElement, typeMirror, converter, depth) on a descriptor in state `s`. */
  ghost function InitSpec(tt: Table, mapper: string, t: TypeRef, depth: int, s: Shape): Outcome
    requires MapperWellFormed(tt, mapper)
    decreases 2 - depth, TvRank(tt, mapper, t)
  {
    if depth > 1 then Outcome(false, s, None)
    else match t
      case Primitive(n) => Outcome(true, s.(typeName := Some(n)), None)
      case Void => Outcome(true, s.(typeName := Some("void")), None)
      case ArrayOf(c) => InitSpec(tt, mapper, c, depth + 1, s)
      case Declared(n, args) =>
        if IsIterable(tt, n) then
          var s1 := s.(isIterable := true);
          if args != [] then InitSpec(tt, mapper, args[0], depth + 1, s1) else Outcome(false, s1, None)
        else if IsJavaDeclared(n) then Outcome(true, s.(typeName := Some(n)), None)
        else Outcome(true, s.(typeName := Some(n), isJavaBean := true), Some(n))
      case TypeVar(v, o) =>
        if Owned(tt, mapper, o) then
          var sup :| sup in MapperSupers(tt, mapper) && IsNamed(sup, o);
          var i := IndexOf(Lookup(tt, o).typeParams, v);
          if 0 <= i < |sup.args| then InitSpec(tt, mapper, sup.args[i], depth, s)
          else Outcome(false, s, None)
        else Outcome(false, s, None)
      case Other => Outcome(false, s, None)
  }

  /** A type variable declared by a supertype of the mapper resolves like the argument
      that supertype is given; one no supertype declares (a method's own type variable,
      or one of the mapper itself) is refused with the state unchanged. */
  lemma TypeVarResolution(tt: Table, mapper: string, v: string, o: string, depth: int, s: Shape, sup: TypeRef)
    requires MapperWellFormed(tt, mapper) && depth <= 1
    ensures sup in MapperSupers(tt, mapper) && IsNamed(sup, o) &&
            0 <= IndexOf(Lookup(tt, o).typeParams, v) < |sup.args| ==>
            InitSpec(tt, mapper, TypeVar(v, o), depth, s) ==
            InitSpec(tt, mapper, sup.args[IndexOf(Lookup(tt, o).typeParams, v)], depth, s)
    ensures !Owned(tt, mapper, o) ==> InitSpec(tt, mapper, TypeVar(v, o), depth, s) == Outcome(false, s, None)
  {
    if sup in MapperSupers(tt, mapper) && IsNamed(sup, o) {
      var c := MapperSupers(tt, mapper);
      var other :| other in c && IsNamed(other, o);
      assert IsNamed(other, o);
      assert other == sup;
    }
  }

  /** No supertype of the mapper declares `v`: the variable is refused, state unchanged. */
  lemma TypeVarUnresolved(tt: Table, mapper: string, v: string, o: string, depth: int, s: Shape)
    requires MapperWellFormed(tt, mapper) && depth <= 1
    requires forall sup :: sup in MapperSupers(tt, mapper) ==> !IsNamed(sup, o) || v !in Lookup(tt, o).typeParams
    ensures InitSpec(tt, mapper, TypeVar(v, o), depth, s) == Outcome(false, s, None)
  {
    if Owned(tt, mapper, o) {
      var sup :| sup in MapperSupers(tt, mapper) && IsNamed(sup, o);
      assert IndexOf(Lookup(tt, o).typeParams, v) < 0;
    }
  }

  class TypeDescriptor {
    var typeName: Option<string>
    var isIterable: bool
    var isJavaBean: bool
    var beanFields: Option<seq<BeanField>>

    constructor ()
      ensures typeName == None && !isIterable && !isJavaBean && beanFields == None
    {
      typeName := None;
      isIterable := false;
      isJavaBean := false;
      beanFields := None;
    }

    function Current(): Shape
      reads this
    {
      Shape(typeName, isIterable, isJavaBean)
    }

    /** init: follows InitSpec; when it parses a bean, the fields it stores are the ones
        parseJavaBean records for that declaration, and otherwise it leaves them alone. */
    method Init(tt: Table, naming: Naming, mapper: string, t: TypeRef, depth: int) returns (ok: bool)
      requires MapperWellFormed(tt, mapper)
      modifies this
      ensures var o := InitSpec(tt, mapper, t, depth, old(Current()));
              ok == o.ok && Current() == o.shape &&
              (o.parsed.Some? ==> beanFields.Some? && BeanFieldsOf(tt, naming, o.parsed.value, beanFields.value)) &&
              (o.parsed.None? ==> beanFields == old(beanFields))
      decreases 2 - depth, TvRank(tt, mapper, t)
    {
      if depth > 1 {
        return false;
      }
      match t {
        case Primitive(n) =>
          typeName := Some(n);
          ok := true;
        case Void =>
          typeName := Some("void");
          ok := true;
        case ArrayOf(c) =>
          ok := Init(tt, naming, mapper, c, depth + 1);
        case Declared(n, args) =>
          ok := InitDeclared(tt, naming, mapper, n, args, depth);
        case TypeVar(v, o) =>
          ok := ResolveTypeVar(tt, naming, mapper, v, o, depth);
        case Other =>
          ok := false;
      }
    }

    /** The DECLARED branch: an iterable resolves its first type argument one level deeper;
        otherwise the name is recorded, and a declaration outside the platform packages is
        parsed as a bean. */
    method InitDeclared(tt: Table, naming: Naming, mapper: string, n: string, args: seq<TypeRef>, depth: int)
      returns (ok: bool)
      requires MapperWellFormed(tt, mapper) && depth <= 1
      modifies this
      ensures var out := InitSpec(tt, mapper, Declared(n, args), depth, old(Current()));
              ok == out.ok && Current() == out.shape &&
              (out.parsed.Some? ==> beanFields.Some? && BeanFieldsOf(tt, naming, out.parsed.value, beanFields.value)) &&
              (out.parsed.None? ==> beanFields == old(beanFields))
      decreases 2 - depth, TvRank(tt, mapper, Declared(n, args)), 1
    {
      if IsIterable(tt, n) {
        isIterable := true;
        if args != [] {
          ok := Init(tt, naming, mapper, args[0], depth + 1);
        } else {
          ok := false;
        }
      } else if IsJavaDeclared(n) {
        typeName := Some(n);
        ok := true;
      } else {
        typeName := Some(n);
        isJavaBean := true;
        var fs := ParseJavaBean(tt, naming, n);
        beanFields := Some(fs);
        ok := true;
      }
    }

    /** The TYPEVAR branch: find the supertype of the mapper that declares the variable
        and resolve the argument it is given there, at the same depth. */
    method ResolveTypeVar(tt: Table, naming: Naming, mapper: string, v: string, o: string, depth: int)
      returns (ok: bool)
      requires MapperWellFormed(tt, mapper) && depth <= 1
      modifies this
      ensures var out := InitSpec(tt, mapper, TypeVar(v, o), depth, old(Current()));
              ok == out.ok && Current() == out.shape &&
              (out.parsed.Some? ==> beanFields.Some? && BeanFieldsOf(tt, naming, out.parsed.value, beanFields.value)) &&
              (out.parsed.None? ==> beanFields == old(beanFields))
      decreases 2 - depth, TvRank(tt, mapper, TypeVar(v, o)), 1
    {
      var sups := CollectSupertypes(tt, ElementType(tt, mapper));
      var ps := Lookup(tt, o).typeParams;
      var rest := sups;
      while rest != {}
        invariant rest <= sups
        invariant forall s :: s in sups && s !in rest ==> !IsNamed(s, o) || v !in ps
        decreases |rest|
      {
        var sup :| sup in rest;
        if IsNamed(sup, o) {
          var i := 0;
          while i < |ps|
            invariant 0 <= i <= |ps|
            invariant forall j :: 0 <= j < i ==> ps[j] != v
          {
            if ps[i] == v {
              assert i == IndexOf(ps, v);
              ok := ResolveArgument(tt, naming, mapper, v, o, depth, sup, i);
              return;
            }
            i := i + 1;
          }
        }
        rest := rest - {sup};
      }
      TypeVarUnresolved(tt, mapper, v, o, depth, old(Current()));
      ok := false;
    }
      /** The declaring supertype `sup` was found and `v` is its i-th type parameter: resolve
        the i-th argument, or fail when `sup` gives fewer arguments (a raw supertype). */
    method ResolveArgument(tt: Table, naming: Naming, mapper: string, v: string, o: string, depth: int,
                           sup: TypeRef, i: int) returns (ok: bool)
      requires MapperWellFormed(tt, mapper) && depth <= 1
      requires sup in MapperSupers(tt, mapper) && IsNamed(sup, o)
      requires i == IndexOf(Lookup(tt, o).typeParams, v) && 0 <= i < |Lookup(tt, o).typeParams|
      modifies this
      ensures var out := InitSpec(tt, mapper, TypeVar(v, o), depth, old(Current()));
              ok == out.ok && Current() == out.shape &&
              (out.parsed.Some? ==> beanFields.Some? && BeanFieldsOf(tt, naming, out.parsed.value, beanFields.value)) &&
              (out.parsed.None? ==> beanFields == old(beanFields))
      decreases 2 - depth, TvRank(tt, mapper, TypeVar(v, o)), 0
    {
      assert Owned(tt, mapper, o);
      TypeVarResolution(tt, mapper, v, o, depth, old(Current()), sup);
      if i < |sup.args| {
        assert TvRank(tt, mapper, sup.args[i]) == 0;
        ok := Init(tt, naming, mapper, sup.args[i], depth);
      } else {
        ok := false;
      }
    }
  }
}
