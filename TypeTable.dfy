/** A finite stand-in for the annotation-processing type API: type mirrors,
    type declarations with their direct supertypes and members, substitution
    of type arguments, and the transitive supertype closure. */
module TypeTable {
  import opened Optional

  const ITERABLE: string := "java.lang.Iterable"
  const OBJECT: string := "java.lang.Object"

  /** A type mirror, by kind. */
  datatype TypeRef =
    | Primitive(name: string)                 // boolean, byte, short, int, long, char, float, double
    | Void
    | ArrayOf(component: TypeRef)
    | Declared(name: string, args: seq<TypeRef>)
    | TypeVar(name: string, owner: string)    // a type variable and the declaration that introduces it
    | Other                                   // wildcard, intersection, error and the remaining kinds

  /** A field with its optional @FieldName value and whether it carries @UseGeneratedKeys. */
  datatype FieldDecl = FieldDecl(name: string, fieldName: Option<string>, generatedKey: bool)

  /** A method parameter with its optional @Param and @FieldName values. */
  datatype ParamDecl = ParamDecl(ident: string, paramType: TypeRef, paramName: Option<string>, fieldName: Option<string>)

  /** A method element: its name, enclosing type, modifiers, @Select marker and signature. */
  datatype MethodDecl = MethodDecl(
    name: string, owner: string,
    isNative: bool, isStatic: bool, isDefault: bool, hasSelect: bool,
    params: seq<ParamDecl>, returnType: TypeRef)

  datatype Member = FieldMember(field: FieldDecl) | MethodMember(meth: MethodDecl) | OtherMember

  /** A type declaration. `members` is what getAllMembers reports for it (inherited members
      included); `height` is its level in the inheritance hierarchy, which the Java compiler
      keeps acyclic. */
  datatype Decl = Decl(
    typeParams: seq<string>,
    superclass: Option<TypeRef>,
    interfaces: seq<TypeRef>,
    members: seq<Member>,
    height: nat)

  type Table = map<string, Decl>

  /** Declarations the table does not list behave as leaves without members. */
  function Lookup(tt: Table, n: string): Decl {
    if n in tt then tt[n] else Decl([], None, [], [], 0)
  }

  function Height(tt: Table, n: string): nat {
    Lookup(tt, n).height
  }

  function Rank(tt: Table, t: TypeRef): nat {
    if t.Declared? then Height(tt, t.name) else 0
  }

  /** The declared superclass (if any) followed by the declared interfaces. */
  function Supers(d: Decl): seq<TypeRef> {
    (if d.superclass.Some? then [d.superclass.value] else []) + d.interfaces
  }

  /** Every declared supertype of `n` is a declared type of smaller height. */
  ghost predicate SupersBelow(tt: Table, n: string) {
    forall s | s in Supers(Lookup(tt, n)) :: s.Declared? && Height(tt, s.name) < Height(tt, n)
  }

  /** The hierarchy is acyclic: heights strictly decrease along supertype edges. */
  ghost predicate WellFormed(tt: Table) {
    forall n {:trigger SupersBelow(tt, n)} :: SupersBelow(tt, n)
  }

  /** The type of a declaration as seen from inside it: its own type variables as arguments. */
  function ElementType(tt: Table, n: string): (r: TypeRef)
    ensures r.Declared? && r.name == n && |r.args| == |Lookup(tt, n).typeParams|
  {
    var ps := Lookup(tt, n).typeParams;
    Declared(n, seq(|ps|, i requires 0 <= i < |ps| => TypeVar(ps[i], n)))
  }

  /** Index of the first occurrence of `v` in `ps`, or -1. */
  function IndexOf(ps: seq<string>, v: string): (i: int)
    ensures -1 <= i < |ps|
    ensures i >= 0 ==> ps[i] == v && forall j :: 0 <= j < i ==> ps[j] != v
    ensures i < 0 ==> v !in ps
  {
    if ps == [] then -1
    else if ps[0] == v then 0
    else var k := IndexOf(ps[1..], v); if k < 0 then -1 else k + 1
  }

  /** Replaces the type variables of declaration `owner` (named `ps`) by `args`; a variable
      without a matching argument (a raw type) is left as it is. */
  function Subst(t: TypeRef, owner: string, ps: seq<string>, args: seq<TypeRef>): (r: TypeRef)
    ensures t.Declared? ==> r.Declared? && r.name == t.name
    decreases t
  {
    match t
    case ArrayOf(c) => ArrayOf(Subst(c, owner, ps, args))
    case Declared(n, targs) =>
      Declared(n, seq(|targs|, i requires 0 <= i < |targs| => Subst(targs[i], owner, ps, args)))
    case TypeVar(v, o) =>
      var k := IndexOf(ps, v);
      if o == owner && 0 <= k < |args| then args[k] else t
    case _ => t
  }

  /** Direct supertypes of a type, with the type's arguments substituted. */
  function DirectSupertypes(tt: Table, t: TypeRef): (r: seq<TypeRef>)
    requires WellFormed(tt)
    ensures forall i :: 0 <= i < |r| ==> r[i].Declared? && Rank(tt, r[i]) < Rank(tt, t)
  {
    if !t.Declared? then []
    else
      var d := Lookup(tt, t.name);
      var ss := Supers(d);
      assert SupersBelow(tt, t.name);
      assert forall i :: 0 <= i < |ss| ==> ss[i] in Supers(d);
      seq(|ss|, i requires 0 <= i < |ss| => Subst(ss[i], t.name, d.typeParams, t.args))
  }

  /** `s` is a declared type with qualified name `n`. */
  predicate IsNamed(s: TypeRef, n: string) {
    s.Declared? && s.name == n
  }

  /** All types reachable from `t` by one or more direct-supertype steps. */
  ghost function Closure(tt: Table, t: TypeRef): set<TypeRef>
    requires WellFormed(tt)
    decreases Rank(tt, t), 1
  {
    ClosureOfAll(tt, DirectSupertypes(tt, t), Rank(tt, t))
  }

  /** The types of `ds` together with their closures. */
  ghost function ClosureOfAll(tt: Table, ds: seq<TypeRef>, h: nat): set<TypeRef>
    requires WellFormed(tt)
    requires forall i :: 0 <= i < |ds| ==> Rank(tt, ds[i]) < h
    decreases h, 0, |ds|
  {
    if ds == [] then {}
    else ClosureOfAll(tt, ds[..|ds| - 1], h) + {ds[|ds| - 1]} + Closure(tt, ds[|ds| - 1])
  }

  lemma {:induction false} ClosureOfAllMember(tt: Table, ds: seq<TypeRef>, h: nat, s: TypeRef)
    requires WellFormed(tt)
    requires forall i :: 0 <= i < |ds| ==> Rank(tt, ds[i]) < h
    ensures s in ClosureOfAll(tt, ds, h) <==> exists k :: 0 <= k < |ds| && (s == ds[k] || s in Closure(tt, ds[k]))
    decreases |ds|
  {
    if ds != [] {
      ClosureOfAllMember(tt, ds[..|ds| - 1], h, s);
      assert forall k :: 0 <= k < |ds| - 1 ==> ds[..|ds| - 1][k] == ds[k];
    }
  }

  /** A type lies above `t` iff it is a direct supertype of `t` or above one. */
  lemma ClosureMember(tt: Table, t: TypeRef, s: TypeRef)
    requires WellFormed(tt)
    ensures var ds := DirectSupertypes(tt, t);
            s in Closure(tt, t) <==> exists k :: 0 <= k < |ds| && (s == ds[k] || s in Closure(tt, ds[k]))
  {
    ClosureOfAllMember(tt, DirectSupertypes(tt, t), Rank(tt, t), s);
  }
}
