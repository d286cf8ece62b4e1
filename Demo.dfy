/** A worked example in the shape of the repository's DemoMapper: a mapper interface
    extending BaseMapper<DemoDO>, a bean DemoDO with one accessible field, and the
    platform chain java.util.List -> java.util.Collection -> java.lang.Iterable.
    The members of BaseMapper (insert(T entity)) and DemoDO (name, getName, setName) are
    assumed fixtures, and the java.lang.Object methods are left out of every member list. */
module Demo {
  import opened Optional
  import opened TypeTable
  import opened Hierarchy
  import opened Beans
  import opened Descriptor
  import opened DescriptorFacts

  const MAPPER: string := "demo.DemoMapper"
  const BASE: string := "demo.BaseMapper"
  const DO: string := "demo.DemoDO"
  const LIST: string := "java.util.List"
  const COLLECTION: string := "java.util.Collection"
  const STRING: string := "java.lang.String"

  const OBJECT_TYPE: TypeRef := Declared(OBJECT, [])
  const DO_TYPE: TypeRef := Declared(DO, [])
  const T_OF_BASE: TypeRef := TypeVar("T", BASE)

  function Method(name: string, owner: string, params: seq<ParamDecl>, ret: TypeRef): Member {
    MethodMember(MethodDecl(name, owner, false, false, false, false, params, ret))
  }

  const FIND_BY_NAME: Member :=
    Method("findByName", MAPPER, [ParamDecl("name", Declared(STRING, []), Some("name"), None)], DO_TYPE)
  const INSERT: Member := Method("insert", BASE, [ParamDecl("entity", T_OF_BASE, None, None)], Primitive("int"))
  const NAME_FIELD: Member := FieldMember(FieldDecl("name", None, false))
  const GET_NAME: Member := Method("getName", DO, [], Declared(STRING, []))
  const SET_NAME: Member := Method("setName", DO, [ParamDecl("name", Declared(STRING, []), None, None)], Void)

  /** Interfaces list java.lang.Object as their superclass, as the compiler's direct
      supertypes of an interface do. */
  function DemoTable(): Table {
    map[
      OBJECT := Decl([], None, [], [], 0),
      ITERABLE := Decl(["T"], Some(OBJECT_TYPE), [], [], 1),
      COLLECTION := Decl(["E"], Some(OBJECT_TYPE), [Declared(ITERABLE, [TypeVar("E", COLLECTION)])], [], 2),
      LIST := Decl(["E"], Some(OBJECT_TYPE), [Declared(COLLECTION, [TypeVar("E", LIST)])], [], 3),
      BASE := Decl(["T"], Some(OBJECT_TYPE), [], [INSERT], 1),
      MAPPER := Decl([], Some(OBJECT_TYPE), [Declared(BASE, [DO_TYPE])], [FIND_BY_NAME, INSERT], 2),
      DO := Decl([], Some(OBJECT_TYPE), [], [NAME_FIELD, GET_NAME, SET_NAME], 1)
    ]
  }


  lemma Lookups()
    ensures Lookup(DemoTable(), OBJECT) == Decl([], None, [], [], 0)
    ensures Lookup(DemoTable(), ITERABLE) == Decl(["T"], Some(OBJECT_TYPE), [], [], 1)
    ensures Lookup(DemoTable(), COLLECTION) == Decl(["E"], Some(OBJECT_TYPE), [Declared(ITERABLE, [TypeVar("E", COLLECTION)])], [], 2)
    ensures Lookup(DemoTable(), LIST) == Decl(["E"], Some(OBJECT_TYPE), [Declared(COLLECTION, [TypeVar("E", LIST)])], [], 3)
    ensures Lookup(DemoTable(), BASE) == Decl(["T"], Some(OBJECT_TYPE), [], [INSERT], 1)
    ensures Lookup(DemoTable(), MAPPER) == Decl([], Some(OBJECT_TYPE), [Declared(BASE, [DO_TYPE])], [FIND_BY_NAME, INSERT], 2)
    ensures Lookup(DemoTable(), DO) == Decl([], Some(OBJECT_TYPE), [], [NAME_FIELD, GET_NAME, SET_NAME], 1)
  {
  }

  lemma DemoWellFormed()
    ensures WellFormed(DemoTable())
  {
    var tt := DemoTable();
    Lookups();
    forall n ensures SupersBelow(tt, n) {
      if n == OBJECT {
      } else if n == ITERABLE {
      } else if n == COLLECTION {
      } else if n == LIST {
      } else if n == BASE {
      } else if n == MAPPER {
      } else if n == DO {
      } else {
        assert n !in tt;
      }
    }
  }

  lemma ObjectClosure()
    ensures WellFormed(DemoTable())
    ensures DirectSupertypes(DemoTable(), OBJECT_TYPE) == []
    ensures Closure(DemoTable(), OBJECT_TYPE) == {}
  {
    DemoWellFormed();
    Lookups();
  }

  /** A declaration whose only supertype is java.lang.Object. */
  lemma ObjectOnly(n: string, args: seq<TypeRef>)
    requires n in {BASE, DO}
    ensures WellFormed(DemoTable())
    ensures DirectSupertypes(DemoTable(), Declared(n, args)) == [OBJECT_TYPE]
    ensures Closure(DemoTable(), Declared(n, args)) == {OBJECT_TYPE}
  {
    var tt := DemoTable();
    DemoWellFormed();
    Lookups();
    ObjectClosure();
    var d := Lookup(tt, n);
    assert Supers(d) == [OBJECT_TYPE];
    assert Subst(OBJECT_TYPE, n, d.typeParams, args) == OBJECT_TYPE;
    var ds := DirectSupertypes(tt, Declared(n, args));
    assert ds == [OBJECT_TYPE];
    assert ds[..0] == [];
    var h := Rank(tt, Declared(n, args));
    assert ClosureOfAll(tt, ds[..0], h) == {};
    assert Closure(tt, Declared(n, args)) == ClosureOfAll(tt, ds, h);
  }

  /** The mapper's proper supertypes are BaseMapper<DemoDO> and java.lang.Object. */
  lemma DemoMapperSupers()
    ensures WellFormed(DemoTable())
    ensures MapperSupers(DemoTable(), MAPPER) == {Declared(BASE, [DO_TYPE]), OBJECT_TYPE}
  {
    var tt := DemoTable();
    DemoWellFormed();
    Lookups();
    var base := Declared(BASE, [DO_TYPE]);
    ObjectOnly(BASE, [DO_TYPE]);
    ObjectClosure();
    assert ElementType(tt, MAPPER) == Declared(MAPPER, []);
    var d := Lookup(tt, MAPPER);
    assert Subst(OBJECT_TYPE, MAPPER, [], []) == OBJECT_TYPE;
    assert Subst(DO_TYPE, MAPPER, [], []) == DO_TYPE;
    assert Subst(base, MAPPER, [], []) == base;
    var ds := DirectSupertypes(tt, Declared(MAPPER, []));
    assert ds == [OBJECT_TYPE, base];
    assert ds[..1] == [OBJECT_TYPE] && ds[..1][..0] == [];
    var h := Rank(tt, Declared(MAPPER, []));
    assert ClosureOfAll(tt, ds[..1][..0], h) == {};
    assert ClosureOfAll(tt, ds[..1], h) == {OBJECT_TYPE};
    assert Closure(tt, Declared(MAPPER, [])) == ClosureOfAll(tt, ds, h);
  }

  lemma DemoMapperWellFormed()
    ensures MapperWellFormed(DemoTable(), MAPPER)
  {
    DemoMapperSupers();
    TwoSupersWellFormed(DemoTable(), MAPPER, BASE, DO, OBJECT);
  }

  /** A mapper whose only supertypes are `base<arg>` and `obj`, with `arg` a plain class
      declared by neither, satisfies what the compiler guarantees. */
  lemma TwoSupersWellFormed(tt: Table, mapper: string, base: string, arg: string, obj: string)
    requires WellFormed(tt) && base != obj && arg != base && arg != obj
    requires MapperSupers(tt, mapper) == {Declared(base, [Declared(arg, [])]), Declared(obj, [])}
    ensures MapperWellFormed(tt, mapper)
  {
    var c := MapperSupers(tt, mapper);
    var b := Declared(base, [Declared(arg, [])]);
    forall s | s in c ensures !IsNamed(s, arg) {
      assert s == b || s == Declared(obj, []);
    }
    assert !Owned(tt, mapper, arg);
    forall s, k | s in c && s.Declared? && 0 <= k < |s.args| ensures TvRank(tt, mapper, s.args[k]) == 0 {
      assert s == b;
    }
  }

  lemma NotJava()
    ensures !IsJavaDeclared(DO) && !IsJavaDeclared(BASE) && IsJavaDeclared(STRING) && IsJavaDeclared(LIST)
  {
    assert forall i :: 0 <= i < |JAVA_PREFIXES| ==> JAVA_PREFIXES[i][0] == 'j';
    assert JAVA_PREFIXES[4] <= STRING;
    assert JAVA_PREFIXES[13] <= LIST;
  }

  lemma DemoIterable()
    ensures WellFormed(DemoTable())
    ensures IsIterable(DemoTable(), LIST) && IsIterable(DemoTable(), COLLECTION)
    ensures !IsIterable(DemoTable(), DO) && !IsIterable(DemoTable(), STRING) && !IsIterable(DemoTable(), OBJECT)
  {
    var tt := DemoTable();
    DemoWellFormed();
    Lookups();
    assert STRING !in tt;
    assert Supers(Lookup(tt, STRING)) == [];
    assert Supers(Lookup(tt, OBJECT)) == [];
    var ss := Supers(Lookup(tt, DO));
    assert ss == [OBJECT_TYPE] && ss[..0] == [];
    var sc := Supers(Lookup(tt, COLLECTION));
    assert sc[1] == Declared(ITERABLE, [TypeVar("E", COLLECTION)]);
    assert IsIterable(tt, COLLECTION);
    var sl := Supers(Lookup(tt, LIST));
    assert sl[1] == Declared(COLLECTION, [TypeVar("E", LIST)]);
  }

  lemma BaseOwnsT()
    ensures MapperWellFormed(DemoTable(), MAPPER)
    ensures Owned(DemoTable(), MAPPER, BASE) && !Owned(DemoTable(), MAPPER, LIST)
    ensures forall s :: s in MapperSupers(DemoTable(), MAPPER) && IsNamed(s, BASE) ==> s == Declared(BASE, [DO_TYPE])
  {
    var tt := DemoTable();
    DemoMapperWellFormed();
    DemoMapperSupers();
    var base := Declared(BASE, [DO_TYPE]);
    assert IsNamed(base, BASE) && base in MapperSupers(tt, MAPPER);
  }

  /** insert(T entity) of BaseMapper<DemoDO> resolves T to the bean DemoDO, at either
      depth. */
  lemma DemoResolvesT(depth: int, s: Shape)
    requires 0 <= depth <= 1
    ensures MapperWellFormed(DemoTable(), MAPPER)
    ensures InitSpec(DemoTable(), MAPPER, T_OF_BASE, depth, s) ==
            Outcome(true, s.(typeName := Some(DO), isJavaBean := true), Some(DO))
  {
    var tt := DemoTable();
    BaseOwnsT();
    Lookups();
    assert IndexOf(Lookup(tt, BASE).typeParams, "T") == 0;
    DemoMapperSupers();
    TypeVarResolution(tt, MAPPER, "T", BASE, depth, s, Declared(BASE, [DO_TYPE]));
    DemoDOIsBean(depth, s);
  }

  lemma DemoDOIsBean(depth: int, s: Shape)
    requires 0 <= depth <= 1
    ensures MapperWellFormed(DemoTable(), MAPPER)
    ensures InitSpec(DemoTable(), MAPPER, DO_TYPE, depth, s) ==
            Outcome(true, s.(typeName := Some(DO), isJavaBean := true), Some(DO))
  {
    DemoMapperWellFormed();
    DemoIterable();
    NotJava();
    InitDeclared(DemoTable(), MAPPER, DO, [], depth, s);
  }

  /** A List<T> parameter resolves to the same bean as T, marked iterable. */
  lemma DemoListParam()
    ensures MapperWellFormed(DemoTable(), MAPPER)
    ensures InitSpec(DemoTable(), MAPPER, Declared(LIST, [T_OF_BASE]), 0, Fresh) ==
            Outcome(true, Shape(Some(DO), true, true), Some(DO))
  {
    DemoIterable();
    DemoResolvesT(1, Shape(None, true, false));
    ListOfVariable(DemoTable(), MAPPER, LIST, T_OF_BASE, DO);
  }

  /** A one-argument iterable over a type variable that resolves (inside the wrapper) to
      the bean `b`. */
  lemma ListOfVariable(tt: Table, mapper: string, list: string, tv: TypeRef, b: string)
    requires MapperWellFormed(tt, mapper) && IsIterable(tt, list)
    requires InitSpec(tt, mapper, tv, 1, Shape(None, true, false)) == Outcome(true, Shape(Some(b), true, true), Some(b))
    ensures InitSpec(tt, mapper, Declared(list, [tv]), 0, Fresh) == Outcome(true, Shape(Some(b), true, true), Some(b))
  {
    InitIterable(tt, mapper, list, [tv], 0, Fresh);
    assert Fresh.(isIterable := true) == Shape(None, true, false);
  }

  /** The element variable of List is declared by no supertype of the mapper and is refused. */
  lemma DemoOtherParams()
    ensures MapperWellFormed(DemoTable(), MAPPER)
    ensures InitSpec(DemoTable(), MAPPER, TypeVar("E", LIST), 0, Fresh) == Outcome(false, Fresh, None)
  {
    BaseOwnsT();
    TypeVarResolution(DemoTable(), MAPPER, "E", LIST, 0, Fresh, OBJECT_TYPE);
  }

  /** findByName's String parameter is a platform type and is not parsed as a bean. */
  lemma DemoStringParam()
    ensures MapperWellFormed(DemoTable(), MAPPER)
    ensures InitSpec(DemoTable(), MAPPER, Declared(STRING, []), 0, Fresh) ==
            Outcome(true, Shape(Some(STRING), false, false), None)
  {
    DemoMapperWellFormed();
    DemoIterable();
    NotJava();
    InitDeclared(DemoTable(), MAPPER, STRING, [], 0, Fresh);
  }

  lemma DemoStems()
    ensures GetterStem("getName") == Some("name") && SetterStem("getName") == None
    ensures SetterStem("setName") == Some("name") && GetterStem("setName") == None
  {
    assert "getName"[..3] == "get" && "getName"[3..] == "Name";
    assert Decapitalize("Name") == [ToLower('N')] + "ame";
    assert ToLower('N') == 'n' && ['n'] + "ame" == "name";
    assert "setName"[..3] == "set" && "setName"[3..] == "Name";
    assert "setName"[..3] != "get";
  }

  lemma DemoMembers()
    ensures MembersOf(DemoTable(), [OBJECT, DO]) == [NAME_FIELD, GET_NAME, SET_NAME]
  {
    var tt := DemoTable();
    Lookups();
    var walk := [OBJECT, DO];
    assert walk[..1] == [OBJECT] && [OBJECT][..0] == [];
    assert MembersOf(tt, [OBJECT]) == [];
  }

  lemma DemoTables(naming: Naming)
    ensures var ms := [NAME_FIELD, GET_NAME, SET_NAME];
            FieldTable(naming, ms) == [BeanField("name", naming.convert(naming.lowerCamel("name")), false)] &&
            GetterStems(ms) == {"name"} && SetterStems(ms) == {"name"}
  {
    var ms := [NAME_FIELD, GET_NAME, SET_NAME];
    var e := BeanField("name", naming.convert(naming.lowerCamel("name")), false);
    DemoStems();
    assert ms[..2] == [NAME_FIELD, GET_NAME] && ms[..2][..1] == [NAME_FIELD] && ms[..2][..1][..0] == [];
    assert FieldTable(naming, [NAME_FIELD]) == [e];
    assert FieldTable(naming, [NAME_FIELD, GET_NAME]) == [e];
    assert StemSet(ms[..2][..1][..0], GetterStem) == {} && StemSet(ms[..2][..1][..0], SetterStem) == {};
    assert StemSet(ms[..2][..1], GetterStem) == {};
    assert StemSet(ms[..2], GetterStem) == {"name"};
    assert StemSet(ms[..2][..1], SetterStem) == {};
    assert StemSet(ms[..2], SetterStem) == {};
  }

  lemma DemoSpec(naming: Naming)
    ensures BeanFieldsSpec(DemoTable(), naming, [OBJECT, DO]) ==
            [BeanField("name", naming.convert(naming.lowerCamel("name")), false)]
  {
    var e := BeanField("name", naming.convert(naming.lowerCamel("name")), false);
    DemoMembers();
    DemoTables(naming);
    assert [e][..0] == [];
    assert Keep([e], {"name"}, {"name"}) == [e];
  }

  /** DemoDO records exactly its field `name`, with the converted column name, whatever
      the iteration order of its supertype set. */
  lemma DemoBeanFields(naming: Naming, fs: seq<BeanField>)
    ensures WellFormed(DemoTable())
    ensures BeanFieldsOf(DemoTable(), naming, DO, fs) <==>
            fs == [BeanField("name", naming.convert(naming.lowerCamel("name")), false)]
  {
    var tt := DemoTable();
    DemoWellFormed();
    Lookups();
    ObjectOnly(DO, []);
    assert ElementType(tt, DO) == DO_TYPE;
    var c := Closure(tt, DO_TYPE);
    assert BeanWalk([OBJECT_TYPE], DO) == [OBJECT, DO];
    DemoSpec(naming);
    if BeanFieldsOf(tt, naming, DO, fs) {
      var order :| Enumerates(order, c) && fs == BeanFieldsSpec(tt, naming, BeanWalk(order, DO));
      SingletonOrder(order);
    }
    if fs == [BeanField("name", naming.convert(naming.lowerCamel("name")), false)] {
      assert multiset([OBJECT_TYPE]) == multiset({OBJECT_TYPE});
    }
  }

  /** The only enumeration of a one-element supertype set. */
  lemma SingletonOrder(order: seq<TypeRef>)
    requires Enumerates(order, {OBJECT_TYPE})
    ensures order == [OBJECT_TYPE]
  {
    assert multiset(order) == multiset{OBJECT_TYPE};
    assert |order| == 1;
    assert order[0] in multiset(order);
  }
}
