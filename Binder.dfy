/** MapperMethodParser: collects the mapper's methods (super-interfaces first, each
    method once), filters them, and converts each into a MethodInfo by resolving its
    parameter and return types with TypeDescriptor. */
module Binder {
  import opened Optional
  import opened TypeTable
  import opened Hierarchy
  import opened Beans
  import opened Descriptor
  import opened DescriptorFacts

  // ----- collectMethodElements -----

  /** The order in which doCollectMethodElements visits declarations: the visits of the
      declared interfaces, left to right, then the declaration itself. */
  function Visit(tt: Table, n: string): (r: seq<string>)
    requires WellFormed(tt)
    ensures |r| > 0 && r[|r| - 1] == n
    decreases Height(tt, n), 2
  {
    InterfaceVisits(tt, n) + [n]
  }

  /** The visits of the interfaces `n` declares, left to right. */
  function InterfaceVisits(tt: Table, n: string): seq<string>
    requires WellFormed(tt)
    decreases Height(tt, n), 1
  {
    var d := Lookup(tt, n);
    assert SupersBelow(tt, n);
    assert forall i :: 0 <= i < |d.interfaces| ==> d.interfaces[i] in Supers(d);
    VisitAll(tt, d.interfaces, Height(tt, n))
  }

  function VisitAll(tt: Table, ifs: seq<TypeRef>, h: nat): seq<string>
    requires WellFormed(tt)
    requires forall i :: 0 <= i < |ifs| ==> ifs[i].Declared? && Height(tt, ifs[i].name) < h
    decreases h, 0, |ifs|
  {
    if ifs == [] then [] else VisitAll(tt, ifs[..|ifs| - 1], h) + Visit(tt, ifs[|ifs| - 1].name)
  }

  /** Adding the methods among `ms` to the ordered set `acc`, in order, each at most once. */
  function AddMethods(acc: seq<MethodDecl>, ms: seq<Member>): seq<MethodDecl> {
    if ms == [] then acc
    else
      var r := AddMethods(acc, ms[..|ms| - 1]);
      var m := ms[|ms| - 1];
      if m.MethodMember? && m.meth !in r then r + [m.meth] else r
  }

  predicate NoDuplicates(s: seq<MethodDecl>) {
    forall i, j :: 0 <= i < j < |s| ==> s[i] != s[j]
  }

  lemma {:induction false} AddMethodsAppend(acc: seq<MethodDecl>, xs: seq<Member>, ys: seq<Member>)
    ensures AddMethods(acc, xs + ys) == AddMethods(AddMethods(acc, xs), ys)
    decreases |ys|
  {
    if ys == [] {
      assert xs + ys == xs;
    } else {
      var ys' := ys[..|ys| - 1];
      AddMethodsAppend(acc, xs, ys');
      assert (xs + ys)[..|xs + ys| - 1] == xs + ys';
    }
  }

  lemma {:induction false} MembersOfAppend(tt: Table, w1: seq<string>, w2: seq<string>)
    ensures MembersOf(tt, w1 + w2) == MembersOf(tt, w1) + MembersOf(tt, w2)
    decreases |w2|
  {
    if w2 == [] {
      assert w1 + w2 == w1;
    } else {
      var w2' := w2[..|w2| - 1];
      MembersOfAppend(tt, w1, w2');
      assert (w1 + w2)[..|w1 + w2| - 1] == w1 + w2';
    }
  }

  /** doCollectMethodElements: adds the methods of `n`'s super-interfaces (recursively)
      and then those getAllMembers reports for `n`, skipping methods already present. */
  method DoCollectMethodElements(tt: Table, n: string, acc: seq<MethodDecl>) returns (r: seq<MethodDecl>)
    requires WellFormed(tt)
    ensures r == AddMethods(acc, MembersOf(tt, Visit(tt, n)))
    decreases Height(tt, n), 1
  {
    r := CollectInterfaces(tt, n, acc);
    ghost var r1 := r;
    var ms := Lookup(tt, n).members;
    r := AddMemberMethods(r, ms);
    var before := InterfaceVisits(tt, n);
    MembersOfAppend(tt, before, [n]);
    assert [n][..0] == [];
    assert MembersOf(tt, [n]) == ms;
    AddMethodsAppend(acc, MembersOf(tt, before), ms);
  }

  /** Visiting one more interface adds the methods of its own visit. */
  lemma VisitAllStep(tt: Table, acc: seq<MethodDecl>, ifs: seq<TypeRef>, i: nat, h: nat)
    requires WellFormed(tt) && i < |ifs|
    requires forall k :: 0 <= k < |ifs| ==> ifs[k].Declared? && Height(tt, ifs[k].name) < h
    ensures AddMethods(acc, MembersOf(tt, VisitAll(tt, ifs[..i + 1], h))) ==
            AddMethods(AddMethods(acc, MembersOf(tt, VisitAll(tt, ifs[..i], h))), MembersOf(tt, Visit(tt, ifs[i].name)))
  {
    assert ifs[..i + 1][..i] == ifs[..i];
    assert VisitAll(tt, ifs[..i + 1], h) == VisitAll(tt, ifs[..i], h) + Visit(tt, ifs[i].name);
    MembersOfAppend(tt, VisitAll(tt, ifs[..i], h), Visit(tt, ifs[i].name));
    AddMethodsAppend(acc, MembersOf(tt, VisitAll(tt, ifs[..i], h)), MembersOf(tt, Visit(tt, ifs[i].name)));
  }

  /** The first loop of doCollectMethodElements: recurse into each declared interface. */
  method CollectInterfaces(tt: Table, n: string, acc: seq<MethodDecl>) returns (r: seq<MethodDecl>)
    requires WellFormed(tt)
    ensures r == AddMethods(acc, MembersOf(tt, InterfaceVisits(tt, n)))
    decreases Height(tt, n), 0
  {
    var d := Lookup(tt, n);
    var ifs := d.interfaces;
    var h := Height(tt, n);
    assert SupersBelow(tt, n);
    assert forall i :: 0 <= i < |ifs| ==> ifs[i] in Supers(d);
    r := acc;
    var i := 0;
    while i < |ifs|
      invariant 0 <= i <= |ifs|
      invariant r == AddMethods(acc, MembersOf(tt, VisitAll(tt, ifs[..i], h)))
    {
      VisitAllStep(tt, acc, ifs, i, h);
      r := DoCollectMethodElements(tt, ifs[i].name, r);
      i := i + 1;
    }
    assert ifs[..|ifs|] == ifs;
  }

  /** The second loop of doCollectMethodElements: each method member not yet present is
      appended. */
  method AddMemberMethods(acc: seq<MethodDecl>, ms: seq<Member>) returns (r: seq<MethodDecl>)
    ensures r == AddMethods(acc, ms)
  {
    r := acc;
    var j := 0;
    while j < |ms|
      invariant 0 <= j <= |ms|
      invariant r == AddMethods(acc, ms[..j])
    {
      assert ms[..j + 1][..j] == ms[..j];
      var m := ms[j];
      if m.MethodMember? && m.meth !in r {
        r := r + [m.meth];
      }
      j := j + 1;
    }
    assert ms[..|ms|] == ms;
  }

  /** The methods collectMethodElements reports for the mapper, in insertion order. */
  function Collected(tt: Table, mapper: string): seq<MethodDecl>
    requires WellFormed(tt)
  {
    AddMethods([], MembersOf(tt, Visit(tt, mapper)))
  }

  method CollectMethodElements(tt: Table, mapper: string) returns (r: seq<MethodDecl>)
    requires WellFormed(tt)
    ensures r == Collected(tt, mapper)
  {
    r := DoCollectMethodElements(tt, mapper, []);
  }

  /** Adding keeps what was there, in place, adds no duplicate, and adds exactly the
      methods among `ms`. */
  lemma {:induction false} AddMethodsFacts(acc: seq<MethodDecl>, ms: seq<Member>, x: MethodDecl)
    ensures acc <= AddMethods(acc, ms)
    ensures NoDuplicates(acc) ==> NoDuplicates(AddMethods(acc, ms))
    ensures x in AddMethods(acc, ms) <==> x in acc || exists k :: 0 <= k < |ms| && ms[k] == MethodMember(x)
    decreases |ms|
  {
    if ms != [] {
      var init := ms[..|ms| - 1];
      AddMethodsFacts(acc, init, x);
      assert forall k :: 0 <= k < |init| ==> init[k] == ms[k];
    }
  }

  /** The collected methods are pairwise distinct, and a method is collected iff some
      declaration on the visit reports it as a member. */
  lemma CollectedFacts(tt: Table, mapper: string, x: MethodDecl)
    requires WellFormed(tt)
    ensures NoDuplicates(Collected(tt, mapper))
    ensures x in Collected(tt, mapper) <==> MethodMember(x) in MembersOf(tt, Visit(tt, mapper))
  {
    AddMethodsFacts([], MembersOf(tt, Visit(tt, mapper)), x);
  }

  /** Methods of the super-interfaces come first: what the interfaces' visits collect is
      a prefix of what is collected for the mapper. */
  lemma InterfacesFirst(tt: Table, mapper: string)
    requires WellFormed(tt)
    ensures AddMethods([], MembersOf(tt, InterfaceVisits(tt, mapper))) <= Collected(tt, mapper)
  {
    var before := InterfaceVisits(tt, mapper);
    MembersOfAppend(tt, before, [mapper]);
    AddMethodsAppend([], MembersOf(tt, before), MembersOf(tt, [mapper]));
    var any := MethodDecl("", "", false, false, false, false, [], Void);
    AddMethodsFacts(AddMethods([], MembersOf(tt, before)), MembersOf(tt, [mapper]), any);
  }

  // ----- filterMethodElement -----

  /** isObjectMethod: the method is declared by java.lang.Object. */
  predicate IsObjectMethod(m: MethodDecl) {
    m.owner == OBJECT
  }

  /** METHOD_FILTERS: not native, not static, not default, not declared by Object. */
  const METHOD_FILTERS: seq<MethodDecl -> bool> := [
    (m: MethodDecl) => !m.isNative,
    (m: MethodDecl) => !m.isStatic,
    (m: MethodDecl) => !m.isDefault,
    (m: MethodDecl) => !IsObjectMethod(m)
  ]

  predicate PassesFilters(m: MethodDecl) {
    forall i :: 0 <= i < |METHOD_FILTERS| ==> METHOD_FILTERS[i](m)
  }

  /** filterMethodElement: rejects at the first filter the method fails. */
  method FilterMethodElement(m: MethodDecl) returns (ok: bool)
    ensures ok == PassesFilters(m)
  {
    var i := 0;
    while i < |METHOD_FILTERS|
      invariant 0 <= i <= |METHOD_FILTERS|
      invariant forall j :: 0 <= j < i ==> METHOD_FILTERS[j](m)
    {
      if !METHOD_FILTERS[i](m) {
        return false;
      }
      i := i + 1;
    }
    return true;
  }

  /** A method is kept exactly when it is abstract in the sense of an interface method:
      neither native, static nor default, and not one of Object's methods. */
  lemma FiltersIff(m: MethodDecl)
    ensures PassesFilters(m) <==> !m.isNative && !m.isStatic && !m.isDefault && m.owner != OBJECT
  {
    if !m.isNative && !m.isStatic && !m.isDefault && m.owner != OBJECT {
      forall i | 0 <= i < |METHOD_FILTERS| ensures METHOD_FILTERS[i](m) {
        assert i == 0 || i == 1 || i == 2 || i == 3;
      }
    }
    if PassesFilters(m) {
      assert METHOD_FILTERS[0](m) && METHOD_FILTERS[1](m) && METHOD_FILTERS[2](m) && METHOD_FILTERS[3](m);
    }
  }

  // ----- convert -----

  datatype Param = Param(
    typeName: string, name: string, fieldName: string,
    isIterable: bool, isJavaBean: bool, beanFields: Option<seq<BeanField>>)

  datatype Return = Return(typeName: string, isJavaBean: bool, beanFields: Option<seq<BeanField>>)

  datatype MethodInfo = MethodInfo(name: string, params: seq<Param>, ret: Return)

  /** A fresh descriptor's init at depth 0 succeeds for `t`. */
  ghost predicate Resolves(tt: Table, mapper: string, t: TypeRef)
    requires MapperWellFormed(tt, mapper)
  {
    InitSpec(tt, mapper, t, 0, Fresh).ok
  }

  /** The bean fields match the outcome: parsed for the bean it names, otherwise null. */
  ghost predicate FieldsMatch(tt: Table, naming: Naming, o: Outcome, fs: Option<seq<BeanField>>)
    requires WellFormed(tt)
  {
    if o.parsed.Some? then fs.Some? && BeanFieldsOf(tt, naming, o.parsed.value, fs.value) else fs == None
  }

  /** The name a parameter is bound under: its @Param value, otherwise its identifier. */
  function BindingName(p: ParamDecl): string {
    if p.paramName.Some? then p.paramName.value else p.ident
  }

  /** The parameters whose type resolves, in declaration order. */
  ghost function Resolvable(tt: Table, mapper: string, ps: seq<ParamDecl>): seq<ParamDecl>
    requires MapperWellFormed(tt, mapper)
  {
    if ps == [] then []
    else
      var rs := Resolvable(tt, mapper, ps[..|ps| - 1]);
      if Resolves(tt, mapper, ps[|ps| - 1].paramType) then rs + [ps[|ps| - 1]] else rs
  }

  /** `q` is the Param built for `p`. */
  ghost predicate ParamOf(tt: Table, naming: Naming, mapper: string, p: ParamDecl, q: Param)
    requires MapperWellFormed(tt, mapper)
  {
    var o := InitSpec(tt, mapper, p.paramType, 0, Fresh);
    o.shape.typeName == Some(q.typeName) && q.name == BindingName(p) &&
    q.fieldName == MappedName(naming, p.fieldName, q.name) &&
    q.isIterable == o.shape.isIterable && q.isJavaBean == o.shape.isJavaBean &&
    FieldsMatch(tt, naming, o, q.beanFields)
  }

  /** `qs` are the Params built for the resolvable parameters of `ps`, in order. */
  ghost predicate ParamsOf(tt: Table, naming: Naming, mapper: string, ps: seq<ParamDecl>, qs: seq<Param>)
    requires MapperWellFormed(tt, mapper)
  {
    var rs := Resolvable(tt, mapper, ps);
    |qs| == |rs| && forall k :: 0 <= k < |rs| ==> ParamOf(tt, naming, mapper, rs[k], qs[k])
  }

  ghost predicate ReturnOf(tt: Table, naming: Naming, mapper: string, t: TypeRef, r: Return)
    requires MapperWellFormed(tt, mapper)
  {
    var o := InitSpec(tt, mapper, t, 0, Fresh);
    o.shape.typeName == Some(r.typeName) && r.isJavaBean == o.shape.isJavaBean &&
    FieldsMatch(tt, naming, o, r.beanFields)
  }

  /** The method yields a MethodInfo: it carries no @Select and its return type resolves. */
  ghost predicate Converts(tt: Table, mapper: string, m: MethodDecl)
    requires MapperWellFormed(tt, mapper)
  {
    !m.hasSelect && Resolves(tt, mapper, m.returnType)
  }

  ghost predicate MethodInfoOf(tt: Table, naming: Naming, mapper: string, m: MethodDecl, info: MethodInfo)
    requires MapperWellFormed(tt, mapper)
  {
    info.name == m.name && ParamsOf(tt, naming, mapper, m.params, info.params) &&
    ReturnOf(tt, naming, mapper, m.returnType, info.ret)
  }

  /** One descriptor, freshly made and initialised at depth 0, as convert uses it. */
  method Describe(tt: Table, naming: Naming, mapper: string, t: TypeRef)
    returns (ok: bool, typeName: string, isIterable: bool, isJavaBean: bool, beanFields: Option<seq<BeanField>>)
    requires MapperWellFormed(tt, mapper)
    ensures var o := InitSpec(tt, mapper, t, 0, Fresh);
            ok == o.ok &&
            (ok ==> o.shape.typeName == Some(typeName) && isIterable == o.shape.isIterable &&
                    isJavaBean == o.shape.isJavaBean && FieldsMatch(tt, naming, o, beanFields))
  {
    var desc := new TypeDescriptor();
    ok := desc.Init(tt, naming, mapper, t, 0);
    InitOutcomeShape(tt, mapper, t, 0, Fresh);
    typeName := if desc.typeName.Some? then desc.typeName.value else "";
    isIterable, isJavaBean, beanFields := desc.isIterable, desc.isJavaBean, desc.beanFields;
  }

  /** The parameter loop of convert: a parameter whose type does not resolve is skipped. */
  method ConvertParams(tt: Table, naming: Naming, mapper: string, ps: seq<ParamDecl>) returns (qs: seq<Param>)
    requires MapperWellFormed(tt, mapper)
    ensures ParamsOf(tt, naming, mapper, ps, qs)
  {
    qs := [];
    var i := 0;
    while i < |ps|
      invariant 0 <= i <= |ps|
      invariant ParamsOf(tt, naming, mapper, ps[..i], qs)
    {
      assert ps[..i + 1][..i] == ps[..i];
      var p := ps[i];
      var ok, typeName, isIterable, isJavaBean, beanFields := Describe(tt, naming, mapper, p.paramType);
      if ok {
        var name := BindingName(p);
        var fieldName := MappedName(naming, p.fieldName, name);
        qs := qs + [Param(typeName, name, fieldName, isIterable, isJavaBean, beanFields)];
      }
      i := i + 1;
    }
    assert ps[..|ps|] == ps;
  }

  /** convert: no MethodInfo for a @Select method or one whose return type does not
      resolve; otherwise its name, its resolvable parameters and its return. */
  method Convert(tt: Table, naming: Naming, m: MethodDecl, mapper: string) returns (r: Option<MethodInfo>)
    requires MapperWellFormed(tt, mapper)
    ensures r.Some? <==> Converts(tt, mapper, m)
    ensures r.Some? ==> MethodInfoOf(tt, naming, mapper, m, r.value)
  {
    if m.hasSelect {
      return None;
    }
    var params := ConvertParams(tt, naming, mapper, m.params);
    var ok, typeName, _, isJavaBean, beanFields := Describe(tt, naming, mapper, m.returnType);
    if !ok {
      return None;
    }
    r := Some(MethodInfo(m.name, params, Return(typeName, isJavaBean, beanFields)));
  }

  // ----- parse -----

  /** The collected methods that pass the filters and convert, in collection order. */
  ghost function Kept(tt: Table, mapper: string, ms: seq<MethodDecl>): seq<MethodDecl>
    requires MapperWellFormed(tt, mapper)
  {
    if ms == [] then []
    else
      var ks := Kept(tt, mapper, ms[..|ms| - 1]);
      var m := ms[|ms| - 1];
      if PassesFilters(m) && Converts(tt, mapper, m) then ks + [m] else ks
  }

  /** `infos` are the MethodInfos of the kept methods of `ms`, in order. */
  ghost predicate InfosOf(tt: Table, naming: Naming, mapper: string, ms: seq<MethodDecl>, infos: seq<MethodInfo>)
    requires MapperWellFormed(tt, mapper)
  {
    var ks := Kept(tt, mapper, ms);
    |infos| == |ks| && forall k :: 0 <= k < |ks| ==> MethodInfoOf(tt, naming, mapper, ks[k], infos[k])
  }

  /** One more collected method: its MethodInfo joins the list exactly when it is kept. */
  lemma InfosOfSnoc(tt: Table, naming: Naming, mapper: string, ms: seq<MethodDecl>, i: nat,
                    infos: seq<MethodInfo>, next: Option<MethodInfo>)
    requires MapperWellFormed(tt, mapper) && i < |ms|
    requires InfosOf(tt, naming, mapper, ms[..i], infos)
    requires next.Some? <==> PassesFilters(ms[i]) && Converts(tt, mapper, ms[i])
    requires next.Some? ==> MethodInfoOf(tt, naming, mapper, ms[i], next.value)
    ensures InfosOf(tt, naming, mapper, ms[..i + 1], if next.Some? then infos + [next.value] else infos)
  {
    assert ms[..i + 1][..i] == ms[..i];
  }

  /** The stream's work for one collected method: the filters, then convert. */
  method ParseOne(tt: Table, naming: Naming, mapper: string, m: MethodDecl) returns (next: Option<MethodInfo>)
    requires MapperWellFormed(tt, mapper)
    ensures next.Some? <==> PassesFilters(m) && Converts(tt, mapper, m)
    ensures next.Some? ==> MethodInfoOf(tt, naming, mapper, m, next.value)
  {
    var pass := FilterMethodElement(m);
    if pass {
      next := Convert(tt, naming, m, mapper);
    } else {
      next := None;
    }
  }

  /** parse: collect, filter, convert, and drop the methods that yield no MethodInfo. */
  method Parse(tt: Table, mapper: string, naming: Naming) returns (infos: seq<MethodInfo>)
    requires MapperWellFormed(tt, mapper)
    ensures InfosOf(tt, naming, mapper, Collected(tt, mapper), infos)
  {
    var ms := CollectMethodElements(tt, mapper);
    infos := [];
    var i := 0;
    while i < |ms|
      invariant 0 <= i <= |ms|
      invariant InfosOf(tt, naming, mapper, ms[..i], infos)
    {
      var next := ParseOne(tt, naming, mapper, ms[i]);
      InfosOfSnoc(tt, naming, mapper, ms, i, infos, next);
      if next.Some? {
        infos := infos + [next.value];
      }
      i := i + 1;
    }
    assert ms[..|ms|] == ms;
  }
}
