/** What parse guarantees about the MethodInfos it returns. */
module BinderFacts {
  import opened TypeTable
  import opened Beans
  import opened Descriptor
  import opened Binder

  /** A parameter is kept iff its type resolves; the kept ones keep their order. */
  lemma {:induction false} ResolvableMember(tt: Table, mapper: string, ps: seq<ParamDecl>, p: ParamDecl)
    requires MapperWellFormed(tt, mapper)
    ensures |Resolvable(tt, mapper, ps)| <= |ps|
    ensures p in Resolvable(tt, mapper, ps) <==> p in ps && Resolves(tt, mapper, p.paramType)
    decreases |ps|
  {
    if ps != [] {
      var init := ps[..|ps| - 1];
      ResolvableMember(tt, mapper, init, p);
      assert ps == init + [ps[|ps| - 1]];
    }
  }

  /** A method is kept iff it was collected, passes the filters, has no @Select and its
      return type resolves. */
  lemma {:induction false} KeptMember(tt: Table, mapper: string, ms: seq<MethodDecl>, m: MethodDecl)
    requires MapperWellFormed(tt, mapper)
    ensures m in Kept(tt, mapper, ms) <==> m in ms && PassesFilters(m) && Converts(tt, mapper, m)
    decreases |ms|
  {
    if ms != [] {
      var init := ms[..|ms| - 1];
      KeptMember(tt, mapper, init, m);
      assert ms == init + [ms[|ms| - 1]];
    }
  }

  /** Keeping a subsequence of distinct methods leaves them distinct. */
  lemma {:induction false} KeptDistinct(tt: Table, mapper: string, ms: seq<MethodDecl>)
    requires MapperWellFormed(tt, mapper)
    requires NoDuplicates(ms)
    ensures NoDuplicates(Kept(tt, mapper, ms))
    decreases |ms|
  {
    if ms != [] {
      var init := ms[..|ms| - 1];
      var m := ms[|ms| - 1];
      KeptDistinct(tt, mapper, init);
      var ks := Kept(tt, mapper, init);
      if PassesFilters(m) && Converts(tt, mapper, m) {
        forall k | 0 <= k < |ks| ensures ks[k] != m {
          KeptMember(tt, mapper, init, ks[k]);
          var j :| 0 <= j < |init| && init[j] == ks[k];
          assert ms[j] == init[j];
        }
      }
    }
  }

  /** What parse returns: one MethodInfo per kept method, each made from a distinct
      collected method that survives the filters and has no @Select, in collection order;
      and a collected method that passes all of that always appears. */
  lemma ParseFacts(tt: Table, naming: Naming, mapper: string, infos: seq<MethodInfo>, m: MethodDecl)
    requires MapperWellFormed(tt, mapper)
    requires InfosOf(tt, naming, mapper, Collected(tt, mapper), infos)
    ensures var ks := Kept(tt, mapper, Collected(tt, mapper));
            NoDuplicates(ks) &&
            (forall k :: 0 <= k < |infos| ==>
               ks[k] in Collected(tt, mapper) && PassesFilters(ks[k]) && !ks[k].hasSelect &&
               infos[k].name == ks[k].name) &&
            (m in Collected(tt, mapper) && PassesFilters(m) && Converts(tt, mapper, m) ==>
               exists k :: 0 <= k < |infos| && ks[k] == m && infos[k].name == m.name)
  {
    var c := Collected(tt, mapper);
    var ks := Kept(tt, mapper, c);
    CollectedFacts(tt, mapper, m);
    KeptDistinct(tt, mapper, c);
    forall k | 0 <= k < |infos|
      ensures ks[k] in c && PassesFilters(ks[k]) && !ks[k].hasSelect && infos[k].name == ks[k].name
    {
      KeptMember(tt, mapper, c, ks[k]);
    }
    KeptMember(tt, mapper, c, m);
  }
}
