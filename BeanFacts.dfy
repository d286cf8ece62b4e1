/** What parseJavaBean guarantees about the fields it records. */
module BeanFacts {
  import opened Optional
  import opened TypeTable
  import opened Hierarchy
  import opened Beans

  predicate UniqueNames(t: seq<BeanField>) {
    forall i, j :: 0 <= i < j < |t| ==> t[i].name != t[j].name
  }

  /** A field name is in the table iff some walked member is a field with that name. */
  lemma {:induction false} FieldTableNames(naming: Naming, ms: seq<Member>, n: string)
    ensures n in FieldNames(FieldTable(naming, ms)) <==>
            exists k :: 0 <= k < |ms| && ms[k].FieldMember? && ms[k].field.name == n
    decreases |ms|
  {
    if ms != [] {
      var init := ms[..|ms| - 1];
      FieldTableNames(naming, init, n);
      assert forall k :: 0 <= k < |init| ==> init[k] == ms[k];
      var t := FieldTable(naming, init);
      var m := ms[|ms| - 1];
      if m.FieldMember? && m.field.name !in FieldNames(t) {
        assert FieldNames(t + [ToBeanField(naming, m.field)]) == FieldNames(t) + [m.field.name];
      }
    }
  }

  /** Each field name appears at most once in the table. */
  lemma {:induction false} FieldTableUnique(naming: Naming, ms: seq<Member>)
    ensures UniqueNames(FieldTable(naming, ms))
    decreases |ms|
  {
    if ms != [] {
      var init := ms[..|ms| - 1];
      FieldTableUnique(naming, init);
      var t := FieldTable(naming, init);
      var m := ms[|ms| - 1];
      if m.FieldMember? && m.field.name !in FieldNames(t) {
        var t' := t + [ToBeanField(naming, m.field)];
        forall i, j | 0 <= i < j < |t'| ensures t'[i].name != t'[j].name {
          if j == |t| {
            assert FieldNames(t)[i] == t[i].name;
          }
        }
      }
    }
  }

  /** First seen wins: the first field member with a given name is the entry recorded
      for that name, with its mapped name and generated-key mark. */
  lemma {:induction false} FieldTableFirstSeen(naming: Naming, ms: seq<Member>, k: nat)
    requires k < |ms| && ms[k].FieldMember?
    requires forall j :: 0 <= j < k ==> !(ms[j].FieldMember? && ms[j].field.name == ms[k].field.name)
    ensures ToBeanField(naming, ms[k].field) in FieldTable(naming, ms)
    decreases |ms|
  {
    var init := ms[..|ms| - 1];
    if k == |ms| - 1 {
      FieldTableNames(naming, init, ms[k].field.name);
      assert forall j :: 0 <= j < |init| ==> init[j] == ms[j];
    } else {
      assert forall j :: 0 <= j < |init| ==> init[j] == ms[j];
      FieldTableFirstSeen(naming, init, k);
    }
  }

  /** The table keeps insertion order: the recorded entries of a prefix of the members
      form a prefix of the table. */
  lemma {:induction false} FieldTablePrefix(naming: Naming, ms: seq<Member>, p: nat)
    requires p <= |ms|
    ensures FieldTable(naming, ms[..p]) <= FieldTable(naming, ms)
    decreases |ms|
  {
    if p < |ms| {
      var init := ms[..|ms| - 1];
      assert init[..p] == ms[..p];
      FieldTablePrefix(naming, init, p);
    } else {
      assert ms[..p] == ms;
    }
  }

  lemma {:induction false} StemSetMember(ms: seq<Member>, stem: string -> Option<string>, x: string)
    ensures x in StemSet(ms, stem) <==>
            exists k :: 0 <= k < |ms| && ms[k].MethodMember? && stem(ms[k].meth.name) == Some(x)
    decreases |ms|
  {
    if ms != [] {
      var init := ms[..|ms| - 1];
      StemSetMember(init, stem, x);
      assert forall k :: 0 <= k < |init| ==> init[k] == ms[k];
    }
  }

  lemma GetterStemsMember(ms: seq<Member>, x: string)
    ensures x in GetterStems(ms) <==>
            exists k :: 0 <= k < |ms| && ms[k].MethodMember? && GetterStem(ms[k].meth.name) == Some(x)
  {
    StemSetMember(ms, GetterStem, x);
  }

  lemma SetterStemsMember(ms: seq<Member>, x: string)
    ensures x in SetterStems(ms) <==>
            exists k :: 0 <= k < |ms| && ms[k].MethodMember? && SetterStem(ms[k].meth.name) == Some(x)
  {
    StemSetMember(ms, SetterStem, x);
  }

  /** An entry survives iff its raw name is both a getter stem and a setter stem. */
  lemma {:induction false} KeepMember(t: seq<BeanField>, g: set<string>, s: set<string>, e: BeanField)
    ensures e in Keep(t, g, s) <==> e in t && e.name in g && e.name in s
    decreases |t|
  {
    if t != [] {
      var init := t[..|t| - 1];
      KeepMember(init, g, s, e);
      assert t == init + [t[|t| - 1]];
    }
  }

  /** Keeping entries preserves the uniqueness of names. */
  lemma {:induction false} KeepUnique(t: seq<BeanField>, g: set<string>, s: set<string>)
    requires UniqueNames(t)
    ensures UniqueNames(Keep(t, g, s))
    decreases |t|
  {
    if t != [] {
      var init := t[..|t| - 1];
      var e := t[|t| - 1];
      KeepUnique(init, g, s);
      var k := Keep(init, g, s);
      if e.name in g && e.name in s {
        forall i | 0 <= i < |k| ensures k[i].name != e.name {
          KeepMember(init, g, s, k[i]);
          var j :| 0 <= j < |init| && init[j] == k[i];
        }
      }
    }
  }

  /** The recorded bean fields: unique names, and a field is recorded iff it is in the
      field table and its raw name has both a getter stem and a setter stem. */
  lemma BeanFieldsSpecShape(tt: Table, naming: Naming, walk: seq<string>, e: BeanField)
    ensures UniqueNames(BeanFieldsSpec(tt, naming, walk))
    ensures var ms := MembersOf(tt, walk);
            e in BeanFieldsSpec(tt, naming, walk) <==>
            e in FieldTable(naming, ms) && e.name in GetterStems(ms) && e.name in SetterStems(ms)
  {
    var ms := MembersOf(tt, walk);
    FieldTableUnique(naming, ms);
    KeepUnique(FieldTable(naming, ms), GetterStems(ms), SetterStems(ms));
    KeepMember(FieldTable(naming, ms), GetterStems(ms), SetterStems(ms), e);
  }

  lemma {:induction false} MembersOfMember(tt: Table, walk: seq<string>, m: Member)
    ensures m in MembersOf(tt, walk) <==> exists i :: 0 <= i < |walk| && m in Lookup(tt, walk[i]).members
    decreases |walk|
  {
    if walk != [] {
      var init := walk[..|walk| - 1];
      MembersOfMember(tt, init, m);
      assert forall i :: 0 <= i < |init| ==> init[i] == walk[i];
    }
  }

  lemma WalkNames(order: seq<TypeRef>, n: string, w: string)
    ensures w in BeanWalk(order, n) <==> w == n || exists o :: o in order && DeclName(o) == w
  {
    var walk := BeanWalk(order, n);
    if w in walk && w != n {
      var i :| 0 <= i < |walk| && walk[i] == w;
      assert order[|order| - 1 - i] in order;
    }
    if exists o :: o in order && DeclName(o) == w {
      var o :| o in order && DeclName(o) == w;
      var k :| 0 <= k < |order| && order[k] == o;
      assert walk[|order| - 1 - k] == w;
    }
  }

  lemma EnumeratesMember(order: seq<TypeRef>, c: set<TypeRef>, o: TypeRef)
    requires Enumerates(order, c)
    ensures o in order <==> o in c
  {
    assert o in order <==> o in multiset(order);
    assert o in c <==> o in multiset(c);
  }

  /** Walks over the same declarations see the same members. */
  lemma SameMembers(tt: Table, w1: seq<string>, w2: seq<string>, m: Member)
    requires forall w :: w in w1 <==> w in w2
    ensures m in MembersOf(tt, w1) <==> m in MembersOf(tt, w2)
  {
    MembersOfMember(tt, w1, m);
    MembersOfMember(tt, w2, m);
    if m in MembersOf(tt, w1) {
      var i :| 0 <= i < |w1| && m in Lookup(tt, w1[i]).members;
      assert w1[i] in w2;
    }
    if m in MembersOf(tt, w2) {
      var i :| 0 <= i < |w2| && m in Lookup(tt, w2[i]).members;
      assert w2[i] in w1;
    }
  }

  /** The names that survive depend only on which members were walked, not on their order. */
  lemma BeanNamesOfSameMembers(tt: Table, naming: Naming, w1: seq<string>, w2: seq<string>, x: string)
    requires forall m :: m in MembersOf(tt, w1) <==> m in MembersOf(tt, w2)
    ensures x in FieldNames(BeanFieldsSpec(tt, naming, w1)) <==> x in FieldNames(BeanFieldsSpec(tt, naming, w2))
  {
    var ms1, ms2 := MembersOf(tt, w1), MembersOf(tt, w2);
    KeepNames(FieldTable(naming, ms1), GetterStems(ms1), SetterStems(ms1), x);
    KeepNames(FieldTable(naming, ms2), GetterStems(ms2), SetterStems(ms2), x);
    FieldTableNames(naming, ms1, x);
    FieldTableNames(naming, ms2, x);
    GetterStemsMember(ms1, x);
    GetterStemsMember(ms2, x);
    SetterStemsMember(ms1, x);
    SetterStemsMember(ms2, x);
    SameWitness(ms1, ms2, x);
    SameWitness(ms2, ms1, x);
  }

  /** Whatever a member of `ms1` witnesses, an equal member of `ms2` witnesses too. */
  lemma SameWitness(ms1: seq<Member>, ms2: seq<Member>, x: string)
    requires forall m :: m in ms1 <==> m in ms2
    ensures (exists k :: 0 <= k < |ms1| && ms1[k].FieldMember? && ms1[k].field.name == x) ==>
            (exists k :: 0 <= k < |ms2| && ms2[k].FieldMember? && ms2[k].field.name == x)
    ensures (exists k :: 0 <= k < |ms1| && ms1[k].MethodMember? && GetterStem(ms1[k].meth.name) == Some(x)) ==>
            (exists k :: 0 <= k < |ms2| && ms2[k].MethodMember? && GetterStem(ms2[k].meth.name) == Some(x))
    ensures (exists k :: 0 <= k < |ms1| && ms1[k].MethodMember? && SetterStem(ms1[k].meth.name) == Some(x)) ==>
            (exists k :: 0 <= k < |ms2| && ms2[k].MethodMember? && SetterStem(ms2[k].meth.name) == Some(x))
  {
    forall k | 0 <= k < |ms1| ensures exists k' :: 0 <= k' < |ms2| && ms2[k'] == ms1[k] {
      assert ms1[k] in ms2;
    }
  }

  lemma KeepNames(t: seq<BeanField>, g: set<string>, s: set<string>, x: string)
    ensures x in FieldNames(Keep(t, g, s)) <==> x in FieldNames(t) && x in g && x in s
  {
    var k := Keep(t, g, s);
    if x in FieldNames(k) {
      var i :| 0 <= i < |k| && k[i].name == x;
      KeepMember(t, g, s, k[i]);
      var j :| 0 <= j < |t| && t[j] == k[i];
      assert FieldNames(t)[j] == x;
    }
    if x in FieldNames(t) && x in g && x in s {
      var j :| 0 <= j < |t| && t[j].name == x;
      KeepMember(t, g, s, t[j]);
      var i :| 0 <= i < |k| && k[i] == t[j];
      assert FieldNames(k)[i] == x;
    }
  }

  /** Whatever order the supertype set is iterated in, the same field names are recorded,
      each once. (Which redeclaration wins, and the order of the list, may differ.) */
  lemma BeanNamesIndependentOfOrder(tt: Table, naming: Naming, n: string, fs1: seq<BeanField>, fs2: seq<BeanField>, x: string)
    requires WellFormed(tt)
    requires BeanFieldsOf(tt, naming, n, fs1) && BeanFieldsOf(tt, naming, n, fs2)
    ensures UniqueNames(fs1) && UniqueNames(fs2)
    ensures x in FieldNames(fs1) <==> x in FieldNames(fs2)
  {
    var c := Closure(tt, ElementType(tt, n));
    var o1 :| Enumerates(o1, c) && fs1 == BeanFieldsSpec(tt, naming, BeanWalk(o1, n));
    var o2 :| Enumerates(o2, c) && fs2 == BeanFieldsSpec(tt, naming, BeanWalk(o2, n));
    var w1, w2 := BeanWalk(o1, n), BeanWalk(o2, n);
    forall w ensures w in w1 <==> w in w2 {
      WalkNames(o1, n, w);
      WalkNames(o2, n, w);
      forall o ensures o in o1 <==> o in o2 {
        EnumeratesMember(o1, c, o);
        EnumeratesMember(o2, c, o);
      }
    }
    forall m ensures m in MembersOf(tt, w1) <==> m in MembersOf(tt, w2) {
      SameMembers(tt, w1, w2, m);
    }
    BeanNamesOfSameMembers(tt, naming, w1, w2, x);
    var e: BeanField :| true;
    BeanFieldsSpecShape(tt, naming, w1, e);
    BeanFieldsSpecShape(tt, naming, w2, e);
  }
}
