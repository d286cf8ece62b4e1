/** The bean introspection of TypeDescriptor.parseJavaBean: the field table (first seen
    wins), the getter and setter stems, and the filter that keeps fields having both. */
module Beans {
  import opened Optional
  import opened TypeTable
  import opened Hierarchy

  /** A bean property: its field name, its mapped (column) name and the generated-key mark. */
  datatype BeanField = BeanField(name: string, fieldName: string, useGeneratedKeys: bool)

  /** NamingConverter.convert and StringUtils.upperCamelToLowerCamel, whose definitions are
      not part of this model, as two given string functions. */
  datatype Naming = Naming(convert: string -> string, lowerCamel: string -> string)

  /** The @FieldName value if present, otherwise the converted name. */
  function MappedName(naming: Naming, annotated: Option<string>, name: string): string {
    if annotated.Some? then annotated.value else naming.convert(naming.lowerCamel(name))
  }

  // ----- Introspector.decapitalize (section 8.8 of the JavaBeans 1.01 specification) -----

  predicate IsUpper(c: char) { 'A' <= c <= 'Z' }

  function ToLower(c: char): (r: char)
    ensures !IsUpper(r)
    ensures !IsUpper(c) ==> r == c
  {
    if IsUpper(c) then (c as int - 'A' as int + 'a' as int) as char else c
  }

  function ToUpper(c: char): char {
    if 'a' <= c <= 'z' then (c as int - 'a' as int + 'A' as int) as char else c
  }

  /** A name whose first two characters are upper case is left alone; otherwise its first
      character is lower-cased. */
  function Decapitalize(s: string): (r: string)
    ensures |r| == |s|
    ensures |s| > 0 ==> r[1..] == s[1..]
    ensures |s| > 1 && IsUpper(s[0]) && IsUpper(s[1]) ==> r == s
    ensures !(|s| > 1 && IsUpper(s[0]) && IsUpper(s[1])) && |s| > 0 ==> r[0] == ToLower(s[0])
  {
    if |s| == 0 then s
    else if |s| > 1 && IsUpper(s[1]) && IsUpper(s[0]) then s
    else [ToLower(s[0])] + s[1..]
  }

  /** The accessor stem an IDE generates for a field: its first letter upper-cased. */
  function Capitalize(s: string): string {
    if |s| == 0 then s else [ToUpper(s[0])] + s[1..]
  }

  /** Decapitalizing twice changes nothing more than decapitalizing once. */
  lemma DecapitalizeIdempotent(s: string)
    ensures Decapitalize(Decapitalize(s)) == Decapitalize(s)
  {
  }

  /** A field whose name starts with a lower-case letter is found again from its generated
      accessor stem exactly when its second character is not upper case: for a field such
      as "xCoord" the stem "XCoord" is left alone, so the field has no getter or setter. */
  lemma CapitalizeRoundTrip(f: string)
    requires |f| > 0 && 'a' <= f[0] <= 'z'
    ensures Decapitalize(Capitalize(f)) == f <==> !(|f| > 1 && IsUpper(f[1]))
  {
    var c := Capitalize(f);
    assert IsUpper(c[0]);
    if !(|f| > 1 && IsUpper(f[1])) {
      assert Decapitalize(c) == [ToLower(c[0])] + f[1..];
      assert ToLower(c[0]) == f[0];
    } else {
      assert Decapitalize(c)[0] != f[0];
    }
  }

  // ----- Accessor stems: "^get(.+)$" and "^set(.+)$" -----

  /** The decapitalized rest of a method named "get" followed by at least one character. */
  function GetterStem(m: string): Option<string> {
    if |m| > 3 && m[..3] == "get" then Some(Decapitalize(m[3..])) else None
  }

  /** The setter pattern is tried only when the getter pattern does not match. */
  function SetterStem(m: string): Option<string> {
    if GetterStem(m).None? && |m| > 3 && m[..3] == "set" then Some(Decapitalize(m[3..])) else None
  }

  lemma StemExamples()
    ensures GetterStem("getName") == Some("name")
    ensures GetterStem("getURL") == Some("URL")
    ensures GetterStem("get") == None && SetterStem("set") == None
    ensures GetterStem("isActive") == None && SetterStem("isActive") == None
    ensures SetterStem("setAge") == Some("age")
  {
    assert "getName"[..3] == "get" && "getName"[3..] == "Name";
    assert Decapitalize("Name") == [ToLower('N')] + "ame";
    assert ToLower('N') == 'n' && ['n'] + "ame" == "name";
    assert "getURL"[..3] == "get" && "getURL"[3..] == "URL";
    assert "setAge"[..3] == "set" && "setAge"[3..] == "Age";
    assert "setAge"[..3] != "get" by { assert "setAge"[..3][0] == 's'; }
    assert Decapitalize("Age") == [ToLower('A')] + "ge";
    assert ToLower('A') == 'a' && ['a'] + "ge" == "age";
    assert "isActive"[..3][0] == 'i';
  }

  // ----- Specification of the three passes over the walk -----

  /** Members of the walked declarations, in walk order (getAllMembers of each). */
  function MembersOf(tt: Table, walk: seq<string>): seq<Member> {
    if walk == [] then [] else MembersOf(tt, walk[..|walk| - 1]) + Lookup(tt, walk[|walk| - 1]).members
  }

  function FieldNames(t: seq<BeanField>): (r: seq<string>)
    ensures |r| == |t| && forall i :: 0 <= i < |t| ==> r[i] == t[i].name
  {
    seq(|t|, i requires 0 <= i < |t| => t[i].name)
  }

  function ToBeanField(naming: Naming, f: FieldDecl): BeanField {
    BeanField(f.name, MappedName(naming, f.fieldName, f.name), f.generatedKey)
  }

  /** The LinkedHashMap of fields: a field whose name is already present is ignored. */
  function FieldTable(naming: Naming, ms: seq<Member>): seq<BeanField> {
    if ms == [] then []
    else
      var t := FieldTable(naming, ms[..|ms| - 1]);
      var m := ms[|ms| - 1];
      if m.FieldMember? && m.field.name !in FieldNames(t) then t + [ToBeanField(naming, m.field)] else t
  }

  /** The stems `stem` finds among the method names of `ms`. */
  function StemSet(ms: seq<Member>, stem: string -> Option<string>): set<string> {
    if ms == [] then {}
    else
      var g := StemSet(ms[..|ms| - 1], stem);
      var m := ms[|ms| - 1];
      if m.MethodMember? && stem(m.meth.name).Some? then g + {stem(m.meth.name).value} else g
  }

  /** The set of getter stems of the methods among `ms`. */
  function GetterStems(ms: seq<Member>): set<string> {
    StemSet(ms, GetterStem)
  }

  /** The set of setter stems of the methods among `ms`. */
  function SetterStems(ms: seq<Member>): set<string> {
    StemSet(ms, SetterStem)
  }

  /** The entries whose raw name is both a getter stem and a setter stem, in order. */
  function Keep(t: seq<BeanField>, getters: set<string>, setters: set<string>): seq<BeanField> {
    if t == [] then []
    else
      var k := Keep(t[..|t| - 1], getters, setters);
      var e := t[|t| - 1];
      if e.name in getters && e.name in setters then k + [e] else k
  }

  /** The bean fields that result from walking the declarations of `walk` in that order. */
  function BeanFieldsSpec(tt: Table, naming: Naming, walk: seq<string>): seq<BeanField> {
    var ms := MembersOf(tt, walk);
    Keep(FieldTable(naming, ms), GetterStems(ms), SetterStems(ms))
  }

  function Reverse<T>(s: seq<T>): (r: seq<T>)
    ensures |r| == |s| && forall i :: 0 <= i < |s| ==> r[i] == s[|s| - 1 - i]
  {
    if s == [] then [] else Reverse(s[1..]) + [s[0]]
  }

  function DeclName(t: TypeRef): string {
    if t.Declared? then t.name else ""
  }

  /** The walk of parseJavaBean: the ancestors in the reverse of the set's iteration order,
      then the type itself. */
  function BeanWalk(order: seq<TypeRef>, n: string): (r: seq<string>)
    ensures |r| == |order| + 1 && r[|order|] == n
    ensures forall i :: 0 <= i < |order| ==> r[i] == DeclName(order[|order| - 1 - i])
  {
    Reverse(seq(|order|, i requires 0 <= i < |order| => DeclName(order[i]))) + [n]
  }

  /** `order` lists the elements of `s`, each once, in some order (a HashSet's iteration). */
  ghost predicate Enumerates(order: seq<TypeRef>, s: set<TypeRef>) {
    multiset(order) == multiset(s)
  }

  /** `fs` is what parseJavaBean can record for the declaration `n`, for some iteration
      order of its supertype set. */
  ghost predicate BeanFieldsOf(tt: Table, naming: Naming, n: string, fs: seq<BeanField>)
    requires WellFormed(tt)
  {
    exists order :: Enumerates(order, Closure(tt, ElementType(tt, n)))
                    && fs == BeanFieldsSpec(tt, naming, BeanWalk(order, n))
  }

  // ----- parseJavaBean -----

  lemma MembersOfSnoc(tt: Table, walk: seq<string>, i: nat)
    requires i < |walk|
    ensures MembersOf(tt, walk[..i + 1]) == MembersOf(tt, walk[..i]) + Lookup(tt, walk[i]).members
  {
    assert walk[..i + 1][..i] == walk[..i];
  }

  lemma PrefixSnoc<T>(base: seq<T>, xs: seq<T>, j: nat)
    requires j < |xs|
    ensures (base + xs[..j + 1])[..|base| + j] == base + xs[..j]
    ensures (base + xs[..j + 1])[|base| + j] == xs[j]
  {
  }

  /** First loop: the field table over the walked declarations' members. */
  method BuildFieldTable(tt: Table, naming: Naming, walk: seq<string>) returns (table: seq<BeanField>)
    ensures table == FieldTable(naming, MembersOf(tt, walk))
  {
    table := [];
    var i := 0;
    while i < |walk|
      invariant 0 <= i <= |walk|
      invariant table == FieldTable(naming, MembersOf(tt, walk[..i]))
    {
      var members := Lookup(tt, walk[i]).members;
      ghost var base := MembersOf(tt, walk[..i]);
      assert base + members[..0] == base;
      var j := 0;
      while j < |members|
        invariant 0 <= j <= |members|
        invariant table == FieldTable(naming, base + members[..j])
      {
        var m := members[j];
        PrefixSnoc(base, members, j);
        if m.FieldMember? && m.field.name !in FieldNames(table) {
          table := table + [ToBeanField(naming, m.field)];
        }
        j := j + 1;
      }
      assert members[..j] == members;
      MembersOfSnoc(tt, walk, i);
      i := i + 1;
    }
    assert walk[..i] == walk;
  }

  lemma GetterStemsSnoc(ms: seq<Member>, m: Member)
    ensures GetterStems(ms + [m])
      == if m.MethodMember? && GetterStem(m.meth.name).Some? then GetterStems(ms) + {GetterStem(m.meth.name).value} else GetterStems(ms)
  {
    assert (ms + [m])[..|ms|] == ms;
  }

  lemma SetterStemsSnoc(ms: seq<Member>, m: Member)
    ensures SetterStems(ms + [m])
      == if m.MethodMember? && SetterStem(m.meth.name).Some? then SetterStems(ms) + {SetterStem(m.meth.name).value} else SetterStems(ms)
  {
    assert (ms + [m])[..|ms|] == ms;
  }

  /** Second loop, over the members of one declaration. */
  method AddStems(members: seq<Member>, ghost base: seq<Member>, g0: set<string>, s0: set<string>)
    returns (getters: set<string>, setters: set<string>)
    requires g0 == GetterStems(base) && s0 == SetterStems(base)
    ensures getters == GetterStems(base + members) && setters == SetterStems(base + members)
  {
    getters, setters := g0, s0;
    assert base + members[..0] == base;
    var j := 0;
    while j < |members|
      invariant 0 <= j <= |members|
      invariant getters == GetterStems(base + members[..j])
      invariant setters == SetterStems(base + members[..j])
    {
      var m := members[j];
      assert base + members[..j + 1] == (base + members[..j]) + [m];
      GetterStemsSnoc(base + members[..j], m);
      SetterStemsSnoc(base + members[..j], m);
      if m.MethodMember? {
        var g := GetterStem(m.meth.name);
        if g.Some? {
          getters := getters + {g.value};
        } else {
          var st := SetterStem(m.meth.name);
          if st.Some? {
            setters := setters + {st.value};
          }
        }
      }
      j := j + 1;
    }
    assert members[..j] == members;
  }

  /** Second loop: the getter and setter stem sets over the same members. */
  method CollectStems(tt: Table, walk: seq<string>) returns (getters: set<string>, setters: set<string>)
    ensures getters == GetterStems(MembersOf(tt, walk))
    ensures setters == SetterStems(MembersOf(tt, walk))
  {
    getters, setters := {}, {};
    var i := 0;
    while i < |walk|
      invariant 0 <= i <= |walk|
      invariant getters == GetterStems(MembersOf(tt, walk[..i]))
      invariant setters == SetterStems(MembersOf(tt, walk[..i]))
    {
      getters, setters := AddStems(Lookup(tt, walk[i]).members, MembersOf(tt, walk[..i]), getters, setters);
      MembersOfSnoc(tt, walk, i);
      i := i + 1;
    }
    assert walk[..i] == walk;
  }

  /** Third loop: the entries having both a getter stem and a setter stem. */
  method KeepAccessible(table: seq<BeanField>, getters: set<string>, setters: set<string>)
    returns (fields: seq<BeanField>)
    ensures fields == Keep(table, getters, setters)
  {
    fields := [];
    var i := 0;
    while i < |table|
      invariant 0 <= i <= |table|
      invariant fields == Keep(table[..i], getters, setters)
    {
      assert table[..i + 1][..i] == table[..i];
      if table[i].name in getters && table[i].name in setters {
        fields := fields + [table[i]];
      }
      i := i + 1;
    }
    assert table[..i] == table;
  }

  /** Iterating over a HashSet: the elements in an order that is not determined. */
  method Enumerate(s: set<TypeRef>) returns (order: seq<TypeRef>)
    ensures Enumerates(order, s)
  {
    order := [];
    var rest := s;
    while rest != {}
      invariant rest <= s
      invariant multiset(order) + multiset(rest) == multiset(s)
      decreases |rest|
    {
      var x :| x in rest;
      assert multiset(rest) == multiset(rest - {x}) + multiset{x};
      order := order + [x];
      rest := rest - {x};
    }
  }

  /** parseJavaBean for declaration `n`: walk its supertypes (reversed iteration order)
      and then `n` itself, build the field table and keep the accessible fields. */
  method ParseJavaBean(tt: Table, naming: Naming, n: string) returns (fields: seq<BeanField>)
    requires WellFormed(tt)
    ensures BeanFieldsOf(tt, naming, n, fields)
  {
    var sups := CollectSupertypes(tt, ElementType(tt, n));
    var order := Enumerate(sups);
    var names := seq(|order|, i requires 0 <= i < |order| => DeclName(order[i]));
    var walk := Reverse(names) + [n];
    assert walk == BeanWalk(order, n);
    var table := BuildFieldTable(tt, naming, walk);
    var getters, setters := CollectStems(tt, walk);
    fields := KeepAccessible(table, getters, setters);
  }
}
