/** The supertype walk of TypeDescriptor: collectSupertypes with its visited set,
    the recursive isIterable test and the java.* prefix test. */
module Hierarchy {
  import opened TypeTable

  /** `s` and everything above it are in `r`. */
  ghost predicate Expanded(tt: Table, s: TypeRef, r: set<TypeRef>)
    requires WellFormed(tt)
  {
    Closure(tt, s) <= r
  }

  /** Every member of `r` is expanded, except members of `acc` that lie above `t` or are `t`. */
  ghost predicate ExpandedBut(tt: Table, r: set<TypeRef>, acc: set<TypeRef>, t: TypeRef, self: bool)
    requires WellFormed(tt)
  {
    forall s :: s in r ==> Expanded(tt, s, r) || (s in acc && (Rank(tt, s) > Rank(tt, t) || (self && s == t)))
  }

  lemma DirectInClosure(tt: Table, t: TypeRef, k: nat)
    requires WellFormed(tt)
    requires k < |DirectSupertypes(tt, t)|
    ensures var sup := DirectSupertypes(tt, t)[k];
            sup in Closure(tt, t) && Closure(tt, sup) <= Closure(tt, t)
  {
    var sup := DirectSupertypes(tt, t)[k];
    ClosureMember(tt, t, sup);
    forall x | x in Closure(tt, sup) ensures x in Closure(tt, t) {
      ClosureMember(tt, t, x);
    }
  }

  lemma ClosureCovered(tt: Table, t: TypeRef, r: set<TypeRef>)
    requires WellFormed(tt)
    requires var ds := DirectSupertypes(tt, t);
             forall j :: 0 <= j < |ds| ==> ds[j] in r && Expanded(tt, ds[j], r)
    ensures Closure(tt, t) <= r
  {
    var ds := DirectSupertypes(tt, t);
    forall s | s in Closure(tt, t) ensures s in r {
      ClosureMember(tt, t, s);
      var j :| 0 <= j < |ds| && (s == ds[j] || s in Closure(tt, ds[j]));
      assert Expanded(tt, ds[j], r);
    }
  }

  lemma ExpandedGrows(tt: Table, s: TypeRef, r: set<TypeRef>, r': set<TypeRef>)
    requires WellFormed(tt) && r <= r' && Expanded(tt, s, r)
    ensures Expanded(tt, s, r')
  {
  }

  /** After expanding `sup` (a direct supertype of `t`) starting from `r + {sup}`, the
      walk's invariant for `t` holds again. */
  lemma StepKeeps(tt: Table, t: TypeRef, acc: set<TypeRef>, r: set<TypeRef>, sup: TypeRef, r': set<TypeRef>)
    requires WellFormed(tt)
    requires Rank(tt, sup) < Rank(tt, t)
    requires ExpandedBut(tt, r, acc, t, true)
    requires r + {sup} <= r'
    requires ExpandedBut(tt, r', r + {sup}, sup, false)
    ensures ExpandedBut(tt, r', acc, t, true)
  {
    forall s | s in r' && !Expanded(tt, s, r')
      ensures s in acc && (Rank(tt, s) > Rank(tt, t) || s == t)
    {
      assert s in r + {sup} && Rank(tt, s) > Rank(tt, sup);
      assert s in r;
      if Expanded(tt, s, r) {
        ExpandedGrows(tt, s, r, r');
      }
    }
  }

  /** The first `i` direct supertypes are in `r` and fully expanded there. */
  ghost predicate DoneUpTo(tt: Table, ds: seq<TypeRef>, i: int, r: set<TypeRef>)
    requires WellFormed(tt)
  {
    forall j :: 0 <= j < i && j < |ds| ==> ds[j] in r && Expanded(tt, ds[j], r)
  }

  /** Before recursing into a new direct supertype `sup`: it ranks below `t`, and the
      walk's invariant holds for `sup` once it is added. */
  lemma EnterStep(tt: Table, t: TypeRef, acc: set<TypeRef>, r: set<TypeRef>, i: nat)
    requires WellFormed(tt) && i < |DirectSupertypes(tt, t)|
    requires ExpandedBut(tt, r, acc, t, true)
    ensures var sup := DirectSupertypes(tt, t)[i];
            Rank(tt, sup) < Rank(tt, t) && ExpandedBut(tt, r + {sup}, r + {sup}, sup, true)
  {
    var sup := DirectSupertypes(tt, t)[i];
    forall s | s in r + {sup}
      ensures Expanded(tt, s, r + {sup}) || (s in r + {sup} && (Rank(tt, s) > Rank(tt, sup) || s == sup))
    {
      if s != sup && Expanded(tt, s, r) {
        ExpandedGrows(tt, s, r, r + {sup});
      }
    }
  }

  /** After the recursion into `sup` returned `rn`, the loop's invariant holds for `i + 1`. */
  lemma AfterStep(tt: Table, t: TypeRef, acc: set<TypeRef>, r: set<TypeRef>, i: nat, rn: set<TypeRef>)
    requires WellFormed(tt) && i < |DirectSupertypes(tt, t)|
    requires acc <= r <= acc + Closure(tt, t)
    requires DoneUpTo(tt, DirectSupertypes(tt, t), i, r)
    requires ExpandedBut(tt, r, acc, t, true)
    requires var sup := DirectSupertypes(tt, t)[i];
             Rank(tt, sup) < Rank(tt, t) &&
             r + {sup} <= rn <= r + {sup} + Closure(tt, sup) && Closure(tt, sup) <= rn &&
             ExpandedBut(tt, rn, r + {sup}, sup, false)
    ensures acc <= rn <= acc + Closure(tt, t)
    ensures DoneUpTo(tt, DirectSupertypes(tt, t), i + 1, rn)
    ensures ExpandedBut(tt, rn, acc, t, true)
  {
    var ds := DirectSupertypes(tt, t);
    var sup := ds[i];
    DirectInClosure(tt, t, i);
    StepKeeps(tt, t, acc, r, sup, rn);
    forall j | 0 <= j < i + 1 && j < |ds| ensures ds[j] in rn && Expanded(tt, ds[j], rn) {
      if j < i {
        ExpandedGrows(tt, ds[j], r, rn);
      }
    }
  }

  /** A direct supertype already collected is already fully expanded. */
  lemma SkipStep(tt: Table, t: TypeRef, acc: set<TypeRef>, r: set<TypeRef>, i: nat)
    requires WellFormed(tt) && i < |DirectSupertypes(tt, t)|
    requires DoneUpTo(tt, DirectSupertypes(tt, t), i, r)
    requires ExpandedBut(tt, r, acc, t, true)
    requires DirectSupertypes(tt, t)[i] in r
    ensures DoneUpTo(tt, DirectSupertypes(tt, t), i + 1, r)
  {
    var ds := DirectSupertypes(tt, t);
    assert Rank(tt, ds[i]) < Rank(tt, t);
    assert Expanded(tt, ds[i], r);
  }

  /** Depth-first walk that adds every supertype of `t` not yet in `acc` and recurses into
      it. Members of `acc` that are still being expanded lie higher in the hierarchy than
      `t` (or are `t` itself), so a supertype already in `acc` has been fully expanded. */
  method DoCollectSupertypes(tt: Table, t: TypeRef, acc: set<TypeRef>) returns (r: set<TypeRef>)
    requires WellFormed(tt)
    requires ExpandedBut(tt, acc, acc, t, true)
    ensures acc <= r <= acc + Closure(tt, t)
    ensures Closure(tt, t) <= r
    ensures ExpandedBut(tt, r, acc, t, false)
    decreases Rank(tt, t)
  {
    var ds := DirectSupertypes(tt, t);
    r := acc;
    var i := 0;
    while i < |ds|
      invariant 0 <= i <= |ds|
      invariant acc <= r <= acc + Closure(tt, t)
      invariant DoneUpTo(tt, ds, i, r)
      invariant ExpandedBut(tt, r, acc, t, true)
    {
      var sup := ds[i];
      if sup !in r {
        EnterStep(tt, t, acc, r, i);
        var next := DoCollectSupertypes(tt, sup, r + {sup});
        AfterStep(tt, t, acc, r, i, next);
        r := next;
      } else {
        SkipStep(tt, t, acc, r, i);
      }
      i := i + 1;
    }
    ClosureCovered(tt, t, r);
  }

  /** collectSupertypes: the set of all proper supertypes of `t`. */
  method CollectSupertypes(tt: Table, t: TypeRef) returns (r: set<TypeRef>)
    requires WellFormed(tt)
    ensures r == Closure(tt, t)
  {
    r := DoCollectSupertypes(tt, t, {});
  }

  /** isIterable: the declaration is java.lang.Iterable or its superclass or one of its
      interfaces is iterable. */
  function IsIterable(tt: Table, n: string): bool
    requires WellFormed(tt)
    decreases Height(tt, n), 1
  {
    assert SupersBelow(tt, n);
    n == ITERABLE || AnyIterable(tt, Supers(Lookup(tt, n)), Height(tt, n))
  }

  /** Some type of `ss` (the superclass, then the interfaces) is iterable. */
  function AnyIterable(tt: Table, ss: seq<TypeRef>, h: nat): bool
    requires WellFormed(tt)
    requires forall i :: 0 <= i < |ss| ==> ss[i].Declared? && Height(tt, ss[i].name) < h
    decreases h, 0, |ss|
  {
    if ss == [] then false
    else AnyIterable(tt, ss[..|ss| - 1], h) || IsIterable(tt, ss[|ss| - 1].name)
  }

  lemma {:induction false} AnyIterableExists(tt: Table, ss: seq<TypeRef>, h: nat)
    requires WellFormed(tt)
    requires forall i :: 0 <= i < |ss| ==> ss[i].Declared? && Height(tt, ss[i].name) < h
    ensures AnyIterable(tt, ss, h) <==> exists k :: 0 <= k < |ss| && IsIterable(tt, ss[k].name)
    decreases |ss|
  {
    if ss != [] {
      var init := ss[..|ss| - 1];
      AnyIterableExists(tt, init, h);
      assert forall k :: 0 <= k < |init| ==> init[k] == ss[k];
    }
  }

  /** One unfolding of isIterable, phrased over the substituted direct supertypes. */
  lemma IterableStep(tt: Table, n: string, args: seq<TypeRef>)
    requires WellFormed(tt)
    ensures var ds := DirectSupertypes(tt, Declared(n, args));
            IsIterable(tt, n) <==> n == ITERABLE || exists k :: 0 <= k < |ds| && IsIterable(tt, ds[k].name)
  {
    var d := Lookup(tt, n);
    var ss := Supers(d);
    var ds := DirectSupertypes(tt, Declared(n, args));
    assert SupersBelow(tt, n);
    forall k | 0 <= k < |ds| ensures ds[k].name == ss[k].name {
      assert ss[k] in Supers(d);
    }
    AnyIterableExists(tt, ss, Height(tt, n));
  }

  /** The recursion over declared superclasses and interfaces agrees with the substituted
      supertype closure: a type is iterable iff it is java.lang.Iterable or some proper
      supertype of it is. */
  lemma {:induction false} IterableViaClosure(tt: Table, n: string, args: seq<TypeRef>)
    requires WellFormed(tt)
    ensures IsIterable(tt, n) <==>
            n == ITERABLE || exists s :: s in Closure(tt, Declared(n, args)) && IsNamed(s, ITERABLE)
    decreases Height(tt, n)
  {
    var t := Declared(n, args);
    var ds := DirectSupertypes(tt, t);
    IterableStep(tt, n, args);
    forall k | 0 <= k < |ds|
      ensures IsIterable(tt, ds[k].name) <==>
              IsNamed(ds[k], ITERABLE) || exists s :: s in Closure(tt, ds[k]) && IsNamed(s, ITERABLE)
    {
      IterableViaClosure(tt, ds[k].name, ds[k].args);
    }
    if exists s :: s in Closure(tt, t) && IsNamed(s, ITERABLE) {
      var s :| s in Closure(tt, t) && IsNamed(s, ITERABLE);
      ClosureMember(tt, t, s);
      var k :| 0 <= k < |ds| && (s == ds[k] || s in Closure(tt, ds[k]));
      assert IsIterable(tt, ds[k].name);
    }
    if exists k :: 0 <= k < |ds| && IsIterable(tt, ds[k].name) {
      var k :| 0 <= k < |ds| && IsIterable(tt, ds[k].name);
      if IsNamed(ds[k], ITERABLE) {
        ClosureMember(tt, t, ds[k]);
      } else {
        var s :| s in Closure(tt, ds[k]) && IsNamed(s, ITERABLE);
        ClosureMember(tt, t, s);
      }
    }
  }

  /** The platform namespaces whose declared types are opaque leaves. */
  const JAVA_PREFIXES: seq<string> := [
    "java.applet", "java.awt", "java.beans", "java.io", "java.lang", "java.math", "java.net",
    "java.nio", "java.rmi", "java.security", "java.sql", "java.text", "java.time", "java.util"]

  /** isJavaDeclared: the qualified name starts with one of the listed prefixes. */
  predicate IsJavaDeclared(n: string) {
    exists i | 0 <= i < |JAVA_PREFIXES| :: JAVA_PREFIXES[i] <= n
  }

  /** Every opaque name lies under "java."; the test is a plain string-prefix test, so
      a name such as "java.utilities.Order" also counts, while "javax." names do not. */
  lemma JavaDeclaredShape(n: string)
    ensures IsJavaDeclared(n) ==> "java." <= n
    ensures IsJavaDeclared("java.utilities.Order")
    ensures !IsJavaDeclared("javax.sql.DataSource")
  {
    if IsJavaDeclared(n) {
      var i :| 0 <= i < |JAVA_PREFIXES| && JAVA_PREFIXES[i] <= n;
      assert JAVA_PREFIXES[i][..5] == "java.";
    }
    assert JAVA_PREFIXES[13] <= "java.utilities.Order";
    assert forall i :: 0 <= i < |JAVA_PREFIXES| ==> JAVA_PREFIXES[i][4] == '.';
  }
}
