# auto-mapper: a Dafny model of method parsing and statement bookkeeping

auto-mapper is an annotation processor. For each interface marked as a mapper it
generates MyBatis mapper XML statements (insert, delete, update, select) from method names.
This project models its two core classes.

- **MapperMethodParser** turns a mapper interface into `MethodInfo` records:
  - It collects the interface's methods, its super-interfaces' methods first, each once.
  - It drops native, static, default and `java.lang.Object` methods.
  - It drops methods that carry `@Select`.
  - It resolves each parameter and the return type through `TypeDescriptor.init`. Resolution
    follows primitives, `void`, arrays and iterables (one level only), platform types, type
    variables bound by a supertype of the mapper, and Java beans.
  - For a bean, `parseJavaBean` decides which fields count as properties.
- **Translator** handles the statement bookkeeping:
  - the check of the document's `mapper` root and its namespace;
  - the cache of existing statement ids, built lazily;
  - the early exit of `translate`;
  - creating statement elements with their attributes;
  - the deferred four-node `append`;
  - the `isSelective`, `indent`, `addTextNode` and `addElement` helpers.

The compiler's view of types is modelled as a table. It maps each qualified name to a
declaration: type parameters, superclass, interfaces, the members `getAllMembers` returns,
and a height. The heights stand for the acyclic hierarchy the compiler guarantees.

- `TypeTable` and `Hierarchy` hold the table, the supertype closure, `collectSupertypes`,
  `isIterable` and `isJavaDeclared`.
- `Beans` and `BeanFacts` model `parseJavaBean`.
- `Descriptor` and `DescriptorFacts` model `TypeDescriptor.init`: the `TypeDescriptor`
  class and its ghost specification `InitSpec`.
- `Binder` and `BinderFacts` model collection, filtering, `convert` and `parse`.
- `Demo` works the resolution through the test mapper `DemoMapper extends BaseMapper<DemoDO>`.
  Only DemoMapper.java's own lines (its `extends` clause and `findByName(@Param("name") String name)`)
  come from the repository. The contents of BaseMapper and DemoDO are assumed fixtures:
  - BaseMapper has the single member `int insert(T entity)`.
  - DemoDO has the field `name` with `getName` and `setName`.
  - The member lists leave out the `java.lang.Object` methods that `getAllMembers` would return.
    Of those, only `getClass` matches an accessor pattern. Its getter stem "class" has no field and
    no setter, so it cannot change the recorded fields.
- `Translation` models Translator. Its DOM elements are objects updated in place, so an
  appended element is shared by reference, as in the DOM.

Java `HashSet` iteration order is unspecified, so it is modelled as nondeterministic:
- the methods pick elements with `:|`;
- their specifications hold for every enumeration of the set (`Enumerates`).

`parseJavaBean`'s result is specified up to that order, as `BeanFieldsOf`.
`BeanNamesIndependentOfOrder` proves that the set of property names does not depend on it.

## Model

Source paths below are relative to the repository root (`processor/src/main/java/fun/fengwk/automapper/processor/...`).

| member | source | states |
|---|---|---|
| TypeTable.ElementType | processor/src/main/java/fun/fengwk/automapper/processor/mapper/MapperMethodParser.java:186 | the mapper's own type names its declaration and carries one argument per type parameter |
| TypeTable.IndexOf | processor/src/main/java/fun/fengwk/automapper/processor/mapper/MapperMethodParser.java:195-196 | the first position of the variable among the declaring type's parameters, or -1 exactly when it is absent |
| TypeTable.Subst | processor/src/main/java/fun/fengwk/automapper/processor/mapper/MapperMethodParser.java:216 | substituting type arguments into a declared supertype keeps its declaration |
| TypeTable.DirectSupertypes | processor/src/main/java/fun/fengwk/automapper/processor/mapper/MapperMethodParser.java:216 | every direct supertype is a declared type strictly lower in the hierarchy |
| TypeTable.ClosureOfAllMember | processor/src/main/java/fun/fengwk/automapper/processor/mapper/MapperMethodParser.java:215-223 | a type is in the closure of a list iff it is one of the list or a supertype of one |
| TypeTable.ClosureMember | processor/src/main/java/fun/fengwk/automapper/processor/mapper/MapperMethodParser.java:215-223 | a proper supertype is a direct supertype or a proper supertype of one |
| Hierarchy.DoCollectSupertypes | processor/src/main/java/fun/fengwk/automapper/processor/mapper/MapperMethodParser.java:215-223 | the visited-set walk ends with the visited set plus exactly the proper supertypes of `t` |
| Hierarchy.CollectSupertypes | processor/src/main/java/fun/fengwk/automapper/processor/mapper/MapperMethodParser.java:209-213 | the result is exactly the set of all proper supertypes |
| Hierarchy.AnyIterableExists | processor/src/main/java/fun/fengwk/automapper/processor/mapper/MapperMethodParser.java:236-248 | the superclass-then-interfaces test succeeds iff some listed supertype is iterable |
| Hierarchy.IterableStep | processor/src/main/java/fun/fengwk/automapper/processor/mapper/MapperMethodParser.java:226-251 | a type is iterable iff it is java.lang.Iterable or one of its direct supertypes is |
| Hierarchy.IterableViaClosure | processor/src/main/java/fun/fengwk/automapper/processor/mapper/MapperMethodParser.java:226-251 | a type is iterable iff it is java.lang.Iterable or java.lang.Iterable is among its proper supertypes |
| Hierarchy.JavaDeclaredShape | processor/src/main/java/fun/fengwk/automapper/processor/mapper/MapperMethodParser.java:253-280 | a platform type starts with "java."; the test is a plain prefix test (java.utilities.Order counts), and javax is not a platform package |
| Beans.ToLower | processor/src/main/java/fun/fengwk/automapper/processor/mapper/MapperMethodParser.java:320 | the result is never an upper-case letter, and other characters are unchanged |
| Beans.Decapitalize | processor/src/main/java/fun/fengwk/automapper/processor/mapper/MapperMethodParser.java:320-324 | the length is kept and only the first character can change; a name whose first two characters are upper case is unchanged; otherwise the first character is lower-cased |
| Beans.DecapitalizeIdempotent | processor/src/main/java/fun/fengwk/automapper/processor/mapper/MapperMethodParser.java:320-324 | decapitalizing twice equals decapitalizing once |
| Beans.CapitalizeRoundTrip | processor/src/main/java/fun/fengwk/automapper/processor/mapper/MapperMethodParser.java:318-335 | a lower-case field is found again from its accessor stem iff its second character is not upper case ("xCoord" has no getter or setter) |
| Beans.StemExamples | processor/src/main/java/fun/fengwk/automapper/processor/mapper/MapperMethodParser.java:32-33 | getName gives the stem "name", getURL keeps "URL", setAge gives "age"; a bare "get" or "set" and "isActive" give no stem |
| Beans.Reverse | processor/src/main/java/fun/fengwk/automapper/processor/mapper/MapperMethodParser.java:288 | Collections.reverse: position i holds the element at the mirrored position |
| Beans.BeanWalk | processor/src/main/java/fun/fengwk/automapper/processor/mapper/MapperMethodParser.java:284-289 | the walk is the supertypes in reverse iteration order, followed by the type itself |
| Beans.BuildFieldTable | processor/src/main/java/fun/fengwk/automapper/processor/mapper/MapperMethodParser.java:291-308 | the LinkedHashMap loop computes the first-seen field table of the walked members |
| Beans.AddStems | processor/src/main/java/fun/fengwk/automapper/processor/mapper/MapperMethodParser.java:314-328 | the inner loop adds the getter and setter stems of one declaration's members |
| Beans.CollectStems | processor/src/main/java/fun/fengwk/automapper/processor/mapper/MapperMethodParser.java:310-329 | the getter and setter sets are the stems of all walked members |
| Beans.KeepAccessible | processor/src/main/java/fun/fengwk/automapper/processor/mapper/MapperMethodParser.java:331-336 | the kept entries are those with both a getter and a setter, in table order |
| Beans.Enumerate | processor/src/main/java/fun/fengwk/automapper/processor/mapper/MapperMethodParser.java:284-287 | iterating a HashSet lists each element once, in some order |
| Beans.ParseJavaBean | processor/src/main/java/fun/fengwk/automapper/processor/mapper/MapperMethodParser.java:283-339 | the recorded fields are the specification's result for one iteration order of the supertype set |
| BeanFacts.FieldTableNames | processor/src/main/java/fun/fengwk/automapper/processor/mapper/MapperMethodParser.java:291-308 | a name is in the field table iff some walked member is a field of that name |
| BeanFacts.FieldTableUnique | processor/src/main/java/fun/fengwk/automapper/processor/mapper/MapperMethodParser.java:298 | the field table never holds a name twice |
| BeanFacts.FieldTableFirstSeen | processor/src/main/java/fun/fengwk/automapper/processor/mapper/MapperMethodParser.java:298-305 | the first field of a name wins, with its annotation-derived column name and generated-key mark |
| BeanFacts.FieldTablePrefix | processor/src/main/java/fun/fengwk/automapper/processor/mapper/MapperMethodParser.java:292-308 | the table built from a prefix of the members is a prefix of the full table: later members only append, and earlier entries are never replaced |
| BeanFacts.StemSetMember | processor/src/main/java/fun/fengwk/automapper/processor/mapper/MapperMethodParser.java:310-329 | a stem is collected iff some walked method yields it |
| BeanFacts.GetterStemsMember | processor/src/main/java/fun/fengwk/automapper/processor/mapper/MapperMethodParser.java:318-320 | a getter stem is collected iff some walked method name matches the getter pattern with that stem |
| BeanFacts.SetterStemsMember | processor/src/main/java/fun/fengwk/automapper/processor/mapper/MapperMethodParser.java:321-325 | a setter stem is collected iff some walked method name matches the setter pattern, and not the getter pattern, with that stem |
| BeanFacts.KeepMember | processor/src/main/java/fun/fengwk/automapper/processor/mapper/MapperMethodParser.java:331-336 | an entry is kept iff it is in the table and its name is both a getter and a setter stem |
| BeanFacts.KeepUnique | processor/src/main/java/fun/fengwk/automapper/processor/mapper/MapperMethodParser.java:331-336 | filtering a table with unique names keeps them unique |
| BeanFacts.KeepNames | processor/src/main/java/fun/fengwk/automapper/processor/mapper/MapperMethodParser.java:331-336 | a name survives iff it is a field name with a getter and a setter |
| BeanFacts.BeanFieldsSpecShape | processor/src/main/java/fun/fengwk/automapper/processor/mapper/MapperMethodParser.java:283-339 | bean properties have unique names; a property is a first-seen field with both accessors |
| BeanFacts.MembersOfMember | processor/src/main/java/fun/fengwk/automapper/processor/mapper/MapperMethodParser.java:292-293 | a member is walked iff it belongs to some walked declaration |
| BeanFacts.WalkNames | processor/src/main/java/fun/fengwk/automapper/processor/mapper/MapperMethodParser.java:284-289 | the walk visits the type itself and the declaration of every supertype |
| BeanFacts.EnumeratesMember | processor/src/main/java/fun/fengwk/automapper/processor/mapper/MapperMethodParser.java:284-287 | an enumeration holds exactly the elements of the set |
| BeanFacts.SameMembers | processor/src/main/java/fun/fengwk/automapper/processor/mapper/MapperMethodParser.java:292-293 | two walks over the same declarations see the same members |
| BeanFacts.BeanNamesOfSameMembers | processor/src/main/java/fun/fengwk/automapper/processor/mapper/MapperMethodParser.java:283-339 | two walks over the same declarations give the same property names |
| BeanFacts.BeanNamesIndependentOfOrder | processor/src/main/java/fun/fengwk/automapper/processor/mapper/MapperMethodParser.java:284-339 | whatever the HashSet order, the recorded properties have unique names and the same set of names |
| Descriptor.TypeVarResolution | processor/src/main/java/fun/fengwk/automapper/processor/mapper/MapperMethodParser.java:185-202 | a variable declared by a supertype of the mapper resolves like the argument that supertype gives it; a variable no supertype declares is refused with the state unchanged |
| Descriptor.TypeVarUnresolved | processor/src/main/java/fun/fengwk/automapper/processor/mapper/MapperMethodParser.java:191-204 | when no supertype both declares the owner and lists the variable, init falls through to false with the state unchanged |
| Descriptor.TypeDescriptor.constructor | processor/src/main/java/fun/fengwk/automapper/processor/mapper/MapperMethodParser.java:137-142 | a new descriptor has no type, no marks and no bean fields |
| Descriptor.TypeDescriptor.Init | processor/src/main/java/fun/fengwk/automapper/processor/mapper/MapperMethodParser.java:145-206 | the result and the new fields are those of InitSpec; a parsed bean's fields are parseJavaBean's, and otherwise the fields are untouched |
| Descriptor.TypeDescriptor.InitDeclared | processor/src/main/java/fun/fengwk/automapper/processor/mapper/MapperMethodParser.java:165-184 | the DECLARED branch follows InitSpec: iterable, then platform type, then bean |
| Descriptor.TypeDescriptor.ResolveTypeVar | processor/src/main/java/fun/fengwk/automapper/processor/mapper/MapperMethodParser.java:185-204 | the loop over the supertype set, in any order, ends as InitSpec's TYPEVAR branch |
| Descriptor.TypeDescriptor.ResolveArgument | processor/src/main/java/fun/fengwk/automapper/processor/mapper/MapperMethodParser.java:193-198 | once the declaring supertype and the index are found, the outcome is InitSpec's TYPEVAR branch: the argument resolves at the same depth, and a raw supertype fails |
| DescriptorFacts.InitOutcomeShape | processor/src/main/java/fun/fengwk/automapper/processor/mapper/MapperMethodParser.java:145-206 | success always records a type name and failure keeps it; a bean is parsed only on success and only for a non-iterable, non-platform declaration; the bean mark changes only then; the iterable mark is never cleared |
| DescriptorFacts.InitInsideWrapper | processor/src/main/java/fun/fengwk/automapper/processor/mapper/MapperMethodParser.java:146-173 | inside one array or iterable, only a leaf can succeed |
| DescriptorFacts.Wrappers | processor/src/main/java/fun/fengwk/automapper/processor/mapper/MapperMethodParser.java:161-173 | an array resolves as its component type one level deeper (int[] resolves to int) and is not marked iterable; an iterable is marked iterable; an iterable without arguments fails; int[][], List<List<X>>, List<int[]> and List<X>[] all fail |
| DescriptorFacts.Leaves | processor/src/main/java/fun/fengwk/automapper/processor/mapper/MapperMethodParser.java:150-160 | a primitive or void resolves to its own name at any allowed depth, leaving the marks alone |
| DescriptorFacts.InitDeclared | processor/src/main/java/fun/fengwk/automapper/processor/mapper/MapperMethodParser.java:174-184 | a non-iterable declared type succeeds with its name, and is parsed as a bean iff it is not a platform type |
| DescriptorFacts.InitIterable | processor/src/main/java/fun/fengwk/automapper/processor/mapper/MapperMethodParser.java:166-171 | an iterable with arguments resolves its first argument one level deeper, marked iterable |
| Binder.Visit | processor/src/main/java/fun/fengwk/automapper/processor/mapper/MapperMethodParser.java:69-85 | the visit order ends with the declaration itself, after its interfaces |
| Binder.AddMethodsAppend | processor/src/main/java/fun/fengwk/automapper/processor/mapper/MapperMethodParser.java:77-84 | adding two member lists one after the other equals adding their concatenation |
| Binder.MembersOfAppend | processor/src/main/java/fun/fengwk/automapper/processor/mapper/MapperMethodParser.java:76 | the members of two visits in sequence are the members of each, concatenated |
| Binder.DoCollectMethodElements | processor/src/main/java/fun/fengwk/automapper/processor/mapper/MapperMethodParser.java:69-85 | the collector gains the methods of the interfaces' visits, then its own, each at most once |
| Binder.CollectInterfaces | processor/src/main/java/fun/fengwk/automapper/processor/mapper/MapperMethodParser.java:70-74 | the interface loop adds the methods of each declared interface's visit, left to right |
| Binder.AddMemberMethods | processor/src/main/java/fun/fengwk/automapper/processor/mapper/MapperMethodParser.java:76-84 | the member loop appends each method not yet present |
| Binder.CollectMethodElements | processor/src/main/java/fun/fengwk/automapper/processor/mapper/MapperMethodParser.java:63-67 | the result is the collected sequence specified by Collected |
| Binder.AddMethodsFacts | processor/src/main/java/fun/fengwk/automapper/processor/mapper/MapperMethodParser.java:77-84 | adding only extends the collector, keeps it duplicate-free, and adds exactly the listed methods |
| Binder.CollectedFacts | processor/src/main/java/fun/fengwk/automapper/processor/mapper/MapperMethodParser.java:63-85 | the collected methods are distinct and are exactly the method members of the visit |
| Binder.InterfacesFirst | processor/src/main/java/fun/fengwk/automapper/processor/mapper/MapperMethodParser.java:69-85 | the super-interfaces' methods come first in the collected order |
| Binder.FilterMethodElement | processor/src/main/java/fun/fengwk/automapper/processor/mapper/MapperMethodParser.java:87-94 | the loop over the filters accepts iff all four filters accept |
| Binder.FiltersIff | processor/src/main/java/fun/fengwk/automapper/processor/mapper/MapperMethodParser.java:35-45 | a method passes iff it is not native, not static, not default and not declared by java.lang.Object |
| Binder.Describe | processor/src/main/java/fun/fengwk/automapper/processor/mapper/MapperMethodParser.java:109-110 | a fresh descriptor initialised at depth 0 reports InitSpec's outcome from the empty state |
| Binder.ConvertParams | processor/src/main/java/fun/fengwk/automapper/processor/mapper/MapperMethodParser.java:105-122 | one Param per resolvable parameter, in order; @Param renames it; @FieldName, or the converted name, gives its column |
| Binder.Convert | processor/src/main/java/fun/fengwk/automapper/processor/mapper/MapperMethodParser.java:97-135 | a MethodInfo is returned iff there is no @Select and the return type resolves, and it is the specified one |
| Binder.InfosOfSnoc | processor/src/main/java/fun/fengwk/automapper/processor/mapper/MapperMethodParser.java:55-61 | one more method adds its MethodInfo exactly when it is kept |
| Binder.ParseOne | processor/src/main/java/fun/fengwk/automapper/processor/mapper/MapperMethodParser.java:56-59 | the stream's filter and map yield a MethodInfo iff the method passes the filters and converts |
| Binder.Parse | processor/src/main/java/fun/fengwk/automapper/processor/mapper/MapperMethodParser.java:55-61 | the result lists the MethodInfos of the kept methods, in collection order |
| BinderFacts.ResolvableMember | processor/src/main/java/fun/fengwk/automapper/processor/mapper/MapperMethodParser.java:108-121 | a parameter is kept iff its type resolves, and never more parameters than declared |
| BinderFacts.KeptMember | processor/src/main/java/fun/fengwk/automapper/processor/mapper/MapperMethodParser.java:55-61 | a method is kept iff it was collected, passes the filters and converts |
| BinderFacts.KeptDistinct | processor/src/main/java/fun/fengwk/automapper/processor/mapper/MapperMethodParser.java:55-67 | the kept methods are distinct |
| BinderFacts.ParseFacts | processor/src/main/java/fun/fengwk/automapper/processor/mapper/MapperMethodParser.java:55-61 | each MethodInfo comes from a distinct collected method that passes the filters, has no @Select and has the same name; every collected method that passes and converts appears |
| Demo.DemoMapperSupers | processor/src/test/resources/fun/fengwk/automapper/processor/demo/DemoMapper.java:11 | DemoMapper's proper supertypes are BaseMapper<DemoDO> and java.lang.Object |
| Demo.DemoMapperWellFormed | processor/src/test/resources/fun/fengwk/automapper/processor/demo/DemoMapper.java:11 | the demo table meets MapperWellFormed's assumptions: well-formed heights, distinct supertype names, and supertype arguments that are not supertypes' own variables |
| Demo.DemoIterable | processor/src/main/java/fun/fengwk/automapper/processor/mapper/MapperMethodParser.java:226-251 | List and Collection are iterable through their interfaces; DemoDO, String and Object are not |
| Demo.NotJava | processor/src/main/java/fun/fengwk/automapper/processor/mapper/MapperMethodParser.java:253-280 | java.lang.String and java.util.List are platform types; the demo classes are not |
| Demo.DemoResolvesT | processor/src/main/java/fun/fengwk/automapper/processor/mapper/MapperMethodParser.java:185-198 | in the assumed fixture where BaseMapper declares insert(T entity), T as seen from DemoMapper resolves to the bean DemoDO |
| Demo.DemoDOIsBean | processor/src/main/java/fun/fengwk/automapper/processor/mapper/MapperMethodParser.java:178-183 | the fixture class DemoDO, outside the platform packages and not iterable, resolves to a parsed bean |
| Demo.DemoListParam | processor/src/main/java/fun/fengwk/automapper/processor/mapper/MapperMethodParser.java:166-171 | a List<T> parameter resolves to DemoDO marked iterable |
| Demo.DemoStringParam | processor/src/test/resources/fun/fengwk/automapper/processor/demo/DemoMapper.java:13 | findByName's String parameter resolves as a platform type without a bean |
| Demo.DemoOtherParams | processor/src/main/java/fun/fengwk/automapper/processor/mapper/MapperMethodParser.java:185-204 | List's own type variable E is declared by no supertype of the mapper and is refused with the state unchanged |
| Demo.DemoStems | processor/src/main/java/fun/fengwk/automapper/processor/mapper/MapperMethodParser.java:318-325 | getName gives getter stem "name" only; setName gives setter stem "name" only |
| Demo.DemoBeanFields | processor/src/main/java/fun/fengwk/automapper/processor/mapper/MapperMethodParser.java:283-339 | for the assumed fixture DemoDO (field name with getName and setName), the recorded fields are exactly that one field, with its converted column name, under every iteration order |
| Translation.ExistingIdsMember | processor/src/main/java/fun/fengwk/automapper/processor/translator/Translator.java:169-183 | an id is existing iff some direct child is an insert, delete, update or select element with that id attribute |
| Translation.AppendAddsId | processor/src/main/java/fun/fengwk/automapper/processor/translator/Translator.java:244-249 | appending a statement adds exactly its id to the ids the document holds |
| Translation.CheckMapperElement | processor/src/main/java/fun/fengwk/automapper/processor/translator/Translator.java:139-151 | the document is accepted iff its root is a mapper element whose namespace attribute, read as "" when absent, equals the requested namespace; a mismatch reports the namespace found |
| Translation.IsSelective | processor/src/main/java/fun/fengwk/automapper/processor/translator/Translator.java:157-164 | true iff some direct child is a Selective; grandchildren are not looked at |
| Translation.Indent | processor/src/main/java/fun/fengwk/automapper/processor/translator/Translator.java:252-258 | count copies of four spaces, and the empty string for a count of zero or less |
| Translation.ConcatAppend | processor/src/main/java/fun/fengwk/automapper/processor/translator/Translator.java:225-228 | concatenating two lists of texts equals concatenating each and joining the results |
| Translation.JoinTexts | processor/src/main/java/fun/fengwk/automapper/processor/translator/Translator.java:225-228 | the StringBuilder loop yields the concatenation of the texts, in order |
| Translation.AddTextNode | processor/src/main/java/fun/fengwk/automapper/processor/translator/Translator.java:224-232 | the parent gains one text node holding the concatenation, at its end |
| Translation.AddElement | processor/src/main/java/fun/fengwk/automapper/processor/translator/Translator.java:234-238 | the parent gains one new, empty element of that tag, at its end |
| Translation.AttributeRules | processor/src/main/java/fun/fengwk/automapper/processor/translator/Translator.java:190-222 | every statement keeps its id; insert and update always carry parameterType, delete and select only when one is given; select always carries resultType; insert has useGeneratedKeys="true" and keyProperty iff a generated-key field is given |
| Translation.StmtElement.Append | processor/src/main/java/fun/fengwk/automapper/processor/translator/Translator.java:244-249 | the mapper gains exactly a blank-line text, the "auto mapper generate" comment, a newline text and the element, in that order |
| Translation.Translator.Create | processor/src/main/java/fun/fengwk/automapper/processor/translator/Translator.java:59-68 | construction fails with getMapperElement's error, or yields a translator over the root with no cache |
| Translation.Translator.ExistsStmtElement | processor/src/main/java/fun/fengwk/automapper/processor/translator/Translator.java:166-188 | the first call caches the ids of the statement children; every call answers from the cache, which is never rebuilt |
| Translation.Translator.Translate | processor/src/main/java/fun/fengwk/automapper/processor/translator/Translator.java:85-93 | false, with nothing handed to doTranslate, iff the cached ids hold the method name; otherwise the method is handed on and the result is true |
| Translation.Translator.TranslateRecorded | processor/src/main/java/fun/fengwk/automapper/processor/translator/Translator.java:85-93 | the corrected translate: the handed-on name joins the cache, and no name is ever handed on twice |
| Translation.Translator.AddStmtElement | processor/src/main/java/fun/fengwk/automapper/processor/translator/Translator.java:240-250 | a new element of the tag with only its id set; nothing is appended yet |
| Translation.Translator.AddInsertElement | processor/src/main/java/fun/fengwk/automapper/processor/translator/Translator.java:190-199 | an insert element with the insert attribute rules |
| Translation.Translator.AddDeleteElement | processor/src/main/java/fun/fengwk/automapper/processor/translator/Translator.java:201-207 | a delete element with the delete attribute rules |
| Translation.Translator.AddUpdateElement | processor/src/main/java/fun/fengwk/automapper/processor/translator/Translator.java:209-213 | an update element with the update attribute rules |
| Translation.Translator.AddSelectElement | processor/src/main/java/fun/fengwk/automapper/processor/translator/Translator.java:215-222 | a select element with the select attribute rules |
| Translation.StaleCacheExample | processor/src/main/java/fun/fengwk/automapper/processor/translator/Translator.java:166-188 | after a lookup, a select appended with the same id is in the document but still reported absent |
| Translation.DuplicateIdExample | processor/src/main/java/fun/fengwk/automapper/processor/translator/Translator.java:85-93 | after the first method's statement is appended, a second method of the same name is still handed to doTranslate, although the document already holds its id |
| Translation.RecordedIdExample | processor/src/main/java/fun/fengwk/automapper/processor/translator/Translator.java:85-93 | with the corrected translate, the second method of the same name is reported as existing |

## Left out

- The compiler's `Types` and `Elements` services become a precomputed table. `getAllMembers` is taken as given per declaration. `isSameType` is comparison by qualified name, which is what the code relies on.
- Interfaces in the table have `java.lang.Object` as their superclass, matching the compiler's `directSupertypes`. `isIterable` is unaffected, because Object is not iterable.
- A supertype given fewer type arguments than its declaration has parameters (a raw supertype) makes `supTypeArguments.get(i)` throw in the code. The model reports a failed resolution instead.
- Javac's erasure of raw supertypes and type variables bound by another supertype's variable are left out. `MapperWellFormed` assumes instead: an acyclic hierarchy, one parameterisation per inherited interface, and supertype arguments in the mapper's own terms.
- `NamingConverter.convert` and `StringUtils.upperCamelToLowerCamel` are not part of this model. They are two given functions (`Naming`).
- `Introspector.decapitalize` is modelled for ASCII letters only. Java's `Character.toLowerCase` also maps other Unicode upper-case letters.
- Annotation lookup is represented by the values it yields: `@Param`, `@FieldName`, `@UseGeneratedKeys` and the presence of `@Select`.
- The stream pipeline of `parse` is modelled as the equivalent loop.
- The collected-method `LinkedHashSet` is modelled as a duplicate-free sequence passed as a value, not as a shared mutable set.
- XML parsing and serialisation are not modelled. This covers `parse(InputStream)`, `newDocument`, the DOCTYPE and entity resolution. A document is given by its root: `Some(root)`, or `None` when it has no document element.
- DOM nodes other than elements, text and comments are not modelled. That includes processing instructions: one named `insert` would make `getAttributes()` return null in `existsStmtElement`.
- The method-name lexer, the parser and the AST classes are not part of this model. `AstNode` keeps only what `isSelective` reads: whether a node is a `Selective`, and its children.
- The dialect-specific `doTranslate` is not part of this model. `translate` records the names it would hand on (`translated`).
- `tableName`, `OFFSET`, `LIMIT` and `BLANK` are used only by dialect code, so they are left out.
- Translation.StmtElement.Append: requires that the element is not already a child of the mapper. A second `append` of the same statement would move the DOM nodes, and it is outside the model.
- Translation.Translator.AddInsertElement: takes a non-null parameterType. Setting a null attribute value is left to the DOM implementation and not modelled.
- Translation.Translator.AddUpdateElement: takes a non-null parameterType, for the same reason.
- Translation.Translator.AddSelectElement: takes a non-null resultType, for the same reason.

## Findings

| source | as written | input that shows it | evidently intended | confidence | as-written member | corrected member |
|---|---|---|---|---|---|---|
| processor/src/main/java/fun/fengwk/automapper/processor/translator/Translator.java:85-93 | `existsStmtElement` answers from an id cache built on its first call. `translate` never adds the id it hands on. | Two mapper methods named `findByName` (overloads): the second call of `translate` also returns true and generates a second statement with the same id. | `translate` records the id it hands on, so one document never receives two statements with the same id. | medium, not executed | Translation.DuplicateIdExample | Translation.Translator.TranslateRecorded |
