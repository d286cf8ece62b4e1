/** The bookkeeping of Translator: the mapper document's root check, the lazily built
    cache of existing statement ids, the early exit of translate, statement elements with
    their attribute rules and four-node append, and the small string helpers. */
module Translation {
  import opened Optional

  const TAG_INSERT: string := "insert"
  const TAG_DELETE: string := "delete"
  const TAG_UPDATE: string := "update"
  const TAG_SELECT: string := "select"
  const STMT_TAGS: set<string> := {TAG_INSERT, TAG_DELETE, TAG_UPDATE, TAG_SELECT}

  const INDENT: string := "    "
  const LF: string := "\n"
  const LF_LF: string := "\n\n"
  const GENERATED_COMMENT: string := "auto mapper generate"

  /** A DOM element: its tag, its attributes and its child nodes, updated in place. */
  class Element {
    var tag: string
    var attrs: map<string, string>
    var children: seq<Node>

    constructor (tag: string)
      ensures this.tag == tag && attrs == map[] && children == []
    {
      this.tag := tag;
      attrs := map[];
      children := [];
    }

    method SetAttribute(name: string, value: string)
      modifies this
      ensures attrs == old(attrs)[name := value]
      ensures tag == old(tag) && children == old(children)
    {
      attrs := attrs[name := value];
    }

    method AppendChild(n: Node)
      modifies this
      ensures children == old(children) + [n]
      ensures tag == old(tag) && attrs == old(attrs)
    {
      children := children + [n];
    }
  }

  /** A child node: text, a comment, or an element (shared by reference). */
  datatype Node = TextNode(text: string) | CommentNode(text: string) | ElementNode(element: Element)

  /** Node.getNodeName. */
  function NodeName(n: Node): string
    reads if n.ElementNode? then {n.element} else {}
  {
    match n
    case TextNode(_) => "#text"
    case CommentNode(_) => "#comment"
    case ElementNode(e) => e.tag
  }

  function ElementsOf(ns: seq<Node>): set<Element> {
    set i | 0 <= i < |ns| && ns[i].ElementNode? :: ns[i].element
  }

  /** A statement element (insert, delete, update or select) carrying an id. */
  predicate IsStmtWithId(n: Node)
    reads if n.ElementNode? then {n.element} else {}
  {
    NodeName(n) in STMT_TAGS && n.ElementNode? && "id" in n.element.attrs
  }

  /** The ids of the statement elements among `ns`. */
  function ExistingIds(ns: seq<Node>): set<string>
    reads ElementsOf(ns)
  {
    if ns == [] then {}
    else
      var ids := ExistingIds(ns[..|ns| - 1]);
      var n := ns[|ns| - 1];
      if IsStmtWithId(n) then ids + {n.element.attrs["id"]} else ids
  }

  /** An id exists iff some direct child is a statement element with that id; other tags,
      text, comments and statements without an id contribute nothing. */
  lemma {:induction false} ExistingIdsMember(ns: seq<Node>, x: string)
    ensures x in ExistingIds(ns) <==>
            exists i :: 0 <= i < |ns| && IsStmtWithId(ns[i]) && ns[i].element.attrs["id"] == x
    decreases |ns|
  {
    if ns != [] {
      var init := ns[..|ns| - 1];
      ExistingIdsMember(init, x);
      assert forall i :: 0 <= i < |init| ==> init[i] == ns[i];
    }
  }

  /** The four nodes StmtElement.append adds for `e`. */
  function AppendedNodes(e: Element): seq<Node> {
    [TextNode(LF_LF), CommentNode(GENERATED_COMMENT), TextNode(LF), ElementNode(e)]
  }

  /** Appending a statement adds exactly its id to the ids the document holds. */
  lemma AppendAddsId(ns: seq<Node>, e: Element)
    requires e.tag in STMT_TAGS && "id" in e.attrs
    ensures ExistingIds(ns + AppendedNodes(e)) == ExistingIds(ns) + {e.attrs["id"]}
  {
    var m1 := ns + [TextNode(LF_LF)];
    var m2 := m1 + [CommentNode(GENERATED_COMMENT)];
    var m3 := m2 + [TextNode(LF)];
    var ms := m3 + [ElementNode(e)];
    assert ms == ns + AppendedNodes(e);
    assert m1[..|m1| - 1] == ns;
    assert ExistingIds(m1) == ExistingIds(ns);
    assert m2[..|m2| - 1] == m1;
    assert ExistingIds(m2) == ExistingIds(ns);
    assert m3[..|m3| - 1] == m2;
    assert ExistingIds(m3) == ExistingIds(ns);
    assert ms[..|ms| - 1] == m3;
  }

  datatype ParseError = MapperMissing | NamespaceMismatch(expected: string, actual: string)

  /** Element.getAttribute("namespace"): the value, or the empty string when absent. */
  function NamespaceOf(e: Element): string
    reads e
  {
    if "namespace" in e.attrs then e.attrs["namespace"] else ""
  }

  /** getMapperElement: the root must be a `mapper` element whose namespace attribute is
      exactly the requested one. */
  function CheckMapperElement(root: Option<Element>, namespace: string): (r: Option<ParseError>)
    reads if root.Some? then {root.value} else {}
    ensures r == None <==> root.Some? && root.value.tag == "mapper" && NamespaceOf(root.value) == namespace
    ensures r.Some? && r.value.NamespaceMismatch? ==> r.value.actual != namespace
  {
    if root.None? || root.value.tag != "mapper" then Some(MapperMissing)
    else if namespace != NamespaceOf(root.value) then Some(NamespaceMismatch(namespace, NamespaceOf(root.value)))
    else None
  }

  /** A stand-in for the parser's AST: whether a node is a Selective, and its children. */
  datatype AstNode = AstNode(selective: bool, children: seq<AstNode>)

  /** isSelective: some direct child is a Selective; grandchildren are not examined. */
  method IsSelective(node: AstNode) returns (b: bool)
    ensures b <==> exists i :: 0 <= i < |node.children| && node.children[i].selective
  {
    var i := 0;
    while i < |node.children|
      invariant 0 <= i <= |node.children|
      invariant forall j :: 0 <= j < i ==> !node.children[j].selective
    {
      if node.children[i].selective {
        return true;
      }
      i := i + 1;
    }
    return false;
  }

  /** indent: `count` copies of four spaces, and nothing for a count of zero or less. */
  method Indent(count: int) returns (s: string)
    ensures |s| == if count > 0 then 4 * count else 0
    ensures forall k :: 0 <= k < |s| ==> s[k] == ' '
    ensures forall k :: 0 <= k < |s| / 4 ==> s[4 * k..4 * k + 4] == INDENT
  {
    s := "";
    var i := 0;
    while i < count
      invariant 0 <= i && (count > 0 ==> i <= count) && (count <= 0 ==> i == 0)
      invariant |s| == 4 * i
      invariant forall k :: 0 <= k < |s| ==> s[k] == ' '
    {
      s := s + INDENT;
      i := i + 1;
    }
    forall k | 0 <= k < |s| / 4 ensures s[4 * k..4 * k + 4] == INDENT {
      assert s[4 * k..4 * k + 4][0] == ' ' && s[4 * k..4 * k + 4][3] == ' ';
    }
  }

  /** The concatenation of `texts`, in order. */
  function Concat(texts: seq<string>): string {
    if texts == [] then "" else Concat(texts[..|texts| - 1]) + texts[|texts| - 1]
  }

  lemma {:induction false} ConcatAppend(a: seq<string>, b: seq<string>)
    ensures Concat(a + b) == Concat(a) + Concat(b)
    decreases |b|
  {
    if b == [] {
      assert a + b == a;
    } else {
      var init := b[..|b| - 1];
      var last := b[|b| - 1];
      ConcatAppend(a, init);
      assert a + b == (a + init) + [last];
      assert (a + b)[..|a + b| - 1] == a + init;
      assert Concat(a + b) == Concat(a + init) + last;
      assert Concat(b) == Concat(init) + last;
    }
  }

  /** The StringBuilder loop of addTextNode. */
  method JoinTexts(texts: seq<string>) returns (s: string)
    ensures s == Concat(texts)
  {
    s := "";
    var i := 0;
    while i < |texts|
      invariant 0 <= i <= |texts|
      invariant s == Concat(texts[..i])
    {
      assert texts[..i + 1][..i] == texts[..i];
      s := s + texts[i];
      i := i + 1;
    }
    assert texts[..|texts|] == texts;
  }

  /** addTextNode: one text node holding the concatenated texts, appended to `parent`. */
  method AddTextNode(parent: Element, texts: seq<string>)
    modifies parent
    ensures parent.children == old(parent.children) + [TextNode(Concat(texts))]
    ensures parent.tag == old(parent.tag) && parent.attrs == old(parent.attrs)
  {
    var text := JoinTexts(texts);
    parent.AppendChild(TextNode(text));
  }

  /** addElement: a new, empty element appended to `parent`. */
  method AddElement(parent: Element, tag: string) returns (e: Element)
    modifies parent
    ensures fresh(e) && e.tag == tag && e.attrs == map[] && e.children == []
    ensures parent.children == old(parent.children) + [ElementNode(e)]
    ensures parent.tag == old(parent.tag) && parent.attrs == old(parent.attrs)
  {
    e := new Element(tag);
    parent.AppendChild(ElementNode(e));
  }

  // ----- attribute rules of the add*Element helpers -----

  function InsertAttributes(id: string, parameterType: string, generatedKey: Option<string>): map<string, string> {
    var a := map["id" := id, "parameterType" := parameterType];
    if generatedKey.Some? then a["useGeneratedKeys" := "true"]["keyProperty" := generatedKey.value] else a
  }

  function DeleteAttributes(id: string, parameterType: Option<string>): map<string, string> {
    if parameterType.Some? then map["id" := id, "parameterType" := parameterType.value] else map["id" := id]
  }

  function UpdateAttributes(id: string, parameterType: string): map<string, string> {
    map["id" := id, "parameterType" := parameterType]
  }

  function SelectAttributes(id: string, parameterType: Option<string>, resultType: string): map<string, string> {
    DeleteAttributes(id, parameterType)["resultType" := resultType]
  }

  /** Every statement keeps its id; insert and update always carry parameterType, delete
      and select only when one is given; select always carries resultType; insert marks
      generated keys, with the field's name as keyProperty, exactly when a field is given. */
  lemma AttributeRules(id: string, pt: string, opt: Option<string>, rt: string, key: Option<string>)
    ensures var a := InsertAttributes(id, pt, key);
            a.Keys == {"id", "parameterType"} + (if key.Some? then {"useGeneratedKeys", "keyProperty"} else {}) &&
            a["id"] == id && a["parameterType"] == pt &&
            (key.Some? ==> a["useGeneratedKeys"] == "true" && a["keyProperty"] == key.value)
    ensures var a := UpdateAttributes(id, pt);
            a.Keys == {"id", "parameterType"} && a["id"] == id && a["parameterType"] == pt
    ensures var a := DeleteAttributes(id, opt);
            a.Keys == {"id"} + (if opt.Some? then {"parameterType"} else {}) && a["id"] == id &&
            (opt.Some? ==> a["parameterType"] == opt.value)
    ensures var a := SelectAttributes(id, opt, rt);
            a.Keys == {"id", "resultType"} + (if opt.Some? then {"parameterType"} else {}) &&
            a["id"] == id && a["resultType"] == rt && (opt.Some? ==> a["parameterType"] == opt.value)
  {
  }

  /** A created statement element and the deferred append that places it in the mapper. */
  class StmtElement {
    const element: Element
    const mapper: Element

    constructor (element: Element, mapper: Element)
      ensures this.element == element && this.mapper == mapper
    {
      this.element := element;
      this.mapper := mapper;
    }

    /** append: the mapper element gains exactly four children at its end. The element is
        not yet a child of the mapper: appending it again would move it in the DOM. */
    method Append()
      requires element != mapper && ElementNode(element) !in mapper.children
      modifies mapper
      ensures mapper.children == old(mapper.children) + AppendedNodes(element)
      ensures mapper.tag == old(mapper.tag) && mapper.attrs == old(mapper.attrs)
    {
      mapper.AppendChild(TextNode(LF_LF));
      mapper.AppendChild(CommentNode(GENERATED_COMMENT));
      mapper.AppendChild(TextNode(LF));
      mapper.AppendChild(ElementNode(element));
    }
  }

  class Translator {
    const mapperElement: Element
    var existingIdsCache: Option<set<string>>
    /** The method names handed to the dialect's doTranslate, in order. */
    ghost var translated: seq<string>

    constructor (mapperElement: Element)
      ensures this.mapperElement == mapperElement && existingIdsCache == None && translated == []
    {
      this.mapperElement := mapperElement;
      existingIdsCache := None;
      translated := [];
    }

    /** Construction: fails unless the root passes getMapperElement. */
    static method Create(root: Option<Element>, namespace: string) returns (r: Option<Translator>, err: Option<ParseError>)
      ensures err == CheckMapperElement(root, namespace)
      ensures r.Some? <==> err == None
      ensures r.Some? ==> fresh(r.value) && r.value.mapperElement == root.value &&
                          r.value.existingIdsCache == None && r.value.translated == []
    {
      err := CheckMapperElement(root, namespace);
      if err == None {
        var t := new Translator(root.value);
        r := Some(t);
      } else {
        r := None;
      }
    }

    /** existsStmtElement: on the first call the ids of the mapper's statement children
        are cached; every call answers from the cache, which is never refreshed. */
    method ExistsStmtElement(id: string) returns (b: bool)
      modifies this
      ensures old(existingIdsCache).Some? ==> existingIdsCache == old(existingIdsCache)
      ensures old(existingIdsCache).None? ==> existingIdsCache == Some(old(ExistingIds(mapperElement.children)))
      ensures existingIdsCache.Some? && b == (id in existingIdsCache.value)
      ensures translated == old(translated)
    {
      if existingIdsCache.None? {
        var ids: set<string> := {};
        var ns := mapperElement.children;
        var i := 0;
        while i < |ns|
          invariant 0 <= i <= |ns|
          invariant ids == ExistingIds(ns[..i])
        {
          assert ns[..i + 1][..i] == ns[..i];
          var n := ns[i];
          if NodeName(n) in STMT_TAGS && n.ElementNode? && "id" in n.element.attrs {
            ids := ids + {n.element.attrs["id"]};
          }
          i := i + 1;
        }
        assert ns[..|ns|] == ns;
        existingIdsCache := Some(ids);
      }
      b := id in existingIdsCache.value;
    }

    /** translate: false, with nothing handed on, when a statement with this id already
        exists; otherwise the method is handed to doTranslate and the result is true. */
    method Translate(methodName: string) returns (r: bool)
      modifies this
      ensures old(existingIdsCache).Some? ==> existingIdsCache == old(existingIdsCache)
      ensures old(existingIdsCache).None? ==> existingIdsCache == Some(old(ExistingIds(mapperElement.children)))
      ensures existingIdsCache.Some? && r == (methodName !in existingIdsCache.value)
      ensures translated == if r then old(translated) + [methodName] else old(translated)
    {
      var present := ExistsStmtElement(methodName);
      if present {
        return false;
      }
      translated := translated + [methodName];
      return true;
    }

    /** Every name handed to doTranslate is among the cached ids, and no name was handed
        on twice. */
    ghost predicate Recorded()
      reads this
    {
      (existingIdsCache.None? ==> translated == []) &&
      (existingIdsCache.Some? ==> forall k :: 0 <= k < |translated| ==> translated[k] in existingIdsCache.value) &&
      (forall j, k :: 0 <= j < k < |translated| ==> translated[j] != translated[k])
    }

    /** translate with the handed-on id added to the cache, so that a second method of the
        same name (an overload) is reported as existing. */
    method TranslateRecorded(methodName: string) returns (r: bool)
      requires Recorded()
      modifies this
      ensures Recorded()
      ensures existingIdsCache.Some? && methodName in existingIdsCache.value
      ensures old(existingIdsCache).Some? ==> r == (methodName !in old(existingIdsCache).value)
      ensures old(existingIdsCache).None? ==> r == (methodName !in old(ExistingIds(mapperElement.children)))
      ensures translated == if r then old(translated) + [methodName] else old(translated)
    {
      var present := ExistsStmtElement(methodName);
      if present {
        return false;
      }
      translated := translated + [methodName];
      existingIdsCache := Some(existingIdsCache.value + {methodName});
      return true;
    }

    /** addStmtElement: a new element with its id set; nothing is appended yet. */
    method AddStmtElement(tag: string, id: string) returns (s: StmtElement)
      ensures fresh(s) && fresh(s.element) && s.mapper == mapperElement
      ensures s.element.tag == tag && s.element.attrs == map["id" := id] && s.element.children == []
    {
      var e := new Element(tag);
      e.SetAttribute("id", id);
      s := new StmtElement(e, mapperElement);
    }

    method AddInsertElement(id: string, parameterType: string, generatedKey: Option<string>) returns (s: StmtElement)
      ensures fresh(s) && fresh(s.element) && s.mapper == mapperElement
      ensures s.element.tag == TAG_INSERT && s.element.children == []
      ensures s.element.attrs == InsertAttributes(id, parameterType, generatedKey)
    {
      s := AddStmtElement(TAG_INSERT, id);
      s.element.SetAttribute("parameterType", parameterType);
      if generatedKey.Some? {
        s.element.SetAttribute("useGeneratedKeys", "true");
        s.element.SetAttribute("keyProperty", generatedKey.value);
      }
    }

    method AddDeleteElement(id: string, parameterType: Option<string>) returns (s: StmtElement)
      ensures fresh(s) && fresh(s.element) && s.mapper == mapperElement
      ensures s.element.tag == TAG_DELETE && s.element.children == []
      ensures s.element.attrs == DeleteAttributes(id, parameterType)
    {
      s := AddStmtElement(TAG_DELETE, id);
      if parameterType.Some? {
        s.element.SetAttribute("parameterType", parameterType.value);
      }
    }

    method AddUpdateElement(id: string, parameterType: string) returns (s: StmtElement)
      ensures fresh(s) && fresh(s.element) && s.mapper == mapperElement
      ensures s.element.tag == TAG_UPDATE && s.element.children == []
      ensures s.element.attrs == UpdateAttributes(id, parameterType)
    {
      s := AddStmtElement(TAG_UPDATE, id);
      s.element.SetAttribute("parameterType", parameterType);
    }

    method AddSelectElement(id: string, parameterType: Option<string>, resultType: string) returns (s: StmtElement)
      ensures fresh(s) && fresh(s.element) && s.mapper == mapperElement
      ensures s.element.tag == TAG_SELECT && s.element.children == []
      ensures s.element.attrs == SelectAttributes(id, parameterType, resultType)
    {
      s := AddStmtElement(TAG_SELECT, id);
      if parameterType.Some? {
        s.element.SetAttribute("parameterType", parameterType.value);
      }
      s.element.SetAttribute("resultType", resultType);
    }
  }

  /** The cache does not see statements appended after it was built: once a lookup has
      happened, a newly appended select with the same id is still reported absent. */
  method StaleCacheExample() returns (before: bool, after: bool, inDocument: bool)
    ensures !before && !after && inDocument
  {
    var root := new Element("mapper");
    root.SetAttribute("namespace", "demo.DemoMapper");
    var r, err := Translator.Create(Some(root), "demo.DemoMapper");
    var t := r.value;
    before := t.ExistsStmtElement("findByName");
    var s := t.AddSelectElement("findByName", None, "demo.DemoDO");
    s.Append();
    AttributeRules("findByName", "", None, "demo.DemoDO", None);
    AppendAddsId([], s.element);
    inDocument := "findByName" in ExistingIds(root.children);
    after := t.ExistsStmtElement("findByName");
  }

  /** Two methods with the same name (overloads) both reach doTranslate: the cache built
      before the first statement was appended does not know the id it added, so the document
      ends up with two statements of that id. */
  method DuplicateIdExample() returns (first: bool, second: bool, inDocument: bool)
    ensures first && second && inDocument
  {
    var root := new Element("mapper");
    root.SetAttribute("namespace", "demo.DemoMapper");
    var r, err := Translator.Create(Some(root), "demo.DemoMapper");
    var t := r.value;
    first := t.Translate("findByName");
    var s := t.AddSelectElement("findByName", None, "demo.DemoDO");
    s.Append();
    AttributeRules("findByName", "", None, "demo.DemoDO", None);
    AppendAddsId([], s.element);
    inDocument := "findByName" in ExistingIds(root.children);
    second := t.Translate("findByName");
  }

  /** With the id recorded, the second overload is reported as existing. */
  method RecordedIdExample() returns (first: bool, second: bool)
    ensures first && !second
  {
    var root := new Element("mapper");
    root.SetAttribute("namespace", "demo.DemoMapper");
    var r, err := Translator.Create(Some(root), "demo.DemoMapper");
    var t := r.value;
    first := t.TranslateRecorded("findByName");
    second := t.TranslateRecorded("findByName");
  }
}
