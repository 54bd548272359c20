/** The CoT `<detail>` subtree: captured as a nested dictionary, and re-emitted from it. */
module CotDetail {
  import opened Seqs
  import opened Text

  // --- Elements and dictionaries ---

  /** An XML element as the library presents it; attributes keep their document order. */
  datatype Element = Element(
    tag: string,
    attrib: seq<(string, string)>,
    text: Option<string>,
    children: seq<Element>)

  /** What Python stores: text, a dictionary in insertion order, or a list. */
  datatype Value = Str(s: string) | Dict(items: Items) | List(nodes: seq<Value>)

  type Items = seq<(string, Value)>

  function IndexOf(d: Items, key: string): (r: Option<nat>)
    ensures r.Some? ==> r.value < |d| && d[r.value].0 == key && forall i | 0 <= i < r.value :: d[i].0 != key
    ensures r.None? ==> forall i | 0 <= i < |d| :: d[i].0 != key
  {
    if d == [] then None
    else if d[0].0 == key then Some(0)
    else
      match IndexOf(d[1..], key)
      case None => None
      case Some(i) => Some(i + 1)
  }

  /** `d[key] = value`: replaces in place or appends. */
  function Put(d: Items, key: string, value: Value): Items {
    match IndexOf(d, key)
    case None => d + [(key, value)]
    case Some(i) => d[i := (key, value)]
  }

  function Get(d: Items, key: string): (r: Option<Value>)
    ensures r.Some? ==> (key, r.value) in d
  {
    match IndexOf(d, key)
    case None => None
    case Some(i) => Some(d[i].1)
  }

  // --- Text ---

  /** The text that counts: stripped, and none if nothing is left. */
  function StrippedText(text: Option<string>): Option<string> {
    if text.Some? && Strip(text.value) != "" then Some(Strip(text.value)) else None
  }

  lemma {:induction false} StripTwice(text: Option<string>)
    ensures StrippedText(StrippedText(text)) == StrippedText(text)
  {
    if text.Some? {
      var s := StripLeft(text.value);
      StripLeftStops(text.value);
      StripRightKeepsFirst(s);
      assert StripLeft(StripRight(s)) == StripRight(s);
    }
  }

  // --- Capture ---

  function Attributes(attrib: seq<(string, string)>): (d: Items)
    ensures |d| == |attrib|
    ensures forall i | 0 <= i < |d| :: d[i] == (attrib[i].0, Str(attrib[i].1))
  {
    if attrib == [] then [] else [(attrib[0].0, Str(attrib[0].1))] + Attributes(attrib[1..])
  }

  function Node(e: Element): Value
    decreases e
  {
    var d := Attributes(e.attrib);
    var d := if StrippedText(e.text).Some? then Put(d, "_text", Str(StrippedText(e.text).value)) else d;
    Dict(if e.children != [] then Put(d, "_children", Dict(Capture(e.children))) else d)
  }

  /** A second child with the same tag turns the entry into a list. */
  function Add(d: Items, key: string, node: Value): Items {
    match Get(d, key)
    case None => d + [(key, node)]
    case Some(List(nodes)) => Put(d, key, List(nodes + [node]))
    case Some(first) => Put(d, key, List([first, node]))
  }

  function Capture(children: seq<Element>): Items
    decreases children
  {
    if children == [] then []
    else
      var n := |children| - 1;
      Add(Capture(children[..n]), children[n].tag, Node(children[n]))
  }

  /** _detail_to_attributes: fills the result child by child, promoting entries to lists. */
  method DetailToAttributes(children: seq<Element>) returns (result: Items)
    ensures result == Capture(children)
    decreases children
  {
    hide IndexOf, Attributes, StripLeft, StripRight, Strip;
    result := [];
    for i := 0 to |children|
      invariant result == Capture(children[..i])
    {
      var child := children[i];
      var key := child.tag;
      var node := Attributes(child.attrib);
      if child.text.Some? && child.text.value != "" && Strip(child.text.value) != "" {
        node := Put(node, "_text", Str(Strip(child.text.value)));
      }
      StripNothing();
      if child.children != [] {
        var inner := DetailToAttributes(child.children);
        node := Put(node, "_children", Dict(inner));
      }
      assert Dict(node) == Node(child);
      CaptureStep(children, i);
      var present := Get(result, key);
      if present.Some? {
        var nodes := if present.value.List? then present.value.nodes else [present.value];
        assert [present.value] + [Dict(node)] == [present.value, Dict(node)];
        result := Put(result, key, List(nodes + [Dict(node)]));
      } else {
        PutNew(result, key, Dict(node));
        result := Put(result, key, Dict(node));
      }
    }
    assert children[..|children|] == children;
  }

  lemma {:induction false} CaptureStep(children: seq<Element>, i: nat)
    requires i < |children|
    ensures Capture(children[..i + 1]) == Add(Capture(children[..i]), children[i].tag, Node(children[i]))
  {
    assert children[..i + 1][..i] == children[..i];
  }

  lemma {:induction false} PutNew(d: Items, key: string, value: Value)
    requires Get(d, key).None?
    ensures Put(d, key, value) == d + [(key, value)]
  {
  }

  // --- Emit ---

  predicate Underscored(key: string) {
    key != "" && key[0] == '_'
  }

  /** The string entries whose key does not start with an underscore. */
  function PlainAttributes(d: Items): seq<(string, string)> {
    if d == [] then []
    else (if !Underscored(d[0].0) && d[0].1.Str? then [(d[0].0, d[0].1.s)] else []) + PlainAttributes(d[1..])
  }

  function TextOf(d: Items): Option<string> {
    match Get(d, "_text")
    case Some(Str(s)) => Some(s)
    case _ => None
  }

  /** The elements that emitting a captured value appends to the parent. */
  function EmitNode(tag: string, node: Value): seq<Element>
    decreases node
  {
    match node
    case Str(_) => []
    case List(nodes) => EmitList(tag, nodes)
    case Dict(d) =>
      [Element(tag, PlainAttributes(d), TextOf(d),
               match Get(d, "_children")
               case Some(Dict(inner)) => EmitItems(inner)
               case _ => [])]
  }

  function EmitList(tag: string, nodes: seq<Value>): seq<Element>
    decreases nodes
  {
    if nodes == [] then []
    else EmitList(tag, nodes[..|nodes| - 1]) + EmitNode(tag, nodes[|nodes| - 1])
  }

  function EmitItems(d: Items): seq<Element>
    decreases d
  {
    if d == [] then [] else EmitItems(d[..|d| - 1]) + EmitItem(d[|d| - 1])
  }

  function EmitItem(item: (string, Value)): seq<Element>
    decreases item
  {
    EmitNode(item.0, item.1)
  }

  /** An element under construction. The library appends an element to its parent before filling it; here it is
      appended when it is complete. */
  class Builder {
    const tag: string
    const attrib: seq<(string, string)>
    var text: Option<string>
    var children: seq<Element>

    constructor (tag: string, attrib: seq<(string, string)>)
      ensures this.tag == tag && this.attrib == attrib && text == None && children == []
    {
      this.tag, this.attrib := tag, attrib;
      text, children := None, [];
    }

    function Built(): Element
      reads this
    {
      Element(tag, attrib, text, children)
    }
  }

  /** _emit_detail_node, and its twin for the protobuf field: appends to the parent's children. */
  method EmitDetailNode(parent: Builder, tag: string, node: Value)
    modifies parent
    ensures parent.children == old(parent.children) + EmitNode(tag, node) && parent.text == old(parent.text)
    decreases node
  {
    match node {
      case Str(_) =>
      case List(nodes) =>
        for i := 0 to |nodes|
          invariant parent.children == old(parent.children) + EmitList(tag, nodes[..i])
                  && parent.text == old(parent.text)
        {
          assert nodes[..i + 1][..i] == nodes[..i];
          EmitDetailNode(parent, tag, nodes[i]);
        }
        assert nodes[..|nodes|] == nodes;
      case Dict(d) =>
        var elem := new Builder(tag, PlainAttributes(d));
        var text := Get(d, "_text");
        if text.Some? && text.value.Str? {
          elem.text := Some(text.value.s);
        }
        var children := Get(d, "_children");
        if children.Some? && children.value.Dict? {
          var inner := children.value.items;
          for i := 0 to |inner|
            invariant parent.children == old(parent.children) && parent.text == old(parent.text)
            invariant elem.children == EmitItems(inner[..i]) && elem.text == TextOf(d)
          {
            assert inner[..i + 1][..i] == inner[..i];
            EmitDetailNode(elem, inner[i].0, inner[i].1);
          }
          assert inner[..|inner|] == inner;
        }
        parent.children := parent.children + [elem.Built()];
    }
  }

  // --- What survives ---

  /** Whether no attribute name anywhere in the tree starts with an underscore. */
  predicate Clean(e: Element)
    decreases e
  {
    (forall a | a in e.attrib :: a.0 == "" || a.0[0] != '_') && AllClean(e.children)
  }

  predicate AllClean(es: seq<Element>)
    decreases es
  {
    forall e | e in es :: Clean(e)
  }

  function WithTag(es: seq<Element>, tag: string): (r: seq<Element>)
    ensures forall e | e in r :: e in es && e.tag == tag
  {
    if es == [] then []
    else
      var n := |es| - 1;
      WithTag(es[..n], tag) + if es[n].tag == tag then [es[n]] else []
  }

  /** Insert behind the last element of the same tag, or at the end. */
  function InsertGrouped(es: seq<Element>, e: Element): seq<Element> {
    if es == [] then [e]
    else
      var n := |es| - 1;
      if es[n].tag == e.tag || WithTag(es, e.tag) == [] then es + [e]
      else InsertGrouped(es[..n], e) + [es[n]]
  }

  /** The reference for a round trip: same attributes, stripped text, children grouped by tag at the tag's first
      occurrence and otherwise in order. */
  function Canonical(e: Element): (r: Element)
    ensures r.tag == e.tag
    decreases e
  {
    Element(e.tag, e.attrib, StrippedText(e.text), CanonicalAll(e.children))
  }

  function CanonicalAll(es: seq<Element>): seq<Element>
    decreases es
  {
    if es == [] then [] else InsertGrouped(CanonicalAll(es[..|es| - 1]), Canonical(es[|es| - 1]))
  }

  // --- Dictionaries with distinct keys ---

  predicate DistinctKeys(d: Items) {
    forall i, j | 0 <= i < j < |d| :: d[i].0 != d[j].0
  }

  lemma {:induction false} AddKeepsDistinct(d: Items, key: string, node: Value)
    requires DistinctKeys(d)
    ensures DistinctKeys(Add(d, key, node))
  {
  }

  lemma {:induction false} CaptureDistinct(es: seq<Element>)
    ensures DistinctKeys(Capture(es))
  {
    if es != [] {
      var n := |es| - 1;
      CaptureDistinct(es[..n]);
      AddKeepsDistinct(Capture(es[..n]), es[n].tag, Node(es[n]));
    }
  }

  // --- Emitting item by item ---

  lemma {:induction false} EmitConcat(d: Items, e: Items)
    ensures EmitItems(d + e) == EmitItems(d) + EmitItems(e)
    decreases |e|
  {
    if e == [] {
      assert d + e == d;
    } else {
      var n := |e| - 1;
      assert (d + e)[..|d| + n] == d + e[..n];
      EmitConcat(d, e[..n]);
    }
  }

  lemma {:induction false} EmitTags(tag: string, node: Value)
    ensures forall e | e in EmitNode(tag, node) :: e.tag == tag
    decreases node
  {
    if node.List? {
      EmitListTags(tag, node.nodes);
    }
  }

  lemma {:induction false} EmitListTags(tag: string, nodes: seq<Value>)
    ensures forall e | e in EmitList(tag, nodes) :: e.tag == tag
    decreases nodes
  {
    if nodes != [] {
      EmitListTags(tag, nodes[..|nodes| - 1]);
      EmitTags(tag, nodes[|nodes| - 1]);
    }
  }

  /** Emitting a dictionary yields the elements of a tag only from the item of that key. */
  lemma {:induction false} EmitOtherTags(d: Items, tag: string)
    requires forall i | 0 <= i < |d| :: d[i].0 != tag
    ensures forall e | e in EmitItems(d) :: e.tag != tag
  {
    if d != [] {
      EmitOtherTags(d[..|d| - 1], tag);
      EmitTags(d[|d| - 1].0, d[|d| - 1].1);
    }
  }

  lemma {:induction false} NoneWithTag(es: seq<Element>, tag: string)
    requires forall e | e in es :: e.tag != tag
    ensures WithTag(es, tag) == []
  {
    if es != [] {
      NoneWithTag(es[..|es| - 1], tag);
    }
  }

  lemma {:induction false} WithTagNonEmpty(es: seq<Element>, e: Element)
    requires e in es
    ensures WithTag(es, e.tag) != []
  {
    var n := |es| - 1;
    if es[n] != e {
      WithTagNonEmpty(es[..n], e);
    }
  }

  /** Inserting lands right behind the group when the rest has other tags. */
  lemma {:induction false} InsertBehind(front: seq<Element>, back: seq<Element>, e: Element)
    requires front != [] && front[|front| - 1].tag == e.tag
    requires forall x | x in back :: x.tag != e.tag
    ensures InsertGrouped(front + back, e) == front + [e] + back
    decreases |back|
  {
    hide WithTag;
    var all := front + back;
    if back == [] {
      assert all == front;
      assert front + [e] + back == front + [e];
    } else {
      var n := |back| - 1;
      assert all[|front|..] == back && all[|all| - 1] == back[n];
      assert all[..|all| - 1] == front + back[..n];
      assert front[|front| - 1] in all;
      WithTagNonEmpty(all, front[|front| - 1]);
      InsertBehind(front, back[..n], e);
      assert front + [e] + back == (front + [e] + back[..n]) + [back[n]];
    }
  }

  lemma {:induction false} InsertNew(es: seq<Element>, e: Element)
    requires forall x | x in es :: x.tag != e.tag
    ensures InsertGrouped(es, e) == es + [e]
  {
    NoneWithTag(es, e.tag);
  }

  /** Every entry of a captured dictionary emits at least one element. */
  predicate Productive(v: Value) {
    v.Dict? || (v.List? && v.nodes != [] && forall n | n in v.nodes :: n.Dict?)
  }

  lemma {:induction false} LastOfNode(tag: string, v: Value)
    requires Productive(v)
    ensures EmitNode(tag, v) != [] && EmitNode(tag, v)[|EmitNode(tag, v)| - 1].tag == tag
  {
    EmitTags(tag, v);
    if v.List? {
      var n := |v.nodes| - 1;
      assert v.nodes[n] in v.nodes;
      assert EmitNode(tag, v.nodes[n]) != [];
    }
  }

  function Grown(v: Value, node: Value): Value {
    if v.List? then List(v.nodes + [node]) else List([v, node])
  }

  lemma {:induction false} EmitGrownEntry(tag: string, v: Value, node: Value)
    requires Productive(v)
    ensures EmitNode(tag, Grown(v, node)) == EmitNode(tag, v) + EmitNode(tag, node)
  {
    if v.List? {
      EmitListSnoc(tag, v.nodes, node);
    } else {
      EmitListSnoc(tag, [v], node);
      EmitListSnoc(tag, [], v);
      assert [] + [v] == [v] && [v] + [node] == [v, node];
    }
  }

  lemma {:induction false} EmitListSnoc(tag: string, nodes: seq<Value>, node: Value)
    ensures EmitList(tag, []) == []
    ensures EmitList(tag, nodes + [node]) == EmitList(tag, nodes) + EmitNode(tag, node)
  {
    assert (nodes + [node])[..|nodes|] == nodes;
  }

  lemma {:induction false} AddIs(d: Items, key: string, node: Value)
    ensures Add(d, key, node) ==
            match IndexOf(d, key)
            case None => d + [(key, node)]
            case Some(i) => d[i := (key, Grown(d[i].1, node))]
  {
  }

  lemma {:induction false} EmitAppended(d: Items, key: string, node: Value, e: Element)
    requires IndexOf(d, key).None? && EmitNode(key, node) == [e] && e.tag == key
    ensures EmitItems(d + [(key, node)]) == InsertGrouped(EmitItems(d), e)
  {
    hide EmitItems, EmitNode, InsertGrouped;
    EmitOtherTags(d, key);
    InsertNew(EmitItems(d), e);
    EmitThree(d, (key, node), []);
    assert d + [(key, node)] + [] == d + [(key, node)];
    assert EmitItems([]) == [] by { EmitNothing(); }
  }

  lemma {:induction false} EmitNothing()
    ensures EmitItems([]) == []
  {
  }

  /** Adding a captured node emits its element behind the group of its tag. */
  lemma {:induction false} EmitAdd(d: Items, key: string, node: Value, e: Element)
    requires DistinctKeys(d) && forall i | 0 <= i < |d| :: Productive(d[i].1)
    requires EmitNode(key, node) == [e] && e.tag == key
    ensures EmitItems(Add(d, key, node)) == InsertGrouped(EmitItems(d), e)
  {
    hide EmitItems, EmitNode, InsertGrouped, Productive;
    match IndexOf(d, key)
    case None =>
      EmitAppended(d, key, node, e);
    case Some(i) =>
      hide Add, IndexOf, Grown;
      AddIs(d, key, node);
      var v := d[i].1;
      var front, back := d[..i], d[i + 1..];
      assert d == front + [(key, v)] + back;
      assert d[i := (key, Grown(v, node))] == front + [(key, Grown(v, node))] + back;
      EmitReplaced(front, back, key, v, node, e);
  }

  lemma {:induction false} EmitReplaced(front: Items, back: Items, key: string, v: Value, node: Value, e: Element)
    requires forall i | 0 <= i < |back| :: back[i].0 != key
    requires Productive(v) && EmitNode(key, node) == [e] && e.tag == key
    ensures EmitItems(front + [(key, Grown(v, node))] + back) == InsertGrouped(EmitItems(front + [(key, v)] + back), e)
  {
    hide EmitItems, EmitNode, InsertGrouped, Productive, Grown;
    EmitThree(front, (key, v), back);
    EmitThree(front, (key, Grown(v, node)), back);
    EmitGrownEntry(key, v, node);
    LastOfNode(key, v);
    EmitOtherTags(back, key);
    var group := EmitNode(key, v);
    var before := EmitItems(front) + group;
    assert before[|before| - 1] == group[|group| - 1];
    InsertBehind(before, EmitItems(back), e);
    assert before + [e] + EmitItems(back) == EmitItems(front) + (group + [e]) + EmitItems(back);
  }

  lemma {:induction false} EmitThree(front: Items, item: (string, Value), back: Items)
    ensures EmitItems(front + [item] + back) == EmitItems(front) + EmitNode(item.0, item.1) + EmitItems(back)
  {
    EmitConcat(front + [item], back);
    assert (front + [item])[..|front|] == front;
    assert EmitItem(item) == EmitNode(item.0, item.1);
  }

  lemma {:induction false} AddKeepsProductive(d: Items, key: string, node: Value)
    requires node.Dict? && forall i | 0 <= i < |d| :: Productive(d[i].1)
    ensures forall i | 0 <= i < |Add(d, key, node)| :: Productive(Add(d, key, node)[i].1)
  {
  }

  lemma {:induction false} CaptureProductive(es: seq<Element>)
    ensures forall i | 0 <= i < |Capture(es)| :: Productive(Capture(es)[i].1)
  {
    hide Add, Productive;
    if es != [] {
      var n := |es| - 1;
      CaptureProductive(es[..n]);
      AddKeepsProductive(Capture(es[..n]), es[n].tag, Node(es[n]));
    }
  }

  // --- Capture and re-emit ---

  lemma {:induction false} PlainConcat(d: Items, e: Items)
    ensures PlainAttributes(d + e) == PlainAttributes(d) + PlainAttributes(e)
  {
    if d == [] {
      assert d + e == e;
    } else {
      assert (d + e)[1..] == d[1..] + e;
      PlainConcat(d[1..], e);
    }
  }

  lemma {:induction false} PlainOfAttributes(attrib: seq<(string, string)>)
    requires forall a | a in attrib :: !Underscored(a.0)
    ensures PlainAttributes(Attributes(attrib)) == attrib
  {
    if attrib != [] {
      assert attrib[0] in attrib && forall a | a in attrib[1..] :: a in attrib;
      PlainOfAttributes(attrib[1..]);
      assert attrib == [attrib[0]] + attrib[1..];
    }
  }

  lemma {:induction false} IndexOfConcat(d: Items, e: Items, key: string)
    ensures IndexOf(d + e, key) ==
            if IndexOf(d, key).Some? then IndexOf(d, key)
            else if IndexOf(e, key).Some? then Some(|d| + IndexOf(e, key).value) else None
  {
    if d == [] {
      assert d + e == e;
    } else {
      assert (d + e)[1..] == d[1..] + e;
      IndexOfConcat(d[1..], e, key);
    }
  }

  function TextItem(e: Element): Items {
    if StrippedText(e.text).Some? then [("_text", Str(StrippedText(e.text).value))] else []
  }

  function ChildrenItem(e: Element): Items {
    if e.children != [] then [("_children", Dict(Capture(e.children)))] else []
  }

  lemma {:induction false} NoSpecialAttributes(e: Element)
    requires Clean(e)
    ensures IndexOf(Attributes(e.attrib), "_text") == None && IndexOf(Attributes(e.attrib), "_children") == None
  {
    var d := Attributes(e.attrib);
    assert Underscored("_text") && Underscored("_children");
    assert forall i | 0 <= i < |d| :: d[i].0 == e.attrib[i].0 && e.attrib[i] in e.attrib;
  }

  /** The dictionary of a clean element: its attributes, then text, then children. */
  lemma {:induction false} NodeShape(e: Element)
    requires Clean(e)
    ensures Node(e) == Dict(Attributes(e.attrib) + TextItem(e) + ChildrenItem(e))
    ensures IndexOf(Attributes(e.attrib) + TextItem(e), "_children") == None
  {
    hide Capture, StrippedText, Attributes, IndexOf, Clean;
    var d := Attributes(e.attrib);
    NoSpecialAttributes(e);
    assert IndexOf(TextItem(e), "_children") == None by { SpecialItems(e); }
    IndexOfConcat(d, TextItem(e), "_children");
    assert d + [] == d && d + TextItem(e) + [] == d + TextItem(e);
  }

  /** What is stored for a clean element: its attributes in their order, the text that counts under _text, and the
      dictionary of its children under _children. */
  lemma {:induction false} StoredNode(e: Element)
    requires Clean(e)
    ensures var text := if e.text.Some? then Strip(e.text.value) else "";
            Node(e).Dict? &&
            var d, n := Node(e).items, |e.attrib|;
            && n <= |d| && (forall i | 0 <= i < n :: d[i] == (e.attrib[i].0, Str(e.attrib[i].1)))
            && d[n..] == (if text != "" then [("_text", Str(text))] else [])
                         + (if e.children != [] then [("_children", Dict(Capture(e.children)))] else [])
  {
    hide Capture, Strip, Clean;
    NodeShape(e);
    StripNothing();
    var a := Attributes(e.attrib);
    assert a + TextItem(e) + ChildrenItem(e) == a + (TextItem(e) + ChildrenItem(e));
    assert Node(e).items[|a|..] == TextItem(e) + ChildrenItem(e);
  }

  function NodesOf(es: seq<Element>): seq<Value> {
    seq(|es|, i requires 0 <= i < |es| => Node(es[i]))
  }

  /** Nothing, the only child, or the list of the children. */
  function StoredAs(nodes: seq<Value>): Option<Value> {
    if nodes == [] then None else if |nodes| == 1 then Some(nodes[0]) else Some(List(nodes))
  }

  /** What is stored for a tag is made of its children in order. */
  lemma {:induction false} StoredForTag(es: seq<Element>, tag: string)
    ensures Get(Capture(es), tag) == StoredAs(NodesOf(WithTag(es, tag)))
    decreases |es|
  {
    hide Node, Get, Add, StoredAs;
    if es == [] {
      NothingStored(tag);
      assert NodesOf(WithTag([], tag)) == [];
    } else {
      var n := |es| - 1;
      var before := WithTag(es[..n], tag);
      StoredForTag(es[..n], tag);
      NodeIsDict(es[n]);
      if es[n].tag == tag {
        NodesOfSnoc(before, es[n]);
        StoredSnoc(Capture(es[..n]), tag, Node(es[n]), NodesOf(before));
      } else {
        assert before + [] == before;
        GetAdd(Capture(es[..n]), es[n].tag, Node(es[n]), tag);
      }
    }
  }

  lemma {:induction false} NothingStored(tag: string)
    ensures Get([], tag) == StoredAs([]) == None
  {
  }

  lemma {:induction false} NodesOfSnoc(es: seq<Element>, e: Element)
    ensures NodesOf(es + [e]) == NodesOf(es) + [Node(e)]
    ensures forall v | v in NodesOf(es) :: v.Dict?
  {
    assert (es + [e])[..|es|] == es;
    forall v | v in NodesOf(es)
      ensures v.Dict?
    {
      var i :| 0 <= i < |es| && NodesOf(es)[i] == v;
      NodeIsDict(es[i]);
    }
  }

  lemma {:induction false} StoredSnoc(d: Items, key: string, node: Value, nodes: seq<Value>)
    requires Get(d, key) == StoredAs(nodes) && node.Dict? && forall v | v in nodes :: v.Dict?
    ensures Get(Add(d, key, node), key) == StoredAs(nodes + [node])
  {
    hide Get, Add;
    GetAdd(d, key, node, key);
    if |nodes| == 1 {
      assert nodes[0] in nodes && nodes + [node] == [nodes[0], node];
    }
  }

  lemma {:induction false} NodeIsDict(e: Element)
    ensures Node(e).Dict?
  {
  }

  lemma {:induction false} GetAdd(d: Items, key: string, node: Value, other: string)
    ensures Get(Add(d, key, node), other) ==
            if key != other then Get(d, other)
            else match Get(d, key)
                 case None => Some(node)
                 case Some(List(nodes)) => Some(List(nodes + [node]))
                 case Some(first) => Some(List([first, node]))
  {
    hide IndexOf, Add;
    IndexOfAdd(d, key, node, other);
    AddIs(d, key, node);
  }

  lemma {:induction false} SpecialItems(e: Element)
    ensures PlainAttributes(TextItem(e)) == [] && PlainAttributes(ChildrenItem(e)) == []
    ensures IndexOf(TextItem(e), "_children") == None && IndexOf(ChildrenItem(e), "_text") == None
    ensures IndexOf(TextItem(e), "_text") == if TextItem(e) == [] then None else Some(0)
    ensures IndexOf(ChildrenItem(e), "_children") == if ChildrenItem(e) == [] then None else Some(0)
  {
    hide Capture, StrippedText;
  }

  lemma {:induction false} NodeParts(e: Element)
    requires Clean(e)
    ensures Node(e).Dict?
    ensures PlainAttributes(Node(e).items) == e.attrib
    ensures TextOf(Node(e).items) == StrippedText(e.text)
    ensures Get(Node(e).items, "_children") == if e.children == [] then None else Some(Dict(Capture(e.children)))
  {
    hide Capture, StrippedText, Attributes, PlainAttributes, IndexOf, Node;
    var d, text, kids := Attributes(e.attrib), TextItem(e), ChildrenItem(e);
    NodeShape(e);
    NoSpecialAttributes(e);
    SpecialItems(e);
    IndexOfConcat(d, text, "_text");
    IndexOfConcat(d + text, kids, "_text");
    IndexOfConcat(d + text, kids, "_children");
    PlainConcat(d + text, kids);
    PlainConcat(d, text);
    PlainOfAttributes(e.attrib);
  }

  lemma {:induction false} EmitNodeCanonical(e: Element)
    requires Clean(e)
    ensures EmitNode(e.tag, Node(e)) == [Canonical(e)]
    decreases e
  {
    hide Node, PlainAttributes, TextOf, Get, Capture;
    NodeParts(e);
    EmitCapture(e.children);
    EmitNothing();
    assert e.children == [] ==> CanonicalAll(e.children) == [];
  }

  /** Re-emitting a captured tree yields its canonical form, at any depth. */
  lemma {:induction false} EmitCapture(es: seq<Element>)
    requires AllClean(es)
    ensures EmitItems(Capture(es)) == CanonicalAll(es)
    decreases es
  {
    hide Add, Node, EmitItems, EmitNode, InsertGrouped, Productive, DistinctKeys, Clean, Canonical;
    if es == [] {
      EmitNothing();
    } else {
      var n := |es| - 1;
      var front := es[..n];
      assert es[n] in es && forall e | e in front :: e in es;
      EmitCapture(front);
      EmitNodeCanonical(es[n]);
      CaptureDistinct(front);
      CaptureProductive(front);
      EmitAdd(Capture(front), es[n].tag, Node(es[n]), Canonical(es[n]));
    }
  }

  // --- What the canonical form keeps ---

  lemma {:induction false} WithTagInsert(es: seq<Element>, e: Element, tag: string)
    ensures WithTag(InsertGrouped(es, e), tag) == WithTag(es, tag) + if e.tag == tag then [e] else []
  {
    hide WithTag;
    if es == [] {
      assert [e] == [] + [e];
      WithTagSnoc([], e, tag);
    } else {
      var n := |es| - 1;
      if es[n].tag == e.tag || WithTag(es, e.tag) == [] {
        WithTagSnoc(es, e, tag);
      } else {
        WithTagInsert(es[..n], e, tag);
        assert es == es[..n] + [es[n]];
        WithTagSnoc(es[..n], es[n], tag);
        WithTagSnoc(InsertGrouped(es[..n], e), es[n], tag);
      }
    }
  }

  function CanonicalEach(es: seq<Element>): (r: seq<Element>)
    ensures |r| == |es| && forall i | 0 <= i < |r| :: r[i] == Canonical(es[i])
  {
    if es == [] then [] else CanonicalEach(es[..|es| - 1]) + [Canonical(es[|es| - 1])]
  }

  /** Grouping neither loses nor reorders the children of any one tag. */
  lemma {:induction false} GroupingKeepsTags(es: seq<Element>, tag: string)
    ensures WithTag(CanonicalAll(es), tag) == CanonicalEach(WithTag(es, tag))
    decreases |es|
  {
    if es != [] {
      hide InsertGrouped, Canonical;
      var n := |es| - 1;
      GroupingKeepsTags(es[..n], tag);
      WithTagInsert(CanonicalAll(es[..n]), Canonical(es[n]), tag);
      var before := WithTag(es[..n], tag);
      if es[n].tag == tag {
        assert (before + [es[n]])[..|before|] == before;
        assert CanonicalEach(before + [es[n]]) == CanonicalEach(before) + [Canonical(es[n])];
      }
    }
  }

  // --- Capturing again ---

  lemma {:induction false} IndexOfIs(d: Items, key: string, i: nat)
    requires i < |d| && d[i].0 == key && forall j | 0 <= j < i :: d[j].0 != key
    ensures IndexOf(d, key) == Some(i)
  {
    var j := IndexOf(d, key);
    assert d[i].0 == key ==> j.Some?;
  }

  lemma {:induction false} NoIndex(d: Items, key: string)
    requires forall j | 0 <= j < |d| :: d[j].0 != key
    ensures IndexOf(d, key) == None
  {
  }

  /** Adding under one key moves no other key. */
  lemma {:induction false} IndexOfAdd(d: Items, key: string, node: Value, other: string)
    ensures IndexOf(d, other).Some? ==> IndexOf(Add(d, key, node), other) == IndexOf(d, other)
    ensures IndexOf(d, other).None? ==> IndexOf(Add(d, key, node), other) == if key == other then Some(|d|) else None
  {
    hide IndexOf, Add;
    AddIs(d, key, node);
    var d' := Add(d, key, node);
    assert forall k | 0 <= k < |d| :: d'[k].0 == d[k].0;
    if IndexOf(d, other).Some? {
      IndexOfIs(d', other, IndexOf(d, other).value);
    } else if key == other {
      IndexOfIs(d', other, |d|);
    } else {
      NoIndex(d', other);
    }
  }

  lemma {:induction false} AddCommutes(d: Items, key: string, node: Value, other: string, node': Value)
    requires key != other && IndexOf(d, key).Some?
    ensures Add(Add(d, key, node), other, node') == Add(Add(d, other, node'), key, node)
  {
    hide Add, IndexOf, Grown;
    IndexOfAdd(d, key, node, other);
    IndexOfAdd(d, other, node', key);
    AddIs(d, key, node);
    AddIs(d, other, node');
    AddIs(Add(d, key, node), other, node');
    AddIs(Add(d, other, node'), key, node);
  }

  lemma {:induction false} CaptureHas(es: seq<Element>, tag: string)
    requires WithTag(es, tag) != []
    ensures IndexOf(Capture(es), tag).Some?
  {
    var n := |es| - 1;
    if es[n].tag != tag {
      CaptureHas(es[..n], tag);
    }
    IndexOfAdd(Capture(es[..n]), es[n].tag, Node(es[n]), tag);
  }

  lemma {:induction false} CaptureInsert(es: seq<Element>, e: Element)
    ensures Capture(InsertGrouped(es, e)) == Add(Capture(es), e.tag, Node(e))
    decreases |es|
  {
    hide Add, Node;
    if es == [] {
      assert [e][..0] == [];
    } else {
      var n := |es| - 1;
      if es[n].tag == e.tag || WithTag(es, e.tag) == [] {
        assert (es + [e])[..|es|] == es;
      } else {
        CaptureInsert(es[..n], e);
        CaptureHas(es[..n], e.tag);
        var inserted := InsertGrouped(es[..n], e);
        assert (inserted + [es[n]])[..|inserted|] == inserted;
        AddCommutes(Capture(es[..n]), e.tag, Node(e), es[n].tag, Node(es[n]));
      }
    }
  }

  lemma {:induction false} NodeOfCanonical(e: Element)
    ensures Node(Canonical(e)) == Node(e)
    decreases e
  {
    hide Capture, Attributes, Put, StrippedText;
    StripTwice(e.text);
    CaptureOfCanonical(e.children);
  }

  lemma {:induction false} InsertNotEmpty(es: seq<Element>, e: Element)
    ensures InsertGrouped(es, e) != []
  {
  }

  /** Capturing the canonical form gives the same dictionary: same key order, same one-versus-list shape. */
  lemma {:induction false} CaptureOfCanonical(es: seq<Element>)
    ensures Capture(CanonicalAll(es)) == Capture(es)
    ensures CanonicalAll(es) == [] <==> es == []
    decreases es
  {
    hide Add, Node, InsertGrouped, Canonical;
    if es != [] {
      var n := |es| - 1;
      CaptureOfCanonical(es[..n]);
      NodeOfCanonical(es[n]);
      InsertNotEmpty(CanonicalAll(es[..n]), Canonical(es[n]));
      CaptureInsert(CanonicalAll(es[..n]), Canonical(es[n]));
    }
  }

  /** capture(emit(capture(t))) == capture(t), for trees without underscored attribute names. */
  lemma {:induction false} CaptureEmitCapture(es: seq<Element>)
    requires AllClean(es)
    ensures Capture(EmitItems(Capture(es))) == Capture(es)
  {
    hide Capture, EmitItems, CanonicalAll, AllClean;
    EmitCapture(es);
    CaptureOfCanonical(es);
  }

  // --- Exactly when a tree survives ---

  /** b keeps what a says at every node: tag, attributes, stripped text and, for each tag, the ordered list of
      children with that tag. */
  ghost predicate Survives(a: Element, b: Element)
    decreases a
  {
    && a.tag == b.tag && a.attrib == b.attrib && StrippedText(a.text) == StrippedText(b.text)
    && AllSurvive(a.children, b.children)
  }

  ghost predicate AllSurvive(xs: seq<Element>, ys: seq<Element>)
    decreases xs
  {
    forall tag: string ::
      && |WithTag(xs, tag)| == |WithTag(ys, tag)|
      && forall i | 0 <= i < |WithTag(xs, tag)| ::
           var x := WithTag(xs, tag)[i];
           x in xs && Survives(x, WithTag(ys, tag)[i])
  }

  lemma {:induction false} SurvivesCanonical(e: Element)
    ensures Survives(e, Canonical(e))
    decreases e
  {
    StripTwice(e.text);
    AllSurviveCanonical(e.children);
  }

  lemma {:induction false} AllSurviveCanonical(es: seq<Element>)
    ensures AllSurvive(es, CanonicalAll(es))
    decreases es
  {
    hide Canonical, CanonicalAll, Survives;
    forall tag: string
      ensures |WithTag(es, tag)| == |WithTag(CanonicalAll(es), tag)|
      ensures forall i | 0 <= i < |WithTag(es, tag)| ::
                WithTag(es, tag)[i] in es && Survives(WithTag(es, tag)[i], WithTag(CanonicalAll(es), tag)[i])
    {
      GroupingKeepsTags(es, tag);
      forall i | 0 <= i < |WithTag(es, tag)|
        ensures WithTag(es, tag)[i] in es && Survives(WithTag(es, tag)[i], WithTag(CanonicalAll(es), tag)[i])
      {
        assert WithTag(es, tag)[i] in WithTag(es, tag);
        SurvivesCanonical(WithTag(es, tag)[i]);
      }
    }
  }

  lemma {:induction false} PlainIsClean(d: Items)
    ensures forall a | a in PlainAttributes(d) :: !Underscored(a.0)
  {
    if d != [] {
      PlainIsClean(d[1..]);
    }
  }

  /** Whatever is emitted carries no underscored attribute name. */
  lemma {:induction false} EmittedIsClean(tag: string, node: Value)
    ensures AllClean(EmitNode(tag, node))
    decreases node
  {
    match node
    case Str(_) =>
    case List(nodes) => EmittedListIsClean(tag, nodes);
    case Dict(d) =>
      PlainIsClean(d);
      match Get(d, "_children")
      case Some(Dict(inner)) => EmittedItemsAreClean(inner);
      case _ =>
  }

  lemma {:induction false} EmittedListIsClean(tag: string, nodes: seq<Value>)
    ensures AllClean(EmitList(tag, nodes))
    decreases nodes
  {
    if nodes != [] {
      EmittedListIsClean(tag, nodes[..|nodes| - 1]);
      EmittedIsClean(tag, nodes[|nodes| - 1]);
    }
  }

  lemma {:induction false} EmittedItemsAreClean(d: Items)
    ensures AllClean(EmitItems(d))
    decreases d
  {
    if d != [] {
      EmittedItemsAreClean(d[..|d| - 1]);
      EmittedItemIsClean(d[|d| - 1]);
    }
  }

  lemma {:induction false} EmittedItemIsClean(item: (string, Value))
    ensures AllClean(EmitItem(item))
    decreases item
  {
    EmittedIsClean(item.0, item.1);
  }

  lemma {:induction false} SurvivorsAreClean(xs: seq<Element>, ys: seq<Element>)
    requires AllSurvive(xs, ys) && AllClean(ys)
    ensures AllClean(xs)
    decreases xs
  {
    hide Survives, Clean;
    forall x | x in xs
      ensures Clean(x)
    {
      var mine, theirs := WithTag(xs, x.tag), WithTag(ys, x.tag);
      WithTagKeeps(xs, x);
      var i :| 0 <= i < |mine| && mine[i] == x;
      assert theirs[i] in theirs && theirs[i] in ys;
      SurvivorIsClean(x, theirs[i]);
    }
  }

  lemma {:induction false} SurvivorIsClean(x: Element, y: Element)
    requires Survives(x, y) && Clean(y)
    ensures Clean(x)
    decreases x
  {
    SurvivorsAreClean(x.children, y.children);
  }

  lemma {:induction false} WithTagKeeps(es: seq<Element>, e: Element)
    requires e in es
    ensures e in WithTag(es, e.tag)
  {
    var n := |es| - 1;
    if es[n] != e {
      WithTagKeeps(es[..n], e);
    }
  }

  /** Capture and re-emit loses nothing it promises to keep, at any depth, exactly for the trees in which no
      attribute name starts with an underscore. */
  lemma {:induction false} SurvivesIffClean(es: seq<Element>)
    ensures AllSurvive(es, EmitItems(Capture(es))) <==> AllClean(es)
  {
    hide AllSurvive, AllClean, EmitItems, Capture, CanonicalAll;
    if AllClean(es) {
      EmitCapture(es);
      AllSurviveCanonical(es);
    }
    if AllSurvive(es, EmitItems(Capture(es))) {
      EmittedItemsAreClean(Capture(es));
      SurvivorsAreClean(es, EmitItems(Capture(es)));
    }
  }

  // --- Around the typed fields ---

  /** The stored items that are re-emitted next to elements already written from typed fields. */
  function Without(d: Items, already: set<string>): Items {
    if d == [] then []
    else Without(d[..|d| - 1], already) + if d[|d| - 1].0 in already then [] else [d[|d| - 1]]
  }

  function Others(es: seq<Element>, already: set<string>): (r: seq<Element>)
    ensures forall e | e in r :: e in es && e.tag !in already
  {
    if es == [] then []
    else Others(es[..|es| - 1], already) + if es[|es| - 1].tag in already then [] else [es[|es| - 1]]
  }

  lemma {:induction false} WithoutConcat(d: Items, e: Items, already: set<string>)
    ensures Without(d + e, already) == Without(d, already) + Without(e, already)
    decreases |e|
  {
    if e == [] {
      assert d + e == d;
    } else {
      assert (d + e)[..|d + e| - 1] == d + e[..|e| - 1];
      WithoutConcat(d, e[..|e| - 1], already);
    }
  }

  lemma {:induction false} WithoutOne(d: Items, item: (string, Value), e: Items, already: set<string>)
    ensures Without(d + [item] + e, already) ==
            Without(d, already) + (if item.0 in already then [] else [item]) + Without(e, already)
  {
    WithoutConcat(d + [item], e, already);
    WithoutConcat(d, [item], already);
    assert [item][..0] == [];
  }

  lemma {:induction false} WithoutKeys(d: Items, already: set<string>, key: string)
    requires forall i | 0 <= i < |d| :: d[i].0 != key
    ensures forall i | 0 <= i < |Without(d, already)| :: Without(d, already)[i].0 != key
  {
    if d != [] {
      WithoutKeys(d[..|d| - 1], already, key);
    }
  }

  lemma {:induction false} WithoutAdd(d: Items, key: string, node: Value, already: set<string>)
    ensures Without(Add(d, key, node), already) ==
            if key in already then Without(d, already) else Add(Without(d, already), key, node)
  {
    hide Add, IndexOf, Without, Grown;
    AddIs(d, key, node);
    AddIs(Without(d, already), key, node);
    match IndexOf(d, key)
    case None =>
      WithoutSnoc(d, (key, node), already);
      WithoutKeys(d, already, key);
      NoIndex(Without(d, already), key);
    case Some(i) =>
      WithoutGrown(d[..i], d[i].1, d[i + 1..], key, node, already);
      assert d == d[..i] + [(key, d[i].1)] + d[i + 1..];
      assert d[i := (key, Grown(d[i].1, node))] == d[..i] + [(key, Grown(d[i].1, node))] + d[i + 1..];
  }

  lemma {:induction false} WithoutSnoc(d: Items, item: (string, Value), already: set<string>)
    ensures Without(d + [item], already) == Without(d, already) + if item.0 in already then [] else [item]
  {
    assert (d + [item])[..|d|] == d;
  }

  /** Growing one entry grows the same entry of what is left, or nothing. */
  lemma {:induction false} WithoutGrown(front: Items, v: Value, back: Items, key: string, node: Value,
      already: set<string>)
    requires forall i | 0 <= i < |front| :: front[i].0 != key
    ensures var d := Without(front + [(key, v)] + back, already);
            var d' := Without(front + [(key, Grown(v, node))] + back, already);
            if key in already then d' == d
            else
              var i := |Without(front, already)|;
              IndexOf(d, key) == Some(i) && d[i].1 == v && d' == d[i := (key, Grown(v, node))]
  {
    hide IndexOf, Without, Grown;
    WithoutOne(front, (key, v), back, already);
    WithoutOne(front, (key, Grown(v, node)), back, already);
    WithoutKeys(front, already, key);
    var f, b := Without(front, already), Without(back, already);
    if key !in already {
      var d := f + [(key, v)] + b;
      IndexOfIs(d, key, |f|);
      assert d[|f| := (key, Grown(v, node))] == f + [(key, Grown(v, node))] + b;
    }
  }

  lemma {:induction false} WithoutNothing(already: set<string>)
    ensures Without([], already) == []
  {
  }

  /** Leaving out tags commutes with capturing. */
  lemma {:induction false} CaptureOthers(es: seq<Element>, already: set<string>)
    ensures Without(Capture(es), already) == Capture(Others(es, already))
    decreases |es|
  {
    hide Add, Node, Without;
    if es == [] {
      WithoutNothing(already);
    } else {
      var n := |es| - 1;
      CaptureOthers(es[..n], already);
      WithoutAdd(Capture(es[..n]), es[n].tag, Node(es[n]), already);
      if es[n].tag !in already {
        CaptureStep(Others(es[..n], already) + [es[n]], |Others(es[..n], already)|);
        var kept := Others(es[..n], already) + [es[n]];
        assert kept[..|kept| - 1] == Others(es[..n], already) && kept[..|kept|] == kept;
      } else {
        assert Others(es[..n], already) + [] == Others(es[..n], already);
      }
    }
  }

  lemma {:induction false} WithTagSnoc(es: seq<Element>, e: Element, tag: string)
    ensures WithTag(es + [e], tag) == WithTag(es, tag) + if e.tag == tag then [e] else []
  {
    assert (es + [e])[..|es|] == es;
  }

  lemma {:induction false} OthersWithTag(es: seq<Element>, already: set<string>, tag: string)
    ensures WithTag(Others(es, already), tag) == if tag in already then [] else WithTag(es, tag)
  {
    hide WithTag;
    if es == [] {
      NoneWithTag([], tag);
    } else {
      var n := |es| - 1;
      var kept := Others(es[..n], already);
      OthersWithTag(es[..n], already, tag);
      assert es == es[..n] + [es[n]] && kept + [] == kept;
      WithTagSnoc(es[..n], es[n], tag);
      WithTagSnoc(kept, es[n], tag);
    }
  }

  lemma {:induction false} OthersClean(es: seq<Element>, already: set<string>)
    requires AllClean(es)
    ensures AllClean(Others(es, already))
  {
  }

  /** The detail element of the XML form: elements from typed fields first, then the stored rest. */
  function RestoreDetail(typed: seq<Element>, stored: Items): seq<Element> {
    typed + EmitItems(Without(stored, set e | e in typed :: e.tag))
  }

  /** The restore loops of both converters: emit what is stored under tags not written yet. */
  method EmitRest(parent: Builder, stored: Items, already: set<string>)
    modifies parent
    ensures parent.children == old(parent.children) + EmitItems(Without(stored, already))
            && parent.text == old(parent.text)
  {
    hide EmitItems, EmitNode, Without;
    WithoutNothing(already);
    EmitNothing();
    for i := 0 to |stored|
      invariant parent.children == old(parent.children) + EmitItems(Without(stored[..i], already))
      invariant parent.text == old(parent.text)
    {
      RestStep(stored, i, already);
      if stored[i].0 !in already {
        EmitDetailNode(parent, stored[i].0, stored[i].1);
      }
    }
    assert stored[..|stored|] == stored;
  }

  lemma {:induction false} RestStep(stored: Items, i: nat, already: set<string>)
    requires i < |stored|
    ensures EmitItems(Without(stored[..i + 1], already)) ==
            EmitItems(Without(stored[..i], already))
            + if stored[i].0 in already then [] else EmitNode(stored[i].0, stored[i].1)
  {
    hide EmitNode;
    assert stored[..i + 1] == stored[..i] + [stored[i]] + [];
    WithoutOne(stored[..i], stored[i], [], already);
    if stored[i].0 !in already {
      EmitThree(Without(stored[..i], already), stored[i], []);
    }
    assert EmitItems([]) == [] && Without([], already) == [];
    assert forall es: seq<Element> :: es + [] == es;
    assert forall d: Items :: d + [] == d;
  }

  /** The end of cto_to_cot_xml: the typed elements are there, the stored rest follows. */
  method RestoreInto(detail: Builder, stored: Items)
    modifies detail
    ensures detail.children == RestoreDetail(old(detail.children), stored)
  {
    var already := set e | e in detail.children :: e.tag;
    EmitRest(detail, stored, already);
  }

  lemma {:induction false} WithTagConcat(xs: seq<Element>, ys: seq<Element>, tag: string)
    ensures WithTag(xs + ys, tag) == WithTag(xs, tag) + WithTag(ys, tag)
    decreases |ys|
  {
    if ys == [] {
      assert xs + ys == xs;
    } else {
      var n := |ys| - 1;
      assert (xs + ys)[..|xs + ys| - 1] == xs + ys[..n] && (xs + ys)[|xs + ys| - 1] == ys[n];
      WithTagConcat(xs, ys[..n], tag);
      var last := if ys[n].tag == tag then [ys[n]] else [];
      assert WithTag(xs + ys, tag) == WithTag(xs + ys[..n], tag) + last;
      assert (WithTag(xs, tag) + WithTag(ys[..n], tag)) + last == WithTag(xs, tag) + (WithTag(ys[..n], tag) + last);
    }
  }

  /** XML to CTO to XML: whatever typed elements are written, for every other tag the original children come back
      in order and in canonical form, and a typed tag carries only the typed elements. */
  lemma {:induction false} XmlDetailRestored(es: seq<Element>, typed: seq<Element>, tag: string)
    requires AllClean(es)
    ensures WithTag(RestoreDetail(typed, Capture(es)), tag) ==
            if exists e :: e in typed && e.tag == tag then WithTag(typed, tag)
            else CanonicalEach(WithTag(es, tag))
  {
    hide EmitItems, Capture, Without, CanonicalAll, Others, AllClean, Canonical, WithTag, CanonicalEach;
    var already := set e | e in typed :: e.tag;
    CaptureOthers(es, already);
    OthersClean(es, already);
    EmitCapture(Others(es, already));
    var rest := CanonicalAll(Others(es, already));
    WithTagConcat(typed, rest, tag);
    GroupingKeepsTags(Others(es, already), tag);
    OthersWithTag(es, already, tag);
    if tag !in already {
      NoneWithTag(typed, tag);
    }
    EachOfNothing();
  }

  lemma {:induction false} EachOfNothing()
    ensures CanonicalEach([]) == []
  {
  }

  // --- Across protocols ---

  /** The XML library, as the protobuf field uses it: the inner text of a detail element, and parsing it back. */
  datatype XmlText = XmlText(inner: seq<Element> -> string, parseDetail: string -> Option<seq<Element>>)

  /** The stored detail after CTO to protobuf to CTO: none if the field stayed empty or did not parse. */
  function ThroughProtobuf(xml: XmlText, stored: Items): Option<Items> {
    var inner := xml.inner(EmitItems(Without(stored, {"contact", "track"})));
    if inner == "" then None
    else
      match xml.parseDetail("<detail>" + inner + "</detail>")
      case None => None
      case Some(children) => Some(Capture(children))
  }

  /** The library reads back these elements from their text, and writes no text only for no elements. */
  predicate Inverts(xml: XmlText, es: seq<Element>) {
    && xml.parseDetail("<detail>" + xml.inner(es) + "</detail>") == Some(es)
    && (xml.inner(es) == "" <==> es == [])
  }

  /** XML to CTO to protobuf to CTO keeps the stored detail, for every tag but contact and track and at any depth. */
  lemma {:induction false} BridgeKeepsDetail(xml: XmlText, es: seq<Element>)
    requires AllClean(es)
    requires Inverts(xml, EmitItems(Without(Capture(es), {"contact", "track"})))
    ensures var kept := Without(Capture(es), {"contact", "track"});
            ThroughProtobuf(xml, Capture(es)) == if kept == [] then None else Some(kept)
  {
    hide EmitItems, Capture, Without, CanonicalAll, Others, AllClean;
    var already := {"contact", "track"};
    var rest := Others(es, already);
    CaptureOthers(es, already);
    OthersClean(es, already);
    CaptureEmitCapture(rest);
    EmitCapture(rest);
    CaptureOfCanonical(rest);
    assert Capture([]) == [] by { CaptureNothing(); }
    assert EmitItems([]) == [] by { EmitNothing(); }
    if EmitItems(Capture(rest)) == [] {
      assert Capture(rest) == Capture([]);
    }
  }

  lemma {:induction false} CaptureNothing()
    ensures Capture([]) == []
  {
  }
}
