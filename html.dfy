/**
  Markup fragments as trees rather than strings. Each constructor records
  the arguments of one call to Yii's `Html` helper; how the helper escapes
  and prints them is not part of this model.
 */
module Html {
  import opened Wrappers
  import opened Php

  /** An options array: attribute names with the PHP values given for them. */
  type Attrs = seq<(string, Value)>

  datatype Node =
    /** `Html::tag(tag, content, options)`, the content being the concatenation of `children`. */
    | Element(tag: string, attrs: Attrs, children: seq<Node>)
    /** A value written as tag content. */
    | Text(content: Value)
    /** `Html::img(src)`. */
    | Image(src: Value)
    /** `Html::button(caption, options)`. */
    | Button(caption: string, options: Attrs)

  /** The value bound to `name` in an options array (the first binding). */
  function Attr(attrs: Attrs, name: string): Option<Value> {
    if attrs == [] then None
    else if attrs[0].0 == name then Some(attrs[0].1)
    else Attr(attrs[1..], name)
  }

  /** The `class` attribute of an element; other nodes have none. */
  function ClassOf(n: Node): Option<Value> {
    if n.Element? then Attr(n.attrs, "class") else None
  }

  /** The class attributes of a sequence of nodes, position by position. */
  function ClassesOf(nodes: seq<Node>): seq<Option<Value>> {
    if nodes == [] then [] else [ClassOf(nodes[0])] + ClassesOf(nodes[1..])
  }

  /** The class attributes of an element's children, in document order. */
  function ChildClasses(n: Node): seq<Option<Value>> {
    if n.Element? then ClassesOf(n.children) else []
  }

  /** The first node of `nodes` whose class attribute is exactly `cls`. */
  function FirstWithClass(nodes: seq<Node>, cls: string): Option<Node> {
    if nodes == [] then None
    else if ClassOf(nodes[0]) == Some(Str(cls)) then Some(nodes[0])
    else FirstWithClass(nodes[1..], cls)
  }

  /**
    The `div` child of `n` carrying class `cls`, as the selector `> div.cls`
    finds it first; none when the first child with that class is not a `div`.
   */
  function Part(n: Node, cls: string): Option<Node> {
    if n.Element? then
      match FirstWithClass(n.children, cls)
      case Some(p) => if p.Element? && p.tag == "div" then Some(p) else None
      case None => None
    else None
  }

  /** The content of the `div` child of `n` that carries class `cls`. */
  function ContentOf(n: Node, cls: string): Option<seq<Node>> {
    match Part(n, cls)
    case Some(p) => Some(p.children)
    case None => None
  }

  // The queries on short child lists, as the fragments have them.

  lemma ClassesOfOne(x: Node)
    ensures ClassesOf([x]) == [ClassOf(x)]
  {
    assert [x][1..] == [];
  }

  lemma ClassesOfTwo(x: Node, y: Node)
    ensures ClassesOf([x, y]) == [ClassOf(x), ClassOf(y)]
  {
    assert [x, y][1..] == [y];
    ClassesOfOne(y);
  }

  lemma ClassesOfThree(x: Node, y: Node, z: Node)
    ensures ClassesOf([x, y, z]) == [ClassOf(x), ClassOf(y), ClassOf(z)]
  {
    assert [x, y, z][1..] == [y, z];
    ClassesOfTwo(y, z);
  }

  lemma FirstWithClassOne(x: Node, cls: string)
    ensures FirstWithClass([x], cls) == if ClassOf(x) == Some(Str(cls)) then Some(x) else None
  {
    assert [x][1..] == [];
  }

  lemma FirstWithClassTwo(x: Node, y: Node, cls: string)
    ensures FirstWithClass([x, y], cls) ==
      if ClassOf(x) == Some(Str(cls)) then Some(x)
      else if ClassOf(y) == Some(Str(cls)) then Some(y)
      else None
  {
    assert [x, y][1..] == [y];
    FirstWithClassOne(y, cls);
  }

  lemma FirstWithClassThree(x: Node, y: Node, z: Node, cls: string)
    ensures FirstWithClass([x, y, z], cls) ==
      if ClassOf(x) == Some(Str(cls)) then Some(x)
      else if ClassOf(y) == Some(Str(cls)) then Some(y)
      else if ClassOf(z) == Some(Str(cls)) then Some(z)
      else None
  {
    assert [x, y, z][1..] == [y, z];
    FirstWithClassTwo(y, z, cls);
  }

  lemma AttrOfFour(p0: (string, Value), p1: (string, Value), p2: (string, Value), p3: (string, Value), name: string)
    ensures Attr([p0, p1, p2, p3], name) ==
      if p0.0 == name then Some(p0.1)
      else if p1.0 == name then Some(p1.1)
      else if p2.0 == name then Some(p2.1)
      else if p3.0 == name then Some(p3.1)
      else None
  {
    assert [p0, p1, p2, p3][1..] == [p1, p2, p3];
    assert [p1, p2, p3][1..] == [p2, p3];
    assert [p2, p3][1..] == [p3];
    assert [p3][1..] == [];
    assert Attr([p2, p3], name) == if p2.0 == name then Some(p2.1) else Attr([p3], name);
    assert Attr([p1, p2, p3], name) == if p1.0 == name then Some(p1.1) else Attr([p2, p3], name);
  }
}
