/**
 The document tree as the grouping plugin touches it. An element carries its
 tag name, its class list, its other attributes (carried along untouched) and
 its ordered children; every other kind of node (text, comment, ...) is a leaf
 the plugin never looks into.
 */
module Nodes {
  import ClassList

  datatype Attribute = Attribute(name: string, value: string)

  datatype Node =
    | Element(name: string, classes: seq<string>, attrs: seq<Attribute>, content: seq<Node>)
    | Text(text: string)

  /** The tag of the wrapper the plugin creates around each run. */
  const GroupTag: string := "g"

  /** The class attribute text of an element. */
  function ClassValue(n: Node): string
    requires n.Element?
  {
    ClassList.Value(n.classes)
  }

  /**
   Removes class `c` from an element's class list; a node without a class
   list is passed through as it is.
   */
  function Strip(n: Node, c: string): (r: Node)
    ensures r.Element? == n.Element?
    ensures n.Text? ==> r == n
    ensures n.Element? ==>
      && r.name == n.name && r.attrs == n.attrs && r.content == n.content
      && c !in r.classes
      && (forall x :: x in r.classes <==> x in n.classes && x != c)
  {
    if n.Element? then n.(classes := ClassList.Remove(n.classes, c)) else n
  }

  /**
   The new group around a run: a `g` element whose class list is exactly
   `c`, with no other attributes, owning `members` in their given order.
   */
  function Wrapper(c: string, members: seq<Node>): (g: Node)
    ensures g.Element? && g.name == GroupTag
    ensures g.classes == [c]
    ensures g.attrs == [] && g.content == members
  {
    Element(GroupTag, ClassList.Add([], c), [], members)
  }
}
