/** The generic labelled tree of the file format: the core only builds and reads it. */
module Tree {
  import opened Wrappers
  import opened Values

  /** A typed attribute value; `AOpaque` stands for float payloads and property blocks. */
  datatype Attr =
    | ABool(b: bool)
    | AByte(u: Byte)
    | AInt32(i: Int32)
    | AInt64(l: int)
    | ADouble(d: real)
    | AString(s: string)
    | AInt32Array(a: seq<Int32>)
    | ADoubleArray(ds: seq<real>)
    | AOpaque

  /** A node: name, ordered attributes, ordered children. */
  datatype Node = Node(name: string, attrs: seq<Attr>, children: seq<Node>)

  /** `Element.WithAttribute`: a leaf node carrying one attribute. */
  function Leaf(name: string, a: Attr): Node {
    Node(name, [a], [])
  }

  /** Position of the first node named `name` in `ns`. */
  function FirstNamed(ns: seq<Node>, name: string): (r: Option<nat>)
    ensures r.Some? ==> r.value < |ns| && ns[r.value].name == name
    ensures r.Some? ==> forall i :: 0 <= i < r.value ==> ns[i].name != name
    ensures r.None? ==> forall i :: 0 <= i < |ns| ==> ns[i].name != name
  {
    if |ns| == 0 then None
    else if ns[0].name == name then Some(0)
    else match FirstNamed(ns[1..], name)
      case None => None
      case Some(i) => Some(i + 1)
  }

  /** `IElement.FindChild`: the first child with the given name, if any. */
  function FindChild(n: Node, name: string): (r: Option<Node>)
    ensures r.Some? ==> r.value in n.children && r.value.name == name
    ensures r.None? ==> forall c :: c in n.children ==> c.name != name
  {
    match FirstNamed(n.children, name)
    case None => None
    case Some(i) => Some(n.children[i])
  }

  /** The first attribute of a node, if it has any (`Attributes.Length > 0`). */
  function FirstAttr(n: Option<Node>): (r: Option<Attr>)
    ensures r.Some? <==> n.Some? && |n.value.attrs| > 0
  {
    if n.Some? && |n.value.attrs| > 0 then Some(n.value.attrs[0]) else None
  }
}
