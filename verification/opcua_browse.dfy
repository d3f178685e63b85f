/**
 `browse` of internal/app/opcua/handler/browse.go: a walk over the address space of an OPC UA server,
 which may be cyclic, cut off below level 10.  The server is any function from a node to its
 attributes and references.
 */
module OpcuaBrowse {

  datatype Option<T> = None | Some(value: T)

  type NodeId = nat

  /** A value with its status: StatusOK, StatusBadAttributeIDInvalid, or any other one. */
  datatype Attr<T> = Good(value: T) | Invalid | Bad

  /** An AccessLevelType: eight flags. */
  type Access = x: nat | x < 256

  const CURRENT_WRITE := 2

  datatype Attrs = Attrs(
    nodeClass: Attr<nat>, browseName: Attr<string>, description: Attr<string>,
    access: Attr<Access>, dataType: Attr<string>)

  datatype RefType = HasComponent | Organizes | HasProperty

  datatype Server = Server(attributes: NodeId -> Option<Attrs>, references: (NodeId, RefType) -> Option<seq<NodeId>>)

  const NODE_CLASS_VARIABLE := 2

  datatype NodeDef = NodeDef(
    id: NodeId, nodeClass: nat, browseName: string, description: string,
    access: Access, writable: bool, dataType: string, path: string)

  function Join(a: string, b: string): string {
    if a == "" then b else a + "." + b
  }

  function Or<T>(a: Attr<T>, missing: T): T {
    if a.Good? then a.value else missing
  }

  /** The flag CurrentWrite is set. */
  predicate MayWrite(access: Access) {
    access / CURRENT_WRITE % 2 == 1
  }

  /** Class and name have to be there; the others may be missing, but may not fail otherwise. */
  function Described(id: NodeId, a: Attrs): Option<NodeDef> {
    if a.nodeClass.Good? && a.browseName.Good? && !a.description.Bad? && !a.access.Bad? && !a.dataType.Bad? then
      Some(NodeDef(id, a.nodeClass.value, a.browseName.value, Or(a.description, ""), Or(a.access, 0),
                   MayWrite(Or(a.access, 0)), Or(a.dataType, ""), ""))
    else None
  }

  function Define(srv: Server, n: NodeId): Option<NodeDef> {
    match srv.attributes(n)
    case None => None
    case Some(a) => Described(n, a)
  }

  function Self(def: NodeDef): seq<NodeDef> {
    if def.nodeClass == NODE_CLASS_VARIABLE then [def] else []
  }

  /** The result of browse with `left` levels to go, the node's own included. */
  function Listing(srv: Server, n: NodeId, path: string, left: nat): Option<seq<NodeDef>>
    decreases left, 1
  {
    if left == 0 then Some([]) else
    match Define(srv, n)
    case None => None
    case Some(d) =>
      var def := d.(path := Join(path, d.browseName));
      var c := ListingByType(srv, n, HasComponent, def.path, left - 1);
      var o := ListingByType(srv, n, Organizes, def.path, left - 1);
      var p := ListingByType(srv, n, HasProperty, def.path, left - 1);
      if c.None? || o.None? || p.None? then None else Some(Self(def) + c.value + o.value + p.value)
  }

  function ListingByType(srv: Server, n: NodeId, t: RefType, path: string, left: nat): Option<seq<NodeDef>>
    decreases left, 3
  {
    match srv.references(n, t)
    case None => None
    case Some(refs) => ListingOfAll(srv, refs, path, left)
  }

  function ListingOfAll(srv: Server, refs: seq<NodeId>, path: string, left: nat): Option<seq<NodeDef>>
    decreases left, 2, |refs|
  {
    if refs == [] then Some([])
    else
      var first := Listing(srv, refs[0], path, left);
      var rest := ListingOfAll(srv, refs[1..], path, left);
      if first.None? || rest.None? then None else Some(first.value + rest.value)
  }

  // ---------- the code ----------

  const MAX_LEVEL := 10

  function Left(level: nat): nat {
    if level > MAX_LEVEL then 0 else MAX_LEVEL + 1 - level
  }

  /** The nodeDef that browse fills in. */
  class Definition {
    const id: NodeId
    var nodeClass: nat
    var browseName: string
    var description: string
    var access: Access
    var writable: bool
    var dataType: string
    var path: string

    constructor (id: NodeId)
      ensures Record() == NodeDef(id, 0, "", "", 0, false, "", "")
    {
      this.id := id;
      nodeClass, browseName, description, access, writable, dataType, path := 0, "", "", 0, false, "", "";
    }

    function Record(): NodeDef
      reads this
    {
      NodeDef(id, nodeClass, browseName, description, access, writable, dataType, path)
    }
  }

  /** fillStatus; false is the error of the first status that is not acceptable. */
  method FillStatus(a: Attrs, def: Definition) returns (ok: bool)
    requires def.Record() == NodeDef(def.id, 0, "", "", 0, false, "", "")
    modifies def
    ensures Described(def.id, a) == if ok then Some(def.Record()) else None
    ensures ok <==> a.nodeClass.Good? && a.browseName.Good? && !a.description.Bad? && !a.access.Bad? && !a.dataType.Bad?
    ensures ok ==>
              && def.nodeClass == a.nodeClass.value && def.browseName == a.browseName.value
              && def.description == (if a.description.Good? then a.description.value else "")
              && def.access == (if a.access.Good? then a.access.value else 0)
              && (def.writable <==> a.access.Good? && a.access.value / 2 % 2 == 1)
              && def.dataType == (if a.dataType.Good? then a.dataType.value else "")
              && def.path == ""
  {
    if !a.nodeClass.Good? {
      return false;
    }
    def.nodeClass := a.nodeClass.value;
    if !a.browseName.Good? {
      return false;
    }
    def.browseName := a.browseName.value;
    match a.description {
      case Good(text) => def.description := text;
      case Invalid =>
      case Bad => return false;
    }
    match a.access {
      case Good(level) =>
        def.access := level;
        def.writable := (level as bv8) & (CURRENT_WRITE as bv8) == CURRENT_WRITE as bv8;
        WriteFlag(level);
      case Invalid =>
      case Bad => return false;
    }
    ok := FillDataType(a, def);
  }

  /** fillDataType */
  method FillDataType(a: Attrs, def: Definition) returns (ok: bool)
    modifies def`dataType
    ensures ok <==> !a.dataType.Bad?
    ensures def.dataType == if a.dataType.Good? then a.dataType.value else old(def.dataType)
  {
    if a.dataType.Good? {
      def.dataType := a.dataType.value;
    }
    ok := !a.dataType.Bad?;
  }

  lemma WriteFlag(level: Access)
    ensures (level as bv8) & (CURRENT_WRITE as bv8) == CURRENT_WRITE as bv8 <==> MayWrite(level)
  {
  }

  /** browse */
  method Browse(srv: Server, n: NodeId, path: string, level: nat) returns (r: Option<seq<NodeDef>>)
    ensures r == Listing(srv, n, path, Left(level))
    decreases Left(level), 1
  {
    if level > MAX_LEVEL {
      return Some([]);
    }
    var attrs := srv.attributes(n);
    if attrs.None? {
      return None;
    }
    var def := new Definition(n);
    var ok := FillStatus(attrs.value, def);
    if !ok {
      return None;
    }
    def.path := Join(path, def.browseName);
    r := BuildNodeList(srv, def.Record(), n, level);
  }

  /** buildNodeList */
  method BuildNodeList(srv: Server, def: NodeDef, n: NodeId, level: nat) returns (r: Option<seq<NodeDef>>)
    requires level <= MAX_LEVEL
    ensures var left := MAX_LEVEL - level;
            var c, o, p := ListingByType(srv, n, HasComponent, def.path, left),
                           ListingByType(srv, n, Organizes, def.path, left),
                           ListingByType(srv, n, HasProperty, def.path, left);
            r == if c.None? || o.None? || p.None? then None else Some(Self(def) + c.value + o.value + p.value)
    decreases Left(level) - 1, 3
  {
    var nodes := [];
    if def.nodeClass == NODE_CLASS_VARIABLE {
      nodes := nodes + [def];
    }
    assert nodes == Self(def);
    var components := BrowseChildren(srv, def, n, HasComponent, level);
    if components.None? {
      return None;
    }
    nodes := nodes + components.value;
    var organized := BrowseChildren(srv, def, n, Organizes, level);
    if organized.None? {
      return None;
    }
    nodes := nodes + organized.value;
    var properties := BrowseChildren(srv, def, n, HasProperty, level);
    if properties.None? {
      return None;
    }
    nodes := nodes + properties.value;
    r := Some(nodes);
  }

  /** Its closure browseChildren, for one type of reference. */
  method BrowseChildren(srv: Server, def: NodeDef, n: NodeId, t: RefType, level: nat) returns (r: Option<seq<NodeDef>>)
    requires level <= MAX_LEVEL
    ensures r == ListingByType(srv, n, t, def.path, MAX_LEVEL - level)
    decreases Left(level) - 1, 2
  {
    var refs := srv.references(n, t);
    if refs.None? {
      return None;
    }
    ghost var left := MAX_LEVEL - level;
    ghost var all := ListingOfAll(srv, refs.value, def.path, left);
    var nodes := [];
    assert refs.value[0..] == refs.value;
    PrependNothing(all);
    hide Listing, ListingOfAll, Prepend;
    for i := 0 to |refs.value|
      invariant all == Prepend(nodes, ListingOfAll(srv, refs.value[i..], def.path, left))
    {
      PrependStep(srv, refs.value, i, def.path, left, nodes);
      var children := Browse(srv, refs.value[i], def.path, level + 1);
      if children.None? {
        return None;
      }
      nodes := nodes + children.value;
    }
    PrependEnd(srv, refs.value, def.path, left, nodes);
    r := Some(nodes);
  }

  /** What a loop returns that has `nodes` so far and `rest` to come. */
  function Prepend(nodes: seq<NodeDef>, rest: Option<seq<NodeDef>>): Option<seq<NodeDef>> {
    if rest.None? then None else Some(nodes + rest.value)
  }

  lemma PrependNothing(rest: Option<seq<NodeDef>>)
    ensures Prepend([], rest) == rest
  {
    assert rest.Some? ==> [] + rest.value == rest.value;
  }

  lemma PrependStep(srv: Server, refs: seq<NodeId>, i: nat, path: string, left: nat, nodes: seq<NodeDef>)
    requires i < |refs|
    ensures Prepend(nodes, ListingOfAll(srv, refs[i..], path, left)) ==
              match Listing(srv, refs[i], path, left)
              case None => None
              case Some(x) => Prepend(nodes + x, ListingOfAll(srv, refs[i + 1..], path, left))
  {
    assert refs[i..][1..] == refs[i + 1..];
    var first, rest := Listing(srv, refs[i], path, left), ListingOfAll(srv, refs[i + 1..], path, left);
    if first.Some? && rest.Some? {
      assert nodes + (first.value + rest.value) == nodes + first.value + rest.value;
    }
  }

  lemma PrependEnd(srv: Server, refs: seq<NodeId>, path: string, left: nat, nodes: seq<NodeDef>)
    ensures Prepend(nodes, ListingOfAll(srv, refs[|refs|..], path, left)) == Some(nodes)
  {
    assert nodes + [] == nodes;
  }
}
