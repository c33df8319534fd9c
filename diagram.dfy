/**
 * The editor's data: diagram elements (entities, relationships, attributes,
 * inheritance markers) and the edges between them. An element is one flat
 * record, as in the editor, whose kind-specific flags are read only where
 * the kind calls for them; a flag the editor leaves undefined reads as false.
 */
module Diagram {
  import opened Wrappers
  import opened Seqs

  /** Element and edge identifiers, drawn from a counter (the editor uses timestamps). */
  type Id = nat

  datatype Kind = Entity | Relationship | Attribute | Inheritance

  /** An edge end label: "1" or "N". */
  datatype Card = One | Many

  datatype Element = Element(
    id: Id,
    kind: Kind,
    x: int,
    y: int,
    width: int,
    height: int,
    name: string,
    isWeak: bool,            // entities: drawn with a double border
    isWeakRel: bool,         // relationships: the identifying relationship of a weak entity
    ownerId: Option<Id>)     // attributes: the entity they belong to

  datatype Edge = Edge(id: Id, fromId: Id, toId: Id, fromCard: Card, toCard: Card)

  /** `elements.find(e => e.id === id)`. */
  function Find(els: seq<Element>, id: Id): (r: Option<Element>)
    ensures r.Some? ==> r.value in els && r.value.id == id
    ensures r.None? <==> forall e :: e in els ==> e.id != id
  {
    FindFirst(els, (e: Element) => e.id == id)
  }

  /** `elements.find(e => e.id === id && e.type === kind)`. */
  function FindOfKind(els: seq<Element>, id: Id, kind: Kind): (r: Option<Element>)
    ensures r.Some? ==> r.value in els && r.value.id == id && r.value.kind == kind
    ensures r.None? <==> forall e :: e in els ==> !(e.id == id && e.kind == kind)
  {
    FindFirst(els, (e: Element) => e.id == id && e.kind == kind)
  }

  /** The edge runs between `a` and `b`, in either orientation. */
  predicate Joins(ed: Edge, a: Id, b: Id) {
    (ed.fromId == a && ed.toId == b) || (ed.fromId == b && ed.toId == a)
  }

  /** The edge has `id` as one of its ends. */
  predicate Touches(ed: Edge, id: Id) {
    ed.fromId == id || ed.toId == id
  }

  /** Some edge already joins `a` and `b`. */
  predicate Linked(edges: seq<Edge>, a: Id, b: Id) {
    exists ed :: ed in edges && Joins(ed, a, b)
  }

  /** The number of edges joining `a` and `b`, in either orientation. */
  function CountJoining(edges: seq<Edge>, a: Id, b: Id): (n: nat)
    ensures n == 0 <==> !Linked(edges, a, b)
    ensures n <= |edges|
  {
    if edges == [] then 0
    else (if Joins(edges[0], a, b) then 1 else 0) + CountJoining(edges[1..], a, b)
  }

  /** No unordered pair of ids is joined by two edges. */
  ghost predicate AtMostOneEdgePerPair(edges: seq<Edge>) {
    forall i, j :: 0 <= i < j < |edges| ==> !Joins(edges[j], edges[i].fromId, edges[i].toId)
  }

  /** Appending an edge between two ids no edge joins yet keeps every pair joined at most once. */
  lemma AppendUnlinked(edges: seq<Edge>, e: Edge)
    requires AtMostOneEdgePerPair(edges)
    requires !Linked(edges, e.fromId, e.toId)
    ensures AtMostOneEdgePerPair(edges + [e])
  {
    var s := edges + [e];
    forall i, j | 0 <= i < j < |s|
      ensures !Joins(s[j], s[i].fromId, s[i].toId)
    {
      if j == |edges| {
        assert s[i] in edges;
      }
    }
  }

  /** The label at the end of `ed` that is attached to `id`. */
  function CardAt(ed: Edge, id: Id): Card
    requires Touches(ed, id)
  {
    if ed.fromId == id then ed.fromCard else ed.toCard
  }
}
