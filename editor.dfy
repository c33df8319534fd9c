/**
 * The diagram editor's store (`FullERDApp`): the element list, the edge
 * list and the selected entity, with the toolbar, mouse and persistence
 * operations that rewrite them. Ids come from a counter standing for
 * `Date.now()`; alerts become results; prompts become parameters.
 */
module Editor {
  import opened Wrappers
  import opened Seqs
  import opened Diagram
  import opened Connection
  import opened Geometry
  import opened Edits

  datatype AttributeError = NoEntitySelected | NotAnEntity

  /** The slot "erdDiagram" as `JSON.parse` reads it back: a document whose fields may be missing. */
  datatype Stored = Unparsable | Document(elements: Option<seq<Element>>, edges: Option<seq<Edge>>)

  datatype LoadOutcome = NothingSaved | ParseFailed | Incomplete | Loaded

  /** The browser's key-value store, reduced to the one slot the editor uses. */
  class Storage {
    var slot: Option<Stored>

    constructor (initial: Option<Stored>)
      ensures slot == initial
    {
      slot := initial;
    }
  }

  /** What `loadDiagram` installs from the slot, or why it installs nothing. */
  function Restore(slot: Option<Stored>): Result<(seq<Element>, seq<Edge>), LoadOutcome> {
    match slot
    case None => Err(NothingSaved)
    case Some(Unparsable) => Err(ParseFailed)
    case Some(Document(Some(els), Some(eds))) => Ok((els, eds))
    case Some(Document(_, _)) => Err(Incomplete)
  }

  /** What `saveDiagram` writes; loading it back gives both lists unchanged. */
  function Image(els: seq<Element>, edges: seq<Edge>): (s: Stored)
    ensures Restore(Some(s)) == Ok((els, edges))
  {
    Document(Some(els), Some(edges))
  }

  /** A counter value above every id the two lists mention. */
  function IdBound(els: seq<Element>, edges: seq<Edge>): (b: nat)
    ensures forall e :: e in els ==> e.id < b
    ensures forall ed :: ed in edges ==> ed.id < b && ed.fromId < b && ed.toId < b
  {
    var a := Bound(els, (e: Element) => e.id);
    var b := Bound(edges, (ed: Edge) => ed.id);
    var c := Bound(edges, (ed: Edge) => ed.fromId);
    var d := Bound(edges, (ed: Edge) => ed.toId);
    var ab := if a < b then b else a;
    var cd := if c < d then d else c;
    if ab < cd then cd else ab
  }

  class DiagramEditor {
    var elements: seq<Element>
    var edges: seq<Edge>
    var selectedEntityId: Option<Id>
    var nextId: nat

    /** The counter is above every id in use, so each id it hands out is fresh. */
    ghost predicate Valid()
      reads this
    {
      (forall i :: 0 <= i < |elements| ==> elements[i].id < nextId) &&
      (forall ed :: ed in edges ==> ed.id < nextId && ed.fromId < nextId && ed.toId < nextId)
    }

    constructor ()
      ensures Valid() && elements == [] && edges == [] && selectedEntityId == None && nextId == 0
    {
      elements, edges, selectedEntityId, nextId := [], [], None, 0;
    }

    /** A fresh identifier (the editor reads the clock). */
    method FreshId() returns (id: Id)
      requires Valid()
      modifies this`nextId
      ensures Valid() && id == old(nextId) && nextId == id + 1
      ensures forall e :: e in elements ==> e.id != id
      ensures forall ed :: ed in edges ==> ed.id != id && ed.fromId != id && ed.toId != id
    {
      id := nextId;
      nextId := nextId + 1;
    }

    /** `addEntity(weak)`. */
    method AddEntity(weak: bool) returns (id: Id)
      requires Valid()
      modifies this
      ensures Valid() && id == old(nextId) && nextId == id + 1
      ensures forall e :: e in old(elements) ==> e.id != id
      ensures elements == old(elements) +
                [Element(id, Entity, 60, 60, 100, 50, if weak then "Weak Entity" else "Entity", weak, false, None)]
      ensures edges == old(edges) && selectedEntityId == old(selectedEntityId)
    {
      id := FreshId();
      elements := elements +
        [Element(id, Entity, 60, 60, 100, 50, if weak then "Weak Entity" else "Entity", weak, false, None)];
    }

    /** `addRelationship()`; `identifying` is the toolbar's weak-relationship option. */
    method AddRelationship(identifying: bool) returns (id: Id)
      requires Valid()
      modifies this
      ensures Valid() && id == old(nextId) && nextId == id + 1
      ensures forall e :: e in old(elements) ==> e.id != id
      ensures elements == old(elements) + [Element(id, Relationship, 250, 100, 60, 60, "R", false, identifying, None)]
      ensures edges == old(edges) && selectedEntityId == old(selectedEntityId)
    {
      id := FreshId();
      elements := elements + [Element(id, Relationship, 250, 100, 60, 60, "R", false, identifying, None)];
    }

    /** `addInheritance()`. */
    method AddInheritance() returns (id: Id)
      requires Valid()
      modifies this
      ensures Valid() && id == old(nextId) && nextId == id + 1
      ensures forall e :: e in old(elements) ==> e.id != id
      ensures elements == old(elements) + [Element(id, Inheritance, 300, 200, 60, 50, "is-a", false, false, None)]
      ensures edges == old(edges) && selectedEntityId == old(selectedEntityId)
    {
      id := FreshId();
      elements := elements + [Element(id, Inheritance, 300, 200, 60, 50, "is-a", false, false, None)];
    }

    /** Clicking an element: an entity becomes the selection (`onElementMouseDown`). */
    method Select(el: Element)
      modifies this`selectedEntityId
      ensures selectedEntityId == if el.kind == Entity then Some(el.id) else old(selectedEntityId)
    {
      if el.kind == Entity {
        selectedEntityId := Some(el.id);
      }
    }

    /**
     * `addAttribute()`: needs a selected entity; appends one attribute owned
     * by it, placed to its right, and one edge from the attribute to it with
     * "1" at both ends. On failure nothing changes.
     */
    method AddAttribute() returns (r: Result<Id, AttributeError>)
      requires Valid()
      modifies this
      ensures Valid() && selectedEntityId == old(selectedEntityId)
      ensures r.Ok? <==> old(selectedEntityId).Some? &&
                         FindOfKind(old(elements), old(selectedEntityId).value, Entity).Some?
      ensures old(selectedEntityId).None? ==> r == Err(NoEntitySelected)
      ensures (old(selectedEntityId).Some? && FindOfKind(old(elements), old(selectedEntityId).value, Entity).None?)
                ==> r == Err(NotAnEntity)
      ensures r.Err? ==> elements == old(elements) && edges == old(edges) && nextId == old(nextId)
      ensures r.Ok? ==>
                var ent := FindOfKind(old(elements), old(selectedEntityId).value, Entity).value;
                var aid := r.value;
                aid == old(nextId) && nextId == aid + 2 &&
                (forall e :: e in old(elements) ==> e.id != aid) &&
                elements == old(elements) +
                  [Element(aid, Attribute, ent.x + ent.width + 40, ent.y, 40, 40, "attr", false, false, Some(ent.id))] &&
                edges == old(edges) + [Edge(aid + 1, aid, ent.id, One, One)]
      ensures old(AtMostOneEdgePerPair(edges)) ==> AtMostOneEdgePerPair(edges)
    {
      if selectedEntityId.None? {
        return Err(NoEntitySelected);
      }
      var found := FindOfKind(elements, selectedEntityId.value, Entity);
      if found.None? {
        return Err(NotAnEntity);
      }
      var ent := found.value;
      // two fresh ids, one for the attribute and one for its edge
      var aid, eid := nextId, nextId + 1;
      nextId := nextId + 2;
      var attr := Element(aid, Attribute, ent.x + ent.width + 40, ent.y, 40, 40, "attr", false, false, Some(ent.id));
      elements := elements + [attr];
      var link := Edge(eid, aid, ent.id, One, One);
      if AtMostOneEdgePerPair(edges) {
        assert !Linked(edges, aid, ent.id);
        AppendUnlinked(edges, link);
      }
      edges := edges + [link];
      r := Ok(aid);
    }

    /**
     * `createConnection(id1, id2)`, with `reply` the answer to the role
     * prompt: appends the edge `Decide` accepts, or changes nothing.
     */
    method Connect(id1: Id, id2: Id, reply: Option<string>) returns (r: Result<Edge, Rejection>)
      requires Valid()
      modifies this
      ensures Valid()
      ensures r == Decide(old(elements), old(edges), id1, id2, reply, old(nextId))
      ensures elements == old(elements) && selectedEntityId == old(selectedEntityId)
      ensures edges == if r.Ok? then old(edges) + [r.value] else old(edges)
      ensures old(AtMostOneEdgePerPair(edges)) ==> AtMostOneEdgePerPair(edges)
    {
      assert forall e :: e in elements ==> e.id < nextId;
      r := Decide(elements, edges, id1, id2, reply, nextId);
      if r.Ok? {
        if AtMostOneEdgePerPair(edges) {
          ConnectKeepsOneEdgePerPair(elements, edges, id1, id2, reply, nextId);
        }
        edges := edges + [r.value];
        nextId := nextId + 1;
      }
    }

    /**
     * `onMouseMove` while element `id` is dragged to (nx, ny): each element
     * with that id moves there unless its new box overlaps another element.
     */
    method Move(id: Id, nx: int, ny: int)
      requires Valid()
      modifies this`elements
      ensures Valid()
      ensures elements == Moved(old(elements), id, nx, ny)
    {
      var prev := elements;
      var next: seq<Element> := [];
      for i := 0 to |prev|
        invariant |next| == i
        invariant forall j :: 0 <= j < i ==> next[j] == Placed(prev, prev[j], id, nx, ny)
      {
        var e := prev[i];
        if e.id != id {
          next := next + [e];
        } else {
          var ok := CanPlace(prev, e, nx, ny);
          next := next + [if ok then e.(x := nx, y := ny) else e];
        }
      }
      assert next == Moved(prev, id, nx, ny);
      elements := next;
    }

    /**
     * `removeElement(id)`: drops the element, the attributes it owns and
     * the edges with an end at `id`, and clears the selection if it was `id`.
     */
    method Remove(id: Id)
      requires Valid()
      modifies this
      ensures Valid() && nextId == old(nextId)
      ensures elements == SurvivingElements(old(elements), id)
      ensures edges == SurvivingEdges(old(edges), id)
      ensures selectedEntityId == if old(selectedEntityId) == Some(id) then None else old(selectedEntityId)
      ensures old(AtMostOneEdgePerPair(edges)) ==> AtMostOneEdgePerPair(edges)
    {
      ghost var before := edges;
      assert forall e :: e in elements ==> e.id < nextId;
      edges := SurvivingEdges(edges, id);
      elements := SurvivingElements(elements, id);
      if selectedEntityId == Some(id) {
        selectedEntityId := None;
      }
      if AtMostOneEdgePerPair(before) {
        SurvivingKeepsOneEdgePerPair(before, id);
      }
    }

    /** The double-click rename: `reply` is the prompt's answer; a dismissed or empty answer changes nothing. */
    method Rename(id: Id, reply: Option<string>)
      requires Valid()
      modifies this`elements
      ensures Valid()
      ensures elements == if reply.Some? && reply.value != "" then Renamed(old(elements), id, reply.value)
                          else old(elements)
    {
      if reply.Some? && reply.value != "" {
        elements := Renamed(elements, id, reply.value);
      }
    }

    /** `saveDiagram()`: overwrites the slot with both lists. */
    method Save(storage: Storage)
      modifies storage
      ensures storage.slot == Some(Image(elements, edges))
    {
      storage.slot := Some(Image(elements, edges));
    }

    /**
     * `loadDiagram()`: replaces both lists together when the slot holds a
     * document with both fields; otherwise nothing changes.
     */
    method Load(storage: Storage) returns (outcome: LoadOutcome)
      requires Valid()
      modifies this
      ensures Valid() && selectedEntityId == old(selectedEntityId)
      ensures match Restore(storage.slot)
              case Ok((els, eds)) => outcome == Loaded && elements == els && edges == eds
              case Err(why) => outcome == why && elements == old(elements) && edges == old(edges)
    {
      match Restore(storage.slot)
      case Err(why) =>
        outcome := why;
      case Ok((els, eds)) =>
        elements, edges := els, eds;
        var b := IdBound(els, eds);
        if nextId < b {
          nextId := b;
        }
        outcome := Loaded;
    }
  }
}

/** Walk-throughs of this model: short editing sessions checked against the contracts above. */
module Scenarios {
  import opened Wrappers
  import opened Diagram
  import opened Connection
  import opened Translation
  import opened Editor

  /** Create entity "Student", give it an attribute, name that "id": the schema reads `Student(id)`. */
  method StudentEntity() returns (ed: DiagramEditor)
    ensures fresh(ed) && ed.Valid()
    ensures ed.elements == [Student()] && ed.edges == []
    ensures ed.nextId == 1 && ed.selectedEntityId == Some(0)
  {
    ed := new DiagramEditor();
    var s := ed.AddEntity(false);
    ed.Rename(s, Some("Student"));
    ed.Select(ed.elements[0]);
    assert ed.elements[0].(name := "") == Student().(name := "");
  }

  /** Adding an attribute to the selected entity, then renaming the attribute. */
  method StudentAttribute(ed: DiagramEditor)
    requires ed.Valid()
    requires ed.elements == [Student()] && ed.edges == []
    requires ed.nextId == 1 && ed.selectedEntityId == Some(0)
    modifies ed
    ensures ed.elements == [Student(), StudentId()]
    ensures ed.edges == [Edge(2, 1, 0, One, One)]
  {
    assert ed.elements[0] in ed.elements;
    assert FindOfKind(ed.elements, 0, Entity).Some?;
    var a := ed.AddAttribute();
    assert a == Ok(1);
    assert ed.elements[1] == StudentId().(name := "attr");
    ed.Rename(1, Some("id"));
    assert ed.elements[1] == StudentId();
  }

  /** The whole session: build the diagram, then translate it. */
  method StudentScenario() {
    var ed := StudentEntity();
    StudentAttribute(ed);
    StudentExample();
    assert RM(ed.elements, ed.edges) == "Student(id)\n";
  }

  /** Two entities cannot be joined directly, and the store is left as it was. */
  method EntityPairScenario() {
    var ed := new DiagramEditor();
    var a := ed.AddEntity(false);
    var b := ed.AddEntity(true);
    assert ed.elements[0].id == a && ed.elements[1].id == b && a != b;
    ghost var e1, e2 := ed.elements[0], ed.elements[1];
    assert e1.kind == Entity && e2.kind == Entity;
    assert Find(ed.elements, a) == Some(e1) && Find(ed.elements, b) == Some(e2);
    KindRefusals(ed.elements, ed.edges, e1, e2, None, ed.nextId);
    var r := ed.Connect(a, b, None);
    assert r == Err(EntityToEntity);
    assert ed.edges == [];
  }

  /** Saving and loading back restores both lists. */
  method SaveLoadScenario(storage: Storage)
    modifies storage
  {
    var ed := new DiagramEditor();
    var e := ed.AddEntity(false);
    var r := ed.AddRelationship(true);
    var c := ed.Connect(r, e, None);
    ghost var els, eds := ed.elements, ed.edges;
    ed.Save(storage);
    var other := new DiagramEditor();
    var outcome := other.Load(storage);
    assert outcome == Loaded && other.elements == els && other.edges == eds;
  }
}
