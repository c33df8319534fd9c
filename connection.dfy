/**
 * `createConnection`: whether the editor lets two elements be joined by an
 * edge, and which label ("1" or "N") each end of the new edge gets.
 * Alerts become the `Rejection` returned; the role prompt shown when an
 * inheritance marker meets an entity becomes the `reply` parameter.
 */
module Connection {
  import opened Wrappers
  import opened Seqs
  import opened Diagram

  /** Why a connection was refused; the editor silently returns or alerts. */
  datatype Rejection =
    | SameElement                     // both clicks on one element
    | UnknownElement                  // an id names no element
    | EntityToEntity
    | RelationshipToRelationship
    | EntityToAttribute               // attributes are attached through ownerId only
    | AttributeToAttribute
    | InheritanceToInheritance
    | DuplicateEdge                   // the pair is already joined, in either orientation
    | IdentifyingNeedsStrongEntity    // identifying relationship offered a weak entity
    | RoleCancelled                   // the parent/child prompt was dismissed or left empty

  /**
   * The reply to the parent/child prompt: a dismissed prompt or an empty
   * reply cancels, "1" makes the entity the parent, any other reply a child.
   */
  function RoleOf(reply: Option<string>): Option<Card> {
    match reply
    case None => None
    case Some(s) => if s == "" then None else if s == "1" then Some(One) else Some(Many)
  }

  /** Reference rule: the kind pairs an edge may ever join. */
  predicate CompatibleKinds(a: Kind, b: Kind) {
    a != b && !(a == Entity && b == Attribute) && !(a == Attribute && b == Entity)
  }

  /** The kind checks, in the editor's order. */
  function KindCheck(k1: Kind, k2: Kind): (r: Option<Rejection>)
    ensures r.None? <==> CompatibleKinds(k1, k2)
  {
    if k1 == Entity && k2 == Entity then Some(EntityToEntity)
    else if k1 == Relationship && k2 == Relationship then Some(RelationshipToRelationship)
    else if (k1 == Entity && k2 == Attribute) || (k1 == Attribute && k2 == Entity) then Some(EntityToAttribute)
    else if k1 == Attribute && k2 == Attribute then Some(AttributeToAttribute)
    else if k1 == Inheritance && k2 == Inheritance then Some(InheritanceToInheritance)
    else None
  }

  /** A relationship flagged `isWeakRel`. */
  predicate IdentifyingRel(e: Element) {
    e.kind == Relationship && e.isWeakRel
  }

  /** One end is an identifying relationship and the other an entity. */
  predicate IdentifyingPair(e1: Element, e2: Element) {
    (IdentifyingRel(e1) && e2.kind == Entity) || (IdentifyingRel(e2) && e1.kind == Entity)
  }

  /** An identifying relationship offered a weak entity: the editor refuses this pair. */
  predicate WeakUnderIdentifying(e1: Element, e2: Element) {
    (IdentifyingRel(e1) && e2.kind == Entity && e2.isWeak) ||
    (IdentifyingRel(e2) && e1.kind == Entity && e1.isWeak)
  }

  /** One end is an inheritance marker and the other an entity. */
  predicate InheritancePair(e1: Element, e2: Element) {
    (e1.kind == Inheritance && e2.kind == Entity) || (e2.kind == Inheritance && e1.kind == Entity)
  }

  /**
   * The labels (fromCard, toCard) of a new edge from `e1` to `e2`: "N" at both
   * ends unless the identifying-relationship or the inheritance rule applies.
   */
  function Cards(e1: Element, e2: Element, reply: Option<string>): (r: Result<(Card, Card), Rejection>)
    ensures r.Err? <==> WeakUnderIdentifying(e1, e2) || (InheritancePair(e1, e2) && RoleOf(reply).None?)
    ensures r.Ok? && !IdentifyingPair(e1, e2) && !InheritancePair(e1, e2) ==> r.value == (Many, Many)
  {
    var identified :=
      if IdentifyingRel(e1) && e2.kind == Entity then
        (if e2.isWeak then Err(IdentifyingNeedsStrongEntity) else Ok((Many, One)))
      else if IdentifyingRel(e2) && e1.kind == Entity then
        (if e1.isWeak then Err(IdentifyingNeedsStrongEntity) else Ok((One, Many)))
      else Ok((Many, Many));
    if identified.Err? then identified
    else if e1.kind == Inheritance && e2.kind == Entity then
      match RoleOf(reply)
      case None => Err(RoleCancelled)
      case Some(One) => Ok((One, Many))
      case Some(Many) => Ok((Many, One))
    else if e2.kind == Inheritance && e1.kind == Entity then
      match RoleOf(reply)
      case None => Err(RoleCancelled)
      case Some(One) => Ok((Many, One))
      case Some(Many) => Ok((One, Many))
    else identified
  }

  /** Everything the editor demands before it adds an edge between `id1` and `id2`. */
  ghost predicate Connectable(els: seq<Element>, edges: seq<Edge>, id1: Id, id2: Id, reply: Option<string>) {
    id1 != id2 && Find(els, id1).Some? && Find(els, id2).Some? &&
    var e1, e2 := Find(els, id1).value, Find(els, id2).value;
    CompatibleKinds(e1.kind, e2.kind) && !Linked(edges, id1, id2) &&
    !WeakUnderIdentifying(e1, e2) && !(InheritancePair(e1, e2) && RoleOf(reply).None?)
  }

  /**
   * `createConnection(id1, id2)`: the edge (with the fresh id `eid`) the
   * editor would append, or why it refuses.
   */
  function Decide(els: seq<Element>, edges: seq<Edge>, id1: Id, id2: Id, reply: Option<string>, eid: Id)
    : (r: Result<Edge, Rejection>)
    ensures id1 == id2 ==> r == Err(SameElement)
    ensures r.Ok? <==> Connectable(els, edges, id1, id2, reply)
    ensures r.Ok? ==> r.value.id == eid && r.value.fromId == id1 && r.value.toId == id2
    ensures r.Ok? ==> Find(els, id1).Some? && Find(els, id2).Some?
    ensures (id1 != id2 && Find(els, id1).Some? && Find(els, id2).Some? &&
             CompatibleKinds(Find(els, id1).value.kind, Find(els, id2).value.kind) &&
             Linked(edges, id1, id2)) ==> r == Err(DuplicateEdge)
  {
    if id1 == id2 then Err(SameElement)
    else
      var f1, f2 := Find(els, id1), Find(els, id2);
      if f1.None? || f2.None? then Err(UnknownElement)
      else
        var e1, e2 := f1.value, f2.value;
        var kinds := KindCheck(e1.kind, e2.kind);
        if kinds.Some? then Err(kinds.value)
        else if FindFirst(edges, (ed: Edge) => Joins(ed, id1, id2)).Some? then Err(DuplicateEdge)
        else
          match Cards(e1, e2, reply)
          case Err(why) => Err(why)
          case Ok((fromCard, toCard)) => Ok(Edge(eid, id1, id2, fromCard, toCard))
  }

  /** Each forbidden kind pair between two distinct existing elements is refused with its own reason. */
  lemma KindRefusals(els: seq<Element>, edges: seq<Edge>, e1: Element, e2: Element, reply: Option<string>, eid: Id)
    requires e1.id != e2.id && Find(els, e1.id) == Some(e1) && Find(els, e2.id) == Some(e2)
    ensures var r := Decide(els, edges, e1.id, e2.id, reply, eid);
            (e1.kind == Entity && e2.kind == Entity ==> r == Err(EntityToEntity)) &&
            (e1.kind == Relationship && e2.kind == Relationship ==> r == Err(RelationshipToRelationship)) &&
            (e1.kind == Entity && e2.kind == Attribute ==> r == Err(EntityToAttribute)) &&
            (e1.kind == Attribute && e2.kind == Entity ==> r == Err(EntityToAttribute)) &&
            (e1.kind == Attribute && e2.kind == Attribute ==> r == Err(AttributeToAttribute)) &&
            (e1.kind == Inheritance && e2.kind == Inheritance ==> r == Err(InheritanceToInheritance))
  {
  }

  /** Legal pairs no special rule covers get "N" at both ends. */
  lemma DefaultCards(els: seq<Element>, edges: seq<Edge>, e1: Element, e2: Element, reply: Option<string>, eid: Id)
    requires Find(els, e1.id) == Some(e1) && Find(els, e2.id) == Some(e2)
    requires !IdentifyingPair(e1, e2) && !InheritancePair(e1, e2)
    requires Decide(els, edges, e1.id, e2.id, reply, eid).Ok?
    ensures Decide(els, edges, e1.id, e2.id, reply, eid) == Ok(Edge(eid, e1.id, e2.id, Many, Many))
  {
  }

  /**
   * An identifying relationship joined to a strong entity, in either argument
   * order: accepted, "N" at the relationship end and "1" at the entity end.
   */
  lemma IdentifyingWithStrongEntity(els: seq<Element>, edges: seq<Edge>, rel: Element, ent: Element,
                                    reply: Option<string>, eid: Id)
    requires Find(els, rel.id) == Some(rel) && Find(els, ent.id) == Some(ent)
    requires IdentifyingRel(rel) && ent.kind == Entity && !ent.isWeak
    requires !Linked(edges, rel.id, ent.id)
    ensures var r := Decide(els, edges, rel.id, ent.id, reply, eid);
            r.Ok? && CardAt(r.value, rel.id) == Many && CardAt(r.value, ent.id) == One
    ensures var r := Decide(els, edges, ent.id, rel.id, reply, eid);
            r.Ok? && CardAt(r.value, rel.id) == Many && CardAt(r.value, ent.id) == One
  {
    assert !Linked(edges, ent.id, rel.id);
  }

  /** An identifying relationship is never joined to a weak entity, in either argument order. */
  lemma IdentifyingWithWeakEntity(els: seq<Element>, edges: seq<Edge>, rel: Element, ent: Element,
                                  reply: Option<string>, eid: Id)
    requires Find(els, rel.id) == Some(rel) && Find(els, ent.id) == Some(ent)
    requires IdentifyingRel(rel) && ent.kind == Entity && ent.isWeak
    requires !Linked(edges, rel.id, ent.id)
    ensures Decide(els, edges, rel.id, ent.id, reply, eid) == Err(IdentifyingNeedsStrongEntity)
    ensures Decide(els, edges, ent.id, rel.id, reply, eid) == Err(IdentifyingNeedsStrongEntity)
  {
    assert !Linked(edges, ent.id, rel.id);
  }

  /**
   * An inheritance marker joined to an entity, in either argument order: the
   * label chosen by the reply ("1" for a reply of "1", "N" for any other)
   * goes on the marker's end and the other label on the entity's end; a
   * cancelled prompt adds nothing.
   */
  lemma InheritanceRoles(els: seq<Element>, edges: seq<Edge>, inh: Element, ent: Element,
                         reply: Option<string>, eid: Id, swapped: bool)
    requires Find(els, inh.id) == Some(inh) && Find(els, ent.id) == Some(ent)
    requires inh.kind == Inheritance && ent.kind == Entity
    requires !Linked(edges, inh.id, ent.id)
    ensures var r := if swapped then Decide(els, edges, ent.id, inh.id, reply, eid)
                     else Decide(els, edges, inh.id, ent.id, reply, eid);
            match RoleOf(reply)
            case None => r == Err(RoleCancelled)
            case Some(role) =>
              r.Ok? && CardAt(r.value, inh.id) == role &&
              CardAt(r.value, ent.id) == (if role == One then Many else One)
  {
    assert !Linked(edges, ent.id, inh.id);
  }

  lemma {:induction false} CountJoiningAppend(edges: seq<Edge>, e: Edge, a: Id, b: Id)
    ensures CountJoining(edges + [e], a, b) == CountJoining(edges, a, b) + (if Joins(e, a, b) then 1 else 0)
  {
    if edges == [] {
      assert edges + [e] == [e];
    } else {
      assert (edges + [e])[1..] == edges[1..] + [e];
      CountJoiningAppend(edges[1..], e, a, b);
    }
  }

  /**
   * Connecting the same pair twice: the first call adds the only edge of that
   * pair, and the second call, in either orientation, is refused as a duplicate.
   */
  lemma ConnectTwice(els: seq<Element>, edges: seq<Edge>, a: Id, b: Id,
                     reply: Option<string>, eid: Id, reply': Option<string>, eid': Id)
    requires Decide(els, edges, a, b, reply, eid).Ok?
    ensures var e := Decide(els, edges, a, b, reply, eid).value;
            CountJoining(edges, a, b) == 0 && CountJoining(edges + [e], a, b) == 1 &&
            Decide(els, edges + [e], a, b, reply', eid') == Err(DuplicateEdge) &&
            Decide(els, edges + [e], b, a, reply', eid') == Err(DuplicateEdge)
  {
    var e := Decide(els, edges, a, b, reply, eid).value;
    CountJoiningAppend(edges, e, a, b);
    assert e in edges + [e] && Joins(e, a, b) && Joins(e, b, a);
    assert Linked(edges + [e], a, b) && Linked(edges + [e], b, a);
  }

  /** An accepted connection keeps every pair of elements joined at most once. */
  lemma ConnectKeepsOneEdgePerPair(els: seq<Element>, edges: seq<Edge>, a: Id, b: Id,
                                   reply: Option<string>, eid: Id)
    requires AtMostOneEdgePerPair(edges)
    requires Decide(els, edges, a, b, reply, eid).Ok?
    ensures AtMostOneEdgePerPair(edges + [Decide(els, edges, a, b, reply, eid).value])
  {
    var e := Decide(els, edges, a, b, reply, eid).value;
    assert !Linked(edges, e.fromId, e.toId);
    AppendUnlinked(edges, e);
  }
}
