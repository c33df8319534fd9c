/**
 * The list rewrites behind `removeElement` and the double-click rename.
 */
module Edits {
  import opened Wrappers
  import opened Seqs
  import opened Diagram

  /** Removed along with element `id`: the element itself and every attribute it owns. */
  predicate Doomed(e: Element, id: Id) {
    e.id == id || (e.kind == Attribute && e.ownerId == Some(id))
  }

  /** The elements `removeElement(id)` keeps, in their original order. */
  function SurvivingElements(els: seq<Element>, id: Id): (r: seq<Element>)
    ensures forall e :: e in r ==> e.id != id && !(e.kind == Attribute && e.ownerId == Some(id))
    ensures forall e :: e in r <==> e in els && !Doomed(e, id)
  {
    Filter(els, (e: Element) => !Doomed(e, id))
  }

  /** The edges `removeElement(id)` keeps: those with neither end at `id`, in their original order. */
  function SurvivingEdges(edges: seq<Edge>, id: Id): (r: seq<Edge>)
    ensures forall ed :: ed in r ==> ed.fromId != id && ed.toId != id
    ensures forall ed :: ed in r <==> ed in edges && !Touches(ed, id)
  {
    Filter(edges, (ed: Edge) => ed.fromId != id && ed.toId != id)
  }

  /** Removal keeps every pair of elements joined at most once. */
  lemma SurvivingKeepsOneEdgePerPair(edges: seq<Edge>, id: Id)
    requires AtMostOneEdgePerPair(edges)
    ensures AtMostOneEdgePerPair(SurvivingEdges(edges, id))
  {
    FilterKeepsOneEdgePerPair(edges, (ed: Edge) => ed.fromId != id && ed.toId != id);
  }

  lemma {:induction false} FilterKeepsOneEdgePerPair(edges: seq<Edge>, p: Edge -> bool)
    requires AtMostOneEdgePerPair(edges)
    ensures AtMostOneEdgePerPair(Filter(edges, p))
  {
    if edges != [] {
      var t := edges[1..];
      assert AtMostOneEdgePerPair(t) by {
        forall i, j | 0 <= i < j < |t| ensures !Joins(t[j], t[i].fromId, t[i].toId) {
          assert t[i] == edges[i + 1] && t[j] == edges[j + 1];
        }
      }
      FilterKeepsOneEdgePerPair(t, p);
      if p(edges[0]) {
        var f := Filter(t, p);
        forall k | 0 <= k < |f| ensures !Joins(f[k], edges[0].fromId, edges[0].toId) {
          assert f[k] in t;
          var m :| 0 <= m < |t| && t[m] == f[k];
          assert edges[m + 1] == f[k];
        }
        ConsKeepsOneEdgePerPair(edges[0], f);
      } else {
        assert Filter(edges, p) == Filter(t, p);
      }
    }
  }

  lemma ConsKeepsOneEdgePerPair(x: Edge, t: seq<Edge>)
    requires AtMostOneEdgePerPair(t)
    requires forall k :: 0 <= k < |t| ==> !Joins(t[k], x.fromId, x.toId)
    ensures AtMostOneEdgePerPair([x] + t)
  {
    var s := [x] + t;
    forall i, j | 0 <= i < j < |s| ensures !Joins(s[j], s[i].fromId, s[i].toId) {
      assert s[j] == t[j - 1];
      if i > 0 {
        assert s[i] == t[i - 1];
      }
    }
  }

  /** Removal works piecewise, so whatever survives keeps its relative order. */
  lemma SurvivorsInOrder(a: seq<Element>, b: seq<Element>, c: seq<Edge>, d: seq<Edge>, id: Id)
    ensures SurvivingElements(a + b, id) == SurvivingElements(a, id) + SurvivingElements(b, id)
    ensures SurvivingEdges(c + d, id) == SurvivingEdges(c, id) + SurvivingEdges(d, id)
  {
    FilterConcat(a, b, (e: Element) => !Doomed(e, id));
    FilterConcat(c, d, (ed: Edge) => ed.fromId != id && ed.toId != id);
  }

  /** Removing an id nothing refers to leaves both lists as they are. */
  lemma RemoveAbsent(els: seq<Element>, edges: seq<Edge>, id: Id)
    requires forall e :: e in els ==> !Doomed(e, id)
    requires forall ed :: ed in edges ==> !Touches(ed, id)
    ensures SurvivingElements(els, id) == els && SurvivingEdges(edges, id) == edges
  {
    FilterAll(els, (e: Element) => !Doomed(e, id));
    FilterAll(edges, (ed: Edge) => ed.fromId != id && ed.toId != id);
  }

  /** Removal is idempotent: removing the same id a second time changes nothing. */
  lemma RemoveTwice(els: seq<Element>, edges: seq<Edge>, id: Id)
    ensures SurvivingElements(SurvivingElements(els, id), id) == SurvivingElements(els, id)
    ensures SurvivingEdges(SurvivingEdges(edges, id), id) == SurvivingEdges(edges, id)
  {
    RemoveAbsent(SurvivingElements(els, id), SurvivingEdges(edges, id), id);
  }

  /**
   * Edges are cleared only at the removed id itself: an edge from an
   * attribute removed with its owner to a third element survives, now with
   * an end that names no element.
   */
  lemma CascadeKeepsAttributeEdges(els: seq<Element>, edges: seq<Edge>, id: Id, attr: Element, ed: Edge)
    requires attr in els && attr.kind == Attribute && attr.ownerId == Some(id) && attr.id != id
    requires forall e :: e in els && e.id == attr.id ==> e == attr
    requires ed in edges && ed.fromId == attr.id && ed.toId != id
    ensures ed in SurvivingEdges(edges, id)
    ensures Find(SurvivingElements(els, id), ed.fromId).None?
  {
  }

  /** The list after renaming element `id` to `name`. */
  function Renamed(els: seq<Element>, id: Id, name: string): (r: seq<Element>)
    ensures |r| == |els|
    ensures forall i :: 0 <= i < |els| ==> r[i].(name := "") == els[i].(name := "")
    ensures forall i :: 0 <= i < |els| ==> r[i].name == if els[i].id == id then name else els[i].name
  {
    seq(|els|, i requires 0 <= i < |els| => if els[i].id == id then els[i].(name := name) else els[i])
  }

  /** After a rename, looking the element up finds it under its new name, all else unchanged. */
  lemma RenameFinds(els: seq<Element>, id: Id, name: string)
    requires Find(els, id).Some?
    ensures Find(Renamed(els, id, name), id) == Some(Find(els, id).value.(name := name))
  {
    var r := Renamed(els, id, name);
    var p := (e: Element) => e.id == id;
    var i :| 0 <= i < |els| && els[i] == Find(els, id).value && p(els[i]) &&
             forall j :: 0 <= j < i ==> !p(els[j]);
    FindAt(r, p, i);
  }

  lemma {:induction false} FindAt(s: seq<Element>, p: Element -> bool, i: nat)
    requires i < |s| && p(s[i]) && forall j :: 0 <= j < i ==> !p(s[j])
    ensures FindFirst(s, p) == Some(s[i])
  {
    if i > 0 {
      FindAt(s[1..], p, i - 1);
    }
  }
}
