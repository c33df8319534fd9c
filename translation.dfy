/**
 * `translateToRM`: the relational-schema text shown for the diagram, one
 * line `Table(col1, col2, ...)` per entity, in element order.
 */
module Translation {
  import opened Wrappers
  import opened Seqs
  import opened Diagram

  /** The characters JavaScript's `\s` matches. */
  predicate IsSpace(c: char) {
    c == '\t' || c == '\n' || c == '\U{000B}' || c == '\U{000C}' || c == '\r' || c == ' ' ||
    c == '\U{00A0}' || c == '\U{1680}' || '\U{2000}' <= c <= '\U{200A}' ||
    c == '\U{2028}' || c == '\U{2029}' || c == '\U{202F}' || c == '\U{205F}' ||
    c == '\U{3000}' || c == '\U{FEFF}'
  }

  predicate NoSpace(s: string) {
    forall i :: 0 <= i < |s| ==> !IsSpace(s[i])
  }

  /** Drops the whitespace at the front of `s`. */
  function SkipSpaces(s: string): (r: string)
    ensures |r| <= |s| && forall i :: 0 <= i < |r| ==> r[i] == s[|s| - |r| + i]
    ensures r == [] || !IsSpace(r[0])
    ensures forall i :: 0 <= i < |s| - |r| ==> IsSpace(s[i])
  {
    if s != [] && IsSpace(s[0]) then
      var r := SkipSpaces(s[1..]);
      SkipSpacesStep(s, r);
      r
    else s
  }

  lemma SkipSpacesStep(s: string, r: string)
    requires s != [] && IsSpace(s[0])
    requires |r| <= |s[1..]| && forall i :: 0 <= i < |r| ==> r[i] == s[1..][|s[1..]| - |r| + i]
    requires forall i :: 0 <= i < |s[1..]| - |r| ==> IsSpace(s[1..][i])
    ensures |r| <= |s| && forall i :: 0 <= i < |r| ==> r[i] == s[|s| - |r| + i]
    ensures forall i :: 0 <= i < |s| - |r| ==> IsSpace(s[i])
  {
    forall i | 0 <= i < |r| ensures r[i] == s[|s| - |r| + i] {
      assert s[1..][|s[1..]| - |r| + i] == s[|s| - |r| + i];
    }
    forall i | 0 < i < |s| - |r| ensures IsSpace(s[i]) {
      assert s[i] == s[1..][i - 1];
    }
  }

  /** `s.replace(/\s+/g, "_")`: every run of whitespace becomes one underscore. */
  function Underscored(s: string): (r: string)
    ensures NoSpace(r)
    ensures |r| <= |s|
    decreases |s|
  {
    if s == [] then []
    else if IsSpace(s[0]) then
      var t := Underscored(SkipSpaces(s[1..]));
      NoSpacePrepend('_', t);
      "_" + t
    else
      var t := Underscored(s[1..]);
      NoSpacePrepend(s[0], t);
      [s[0]] + t
  }

  lemma NoSpacePrepend(c: char, t: string)
    requires !IsSpace(c) && NoSpace(t)
    ensures NoSpace([c] + t)
  {
    forall i | 0 <= i < |[c] + t| ensures !IsSpace(([c] + t)[i]) {
      if i > 0 {
        assert ([c] + t)[i] == t[i - 1];
      }
    }
  }

  /** A name without whitespace is a table name as it stands. */
  lemma {:induction false} UnderscoredNoSpace(s: string)
    requires NoSpace(s)
    ensures Underscored(s) == s
  {
    if s != [] {
      UnderscoredNoSpace(s[1..]);
    }
  }

  /** Replacing whitespace a second time changes nothing. */
  lemma UnderscoredIdempotent(s: string)
    ensures Underscored(Underscored(s)) == Underscored(s)
  {
    UnderscoredNoSpace(Underscored(s));
  }

  /** A whitespace run between a word and the rest becomes exactly one underscore. */
  lemma {:induction false} UnderscoredRun(word: string, run: string, rest: string)
    requires NoSpace(word)
    requires run != [] && forall i :: 0 <= i < |run| ==> IsSpace(run[i])
    requires rest == [] || !IsSpace(rest[0])
    ensures Underscored(word + run + rest) == word + "_" + Underscored(rest)
  {
    if word == [] {
      assert word + run + rest == run + rest;
      UnderscoredLeadingRun(run, rest);
    } else {
      var s := word + run + rest;
      assert s[0] == word[0];
      assert s[1..] == word[1..] + run + rest;
      UnderscoredRun(word[1..], run, rest);
      assert word == [word[0]] + word[1..];
    }
  }

  lemma UnderscoredLeadingRun(run: string, rest: string)
    requires run != [] && forall i :: 0 <= i < |run| ==> IsSpace(run[i])
    requires rest == [] || !IsSpace(rest[0])
    ensures Underscored(run + rest) == "_" + Underscored(rest)
  {
    var s := run + rest;
    assert s[0] == run[0];
    assert s[1..] == run[1..] + rest;
    SpacesTail(run);
    SkipSpacesRun(run[1..], rest);
  }

  lemma SpacesTail(run: string)
    requires run != [] && forall i :: 0 <= i < |run| ==> IsSpace(run[i])
    ensures forall i :: 0 <= i < |run[1..]| ==> IsSpace(run[1..][i])
  {
  }

  lemma {:induction false} SkipSpacesRun(run: string, rest: string)
    requires forall i :: 0 <= i < |run| ==> IsSpace(run[i])
    requires rest == [] || !IsSpace(rest[0])
    ensures SkipSpaces(run + rest) == rest
  {
    if run == [] {
      assert run + rest == rest;
    } else {
      assert (run + rest)[1..] == run[1..] + rest;
      SkipSpacesRun(run[1..], rest);
    }
  }

  /** The end of `ed` that is not `id` (`ed.fromId === id ? ed.toId : ed.fromId`). */
  function OtherEnd(ed: Edge, id: Id): Id {
    if ed.fromId == id then ed.toId else ed.fromId
  }

  /**
   * The column an edge touching entity `entId` contributes: the name of the
   * attribute at its other end; `filter(Boolean)` drops an empty name.
   */
  function LinkedName(els: seq<Element>, ed: Edge, entId: Id): (r: Option<string>)
    ensures r.Some? ==> Touches(ed, entId) && r.value != "" &&
                        exists a :: a in els && a.kind == Attribute && a.id == OtherEnd(ed, entId) && a.name == r.value
    ensures !Touches(ed, entId) ==> r.None?
    ensures (forall a :: a in els ==> !(a.id == OtherEnd(ed, entId) && a.kind == Attribute)) ==> r.None?
    ensures Touches(ed, entId) ==>
              forall i :: 0 <= i < |els| && FirstAttributeAt(els, i, OtherEnd(ed, entId)) ==>
                r == (if els[i].name == "" then None else Some(els[i].name))
  {
    if !Touches(ed, entId) then None
    else
      match FindOfKind(els, OtherEnd(ed, entId), Attribute)
      case None => None
      case Some(a) => if a.name == "" then None else Some(a.name)
  }

  /** `els[i]` is the first attribute with id `id`, the one `find` returns. */
  predicate FirstAttributeAt(els: seq<Element>, i: nat, id: Id)
    requires i < |els|
  {
    els[i].kind == Attribute && els[i].id == id &&
    forall j :: 0 <= j < i ==> !(els[j].id == id && els[j].kind == Attribute)
  }

  /** An edge from the entity to the only attribute with a given id contributes that attribute's name. */
  lemma LinkedNameFinds(els: seq<Element>, ed: Edge, entId: Id, a: Element)
    requires Touches(ed, entId) && a in els && a.kind == Attribute && a.id == OtherEnd(ed, entId) && a.name != ""
    requires forall b :: b in els && b.kind == Attribute && b.id == a.id ==> b == a
    ensures LinkedName(els, ed, entId) == Some(a.name)
  {
    var k :| 0 <= k < |els| && els[k] == a;
    var i := FirstIndex(els, k, a.id);
    assert els[i] == a;
  }

  /** Some index at or before `k` holds the first attribute with id `id`. */
  lemma {:induction false} FirstIndex(els: seq<Element>, k: nat, id: Id) returns (i: nat)
    requires k < |els| && els[k].kind == Attribute && els[k].id == id
    ensures i <= k && FirstAttributeAt(els, i, id)
    decreases k
  {
    if exists j :: 0 <= j < k && els[j].id == id && els[j].kind == Attribute {
      var j :| 0 <= j < k && els[j].id == id && els[j].kind == Attribute;
      i := FirstIndex(els, j, id);
    } else {
      i := k;
    }
  }

  /** The names of attributes reached by an edge, in edge order. */
  function LinkedNames(els: seq<Element>, edges: seq<Edge>, entId: Id): (r: seq<string>)
    ensures forall n :: n in r <==> exists ed :: ed in edges && LinkedName(els, ed, entId) == Some(n)
  {
    if edges == [] then []
    else
      var head := match LinkedName(els, edges[0], entId) case None => [] case Some(n) => [n];
      var tail := LinkedNames(els, edges[1..], entId);
      assert forall ed :: ed in edges <==> ed == edges[0] || ed in edges[1..];
      head + tail
  }

  /** The attribute element owned by entity `entId`. */
  predicate OwnedBy(a: Element, entId: Id) {
    a.kind == Attribute && a.ownerId == Some(entId)
  }

  /** The names of attributes whose `ownerId` is the entity, in element order. */
  function OwnedNames(els: seq<Element>, entId: Id): (r: seq<string>)
    ensures forall n :: n in r <==> exists a :: a in els && OwnedBy(a, entId) && a.name == n
  {
    if els == [] then []
    else
      var tail := OwnedNames(els[1..], entId);
      assert forall a :: a in els <==> a == els[0] || a in els[1..];
      (if OwnedBy(els[0], entId) then [els[0].name] else []) + tail
  }

  datatype Table = Table(name: string, columns: seq<string>)

  /**
   * The table translated from entity `ent`: named after the entity with each
   * whitespace run replaced by `_`; its columns are the edge-reached names
   * and then the owned names, each once, at its first occurrence.
   */
  function TableOf(els: seq<Element>, edges: seq<Edge>, ent: Element): (t: Table)
    ensures t.name == Underscored(ent.name) && NoSpace(t.name)
    ensures Distinct(t.columns)
    ensures forall c :: c in t.columns <==>
              (exists ed :: ed in edges && LinkedName(els, ed, ent.id) == Some(c)) ||
              (exists a :: a in els && OwnedBy(a, ent.id) && a.name == c)
    ensures var linked := Dedup(LinkedNames(els, edges, ent.id));
            |linked| <= |t.columns| && t.columns[..|linked|] == linked
  {
    DedupPrefix(LinkedNames(els, edges, ent.id), OwnedNames(els, ent.id));
    Table(Underscored(ent.name), Dedup(LinkedNames(els, edges, ent.id) + OwnedNames(els, ent.id)))
  }

  /** `cols.join(", ")`. */
  function Join(cols: seq<string>): string {
    if cols == [] then ""
    else if |cols| == 1 then cols[0]
    else cols[0] + ", " + Join(cols[1..])
  }

  /** One output line: `name(col1, col2, ...)` and a newline. */
  function Render(t: Table): string {
    t.name + "(" + Join(t.columns) + ")\n"
  }

  function Entities(els: seq<Element>): (r: seq<Element>)
    ensures forall e :: e in r <==> e in els && e.kind == Entity
  {
    Filter(els, (e: Element) => e.kind == Entity)
  }

  /** The entities of a list split in two are those of the first part, then those of the second. */
  lemma EntitiesInOrder(a: seq<Element>, b: seq<Element>)
    ensures Entities(a + b) == Entities(a) + Entities(b)
  {
    FilterConcat(a, b, (e: Element) => e.kind == Entity);
  }

  /** One table per entity, in element order. */
  function Tables(els: seq<Element>, edges: seq<Edge>): (r: seq<Table>)
    ensures |r| == |Entities(els)|
    ensures forall i :: 0 <= i < |r| ==> r[i] == TableOf(els, edges, Entities(els)[i])
  {
    var ents := Entities(els);
    seq(|ents|, i requires 0 <= i < |ents| => TableOf(els, edges, ents[i]))
  }

  /** The report's tables are exactly the tables of the diagram's entities. */
  lemma TablesOfEntities(els: seq<Element>, edges: seq<Edge>)
    ensures forall t :: t in Tables(els, edges) <==>
              exists e :: e in els && e.kind == Entity && t == TableOf(els, edges, e)
  {
    var ents, r := Entities(els), Tables(els, edges);
    forall t | t in r ensures exists e :: e in els && e.kind == Entity && t == TableOf(els, edges, e) {
      var i :| 0 <= i < |r| && r[i] == t;
      assert ents[i] in ents;
    }
    forall e | e in els && e.kind == Entity ensures TableOf(els, edges, e) in r {
      assert e in ents;
      var i :| 0 <= i < |ents| && ents[i] == e;
      assert r[i] == TableOf(els, edges, e);
    }
  }

  function Text(tables: seq<Table>): string {
    if tables == [] then "" else Render(tables[0]) + Text(tables[1..])
  }

  /** The report is assembled line by line: the text of two table lists is the two texts in order. */
  lemma {:induction false} TextConcat(a: seq<Table>, b: seq<Table>)
    ensures Text(a + b) == Text(a) + Text(b)
  {
    if a == [] {
      assert a + b == b;
    } else {
      assert (a + b)[0] == a[0] && (a + b)[1..] == a[1..] + b;
      TextConcat(a[1..], b);
    }
  }

  /** The whole report `translateToRM` shows: empty exactly when the diagram has no entity. */
  function RM(els: seq<Element>, edges: seq<Edge>): (r: string)
    ensures r == "" <==> Entities(els) == []
  {
    var ts := Tables(els, edges);
    assert ts != [] ==> Text(ts) == Render(ts[0]) + Text(ts[1..]);
    Text(ts)
  }

  /** The number of line breaks in `s`. */
  function NewlineCount(s: string): nat {
    if s == [] then 0 else (if s[0] == '\n' then 1 else 0) + NewlineCount(s[1..])
  }

  lemma {:induction false} NewlineCountConcat(a: string, b: string)
    ensures NewlineCount(a + b) == NewlineCount(a) + NewlineCount(b)
  {
    if a == [] {
      assert a + b == b;
    } else {
      assert (a + b)[0] == a[0] && (a + b)[1..] == a[1..] + b;
      NewlineCountConcat(a[1..], b);
    }
  }

  lemma {:induction false} NewlineFree(s: string)
    requires '\n' !in s
    ensures NewlineCount(s) == 0
  {
    if s != [] {
      assert s[0] in s;
      assert forall c :: c in s[1..] ==> c in s;
      NewlineFree(s[1..]);
    }
  }

  /** A name without whitespace has no line break. */
  lemma NoSpaceNoNewline(s: string)
    requires NoSpace(s)
    ensures '\n' !in s
  {
  }

  /** Columns without line breaks join into a text without line breaks. */
  lemma {:induction false} JoinNewlineFree(cols: seq<string>)
    requires forall c :: c in cols ==> '\n' !in c
    ensures '\n' !in Join(cols)
  {
    if |cols| > 1 {
      assert cols[0] in cols;
      assert forall c :: c in cols[1..] ==> c in cols;
      JoinNewlineFree(cols[1..]);
    } else if |cols| == 1 {
      assert cols[0] in cols;
    }
  }

  /** The table's name and columns hold no line break. */
  predicate OneLine(t: Table) {
    '\n' !in t.name && forall c :: c in t.columns ==> '\n' !in c
  }

  /** A table renders as exactly one line. */
  lemma RenderOneLine(t: Table)
    requires OneLine(t)
    ensures NewlineCount(Render(t)) == 1
  {
    JoinNewlineFree(t.columns);
    var body := t.name + "(" + Join(t.columns) + ")";
    assert Render(t) == body + "\n";
    assert '\n' !in body;
    NewlineFree(body);
    NewlineCountConcat(body, "\n");
    assert "\n"[1..] == "";
  }

  /** The text of `ts` has one line per table. */
  lemma {:induction false} TextLines(ts: seq<Table>)
    requires forall t :: t in ts ==> OneLine(t)
    ensures NewlineCount(Text(ts)) == |ts|
  {
    if ts != [] {
      assert ts[0] in ts;
      assert forall t :: t in ts[1..] ==> t in ts;
      RenderOneLine(ts[0]);
      TextLines(ts[1..]);
      NewlineCountConcat(Render(ts[0]), Text(ts[1..]));
    }
  }

  /** The table of an entity holds no line break when no attribute name does. */
  lemma TableOneLine(els: seq<Element>, edges: seq<Edge>, e: Element)
    requires forall a :: a in els && a.kind == Attribute ==> '\n' !in a.name
    ensures OneLine(TableOf(els, edges, e))
  {
    var t := TableOf(els, edges, e);
    NoSpaceNoNewline(t.name);
    forall c | c in t.columns ensures '\n' !in c {
      if ed :| ed in edges && LinkedName(els, ed, e.id) == Some(c) {
        var a :| a in els && a.kind == Attribute && a.id == OtherEnd(ed, e.id) && a.name == c;
      } else {
        var a :| a in els && OwnedBy(a, e.id) && a.name == c;
      }
    }
  }

  /**
   * `translateToRM` writes one line per entity, provided no attribute name
   * itself holds a line break (table names never do: whitespace becomes `_`).
   */
  lemma RMLines(els: seq<Element>, edges: seq<Edge>)
    requires forall a :: a in els && a.kind == Attribute ==> '\n' !in a.name
    ensures NewlineCount(RM(els, edges)) == |Entities(els)|
  {
    var ts := Tables(els, edges);
    TablesOfEntities(els, edges);
    forall t | t in ts ensures OneLine(t) {
      var e :| e in els && e.kind == Entity && t == TableOf(els, edges, e);
      TableOneLine(els, edges, e);
    }
    TextLines(ts);
  }

  /** An entity "Student" with one attribute "id" attached by the editor translates to `Student(id)`. */
  lemma StudentExample()
    ensures RM([Student(), StudentId()], [Edge(2, 1, 0, One, One)]) == "Student(id)\n"
  {
    var t := Tables([Student(), StudentId()], [Edge(2, 1, 0, One, One)]);
    StudentTables();
    StudentLine();
    assert t[1..] == [] && Text(t[1..]) == "";
    assert Text(t) == Render(t[0]) + "";
    assert Render(t[0]) + "" == Render(t[0]);
  }

  lemma StudentTables()
    ensures Tables([Student(), StudentId()], [Edge(2, 1, 0, One, One)]) == [Table("Student", ["id"])]
  {
    StudentEntities();
    SingleTable([Student(), StudentId()], [Edge(2, 1, 0, One, One)], Student());
    StudentTable();
  }

  lemma SingleTable(els: seq<Element>, edges: seq<Edge>, e: Element)
    requires Entities(els) == [e]
    ensures Tables(els, edges) == [TableOf(els, edges, e)]
  {
  }

  lemma StudentTable()
    ensures TableOf([Student(), StudentId()], [Edge(2, 1, 0, One, One)], Student()) == Table("Student", ["id"])
  {
    StudentColumns();
    StudentNameNoSpace();
    UnderscoredNoSpace("Student");
  }

  lemma StudentNameNoSpace()
    ensures NoSpace("Student")
  {
    var s := "Student";
    forall i | 0 <= i < |s| ensures !IsSpace(s[i]) {
      assert s[i] in {'S', 't', 'u', 'd', 'e', 'n'};
    }
  }

  lemma StudentLine()
    ensures Render(Table("Student", ["id"])) == "Student(id)\n"
  {
    assert Join(["id"]) == "id";
  }

  function Student(): Element {
    Element(0, Entity, 60, 60, 100, 50, "Student", false, false, None)
  }

  function StudentId(): Element {
    Element(1, Attribute, 200, 60, 40, 40, "id", false, false, Some(0))
  }

  lemma StudentEntities()
    ensures Entities([Student(), StudentId()]) == [Student()]
  {
    var isEntity := (e: Element) => e.kind == Entity;
    assert [Student(), StudentId()][1..] == [StudentId()];
    assert [StudentId()][1..] == [];
    assert Filter([StudentId()], isEntity) == [];
  }

  lemma StudentColumns()
    ensures TableOf([Student(), StudentId()], [Edge(2, 1, 0, One, One)], Student()).columns == ["id"]
  {
    StudentLinked();
    StudentOwned();
    StudentDedup();
  }

  lemma StudentLinked()
    ensures LinkedNames([Student(), StudentId()], [Edge(2, 1, 0, One, One)], 0) == ["id"]
  {
    var els, edges := [Student(), StudentId()], [Edge(2, 1, 0, One, One)];
    assert els[1..] == [StudentId()];
    assert FindFirst(els[1..], (e: Element) => e.id == 1 && e.kind == Attribute) == Some(StudentId());
    assert FindOfKind(els, 1, Attribute) == Some(StudentId());
    assert LinkedName(els, edges[0], 0) == Some("id");
    assert edges[1..] == [];
  }

  lemma StudentOwned()
    ensures OwnedNames([Student(), StudentId()], 0) == ["id"]
  {
    var els := [Student(), StudentId()];
    assert els[1..] == [StudentId()];
    assert [StudentId()][1..] == [];
    assert OwnedNames([StudentId()], 0) == ["id"];
  }

  lemma StudentDedup()
    ensures Dedup(["id"] + ["id"]) == ["id"]
  {
    assert ["id", "id"][..1] == ["id"];
    assert ["id"] + ["id"] == ["id", "id"];
    assert Dedup(["id"]) == ["id"];
  }
}
