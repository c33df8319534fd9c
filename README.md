# ERD editor and normalization lesson: a Dafny model

This project models the core of a database-course web application written in
TypeScript/React. The core has three parts.

- **The ER-diagram editor store** (`FullERDApp` in `src/ERD/EditorApp.tsx`).
  It holds a list of diagram elements (entities, relationships, attributes and
  inheritance markers), a list of edges and the selected entity. The model
  covers the toolbar operations (add entity, relationship, attribute and
  inheritance marker), the edge-creation rules of `createConnection`
  (forbidden kind pairs, duplicates, and the "1"/"N" labels for identifying
  relationships and inheritance), dragging with overlap rejection, removal with
  the attribute cascade, renaming, save/load through a storage slot, and the
  translation of the diagram into relational-schema text (`translateToRM`).
- **The stage navigator** of `NormalizationDemo`. It keeps a stage index that
  stays inside the chosen normal form's stage list, and changing the normal
  form resets it.
- **The exercise pool** of `RandomExerciseComponent`. It draws exercises at
  random without repetition and refills the pool once every exercise has been
  drawn.

The editor is a class (`Editor.DiagramEditor`) whose methods rewrite its
fields. Each method is proved against a pure function over the lists:
`Connection.Decide`, `Geometry.Moved`, `Edits.SurvivingElements`,
`Edits.SurvivingEdges` and `Edits.Renamed`. The properties the editor promises
are lemmas about those functions:
- adding an attribute, connecting and removing each keep every pair of
  elements joined by at most one edge when the pairs were so joined before;
  a load takes the stored edge list as it is, so this is not promised of a
  loaded diagram;
- a drag never moves an element onto one with another id;
- removal is idempotent;
- a saved diagram loads back unchanged.

`translateToRM` only reads the lists and shows a report, so it is the pure
function `Translation.RM`. Its lemmas are about the report itself:
- `Translation.RMLines`: it has one line per entity when no attribute name holds a line break;
- `Translation.Tables`' contract: one table per entity, the `i`-th table belonging to the `i`-th entity in element order (`Translation.EntitiesInOrder` relates that order to the element list);
- `Translation.TablesOfEntities`: the tables are exactly those of the diagram's entities;
- `Translation.TableOf`'s contract: each table's name and columns;
- `Translation.StudentExample`: a worked example.

The stage navigator and the exercise pool are classes too. The pool carries a ghost
record of the draws since the last refill. Its invariant says the pool is exactly
the indices not drawn yet. As in the code, the effect that receives a new
exercise list does not hide the solution, and an emptied pool is refilled
without a new exercise being drawn, so the next draw may repeat the exercise
on screen.

Files:
- `wrappers.dfy`: `Option` and `Result`.
- `seqs.dfy`: `find`, `filter` and `Array.from(new Set(..))` on sequences.
- `diagram.dfy`: elements, edges and lookups.
- `connection.dfy`: `createConnection`.
- `geometry.dfy`: `noOverlap` and dragging.
- `edits.dfy`: removal and renaming.
- `translation.dfy`: `translateToRM`.
- `editor.dfy`: the store class, the storage slot and three walk-throughs as methods.
- `normalization.dfy`: the stage navigator and the exercise pool.

In two places the code does something other than what its own comments and
messages describe. The model follows the code:
- **Identifying relationship.** The comments at `src/ERD/EditorApp.tsx` lines
  270-271 and 281, and the alert at line 282, say that an identifying
  (`isWeakRel`) relationship joins a regular entity with "1" and a weak entity
  with "N". The code instead refuses every weak entity. It accepts a regular
  entity, labelling the relationship end "N" and the entity end "1"
  (lines 272-303).
- **Inheritance role.** The comments at lines 307 and 314 say a parent is
  marked "1". The code applies the label that follows from the reply ("1" for a
  reply of "1", "N" otherwise) to the *inheritance marker's* end of the edge.
  The entity's end gets the other label (lines 309-333).

One consequence of the code as written concerns cascade removal. Removing an
entity also removes the attributes it owns (lines 412-419), but edges are
removed only where an end is the removed id itself (line 411). So an edge from
a removed attribute to a third element survives, with one end naming no
element. `Edits.CascadeKeepsAttributeEdges` states this.

## Model

| member | source | states |
|---|---|---|
| Seqs.FindFirst | src/ERD/EditorApp.tsx:216-217 | `find`: None exactly when no element satisfies the test; otherwise the first element that does, and none before it does |
| Seqs.Filter | src/ERD/EditorApp.tsx:181 | `filter`: keeps exactly the elements that pass, never grows |
| Seqs.FilterConcat | src/ERD/EditorApp.tsx:411-420 | filtering a concatenation is the concatenation of the filtered parts, so survivors keep their relative order |
| Seqs.FilterAll | src/ERD/EditorApp.tsx:411-420 | a filter that rejects nothing returns its input unchanged |
| Seqs.Dedup | src/ERD/EditorApp.tsx:207 | `Array.from(new Set(..))`: no value twice, exactly the input's values, never longer |
| Seqs.DedupOfDistinct | src/ERD/EditorApp.tsx:207 | a list without repetition is returned unchanged |
| Seqs.DedupPrefix | src/ERD/EditorApp.tsx:207 | values keep their first-occurrence order: de-duplicating `a + b` starts with de-duplicated `a` |
| Diagram.Find | src/ERD/EditorApp.tsx:216-217 | the element found has the id looked for and is in the list; None exactly when no element has that id |
| Diagram.FindOfKind | src/ERD/EditorApp.tsx:106-108 | the same, for an id and a kind together |
| Diagram.CountJoining | src/ERD/EditorApp.tsx:251-255 | the number of edges joining a pair in either orientation is zero exactly when no edge joins it |
| Diagram.AppendUnlinked | src/ERD/EditorApp.tsx:336-340 | appending an edge between an unjoined pair keeps every pair joined at most once |
| Connection.KindCheck | src/ERD/EditorApp.tsx:221-248 | the chain of kind checks lets through exactly the pairs of different kinds other than entity and attribute |
| Connection.RoleOf | src/ERD/EditorApp.tsx:310-312 | the reply to the role prompt; what each reply does to the edge is stated by `Connection.InheritanceRoles` |
| Connection.KindRefusals | src/ERD/EditorApp.tsx:221-248 | each forbidden kind pair between two distinct existing elements is refused with its own reason (entity and attribute in either order) |
| Connection.Cards | src/ERD/EditorApp.tsx:262-333 | the labels fail exactly for a weak entity under an identifying relationship or a cancelled role prompt; pairs no rule covers get "N" at both ends |
| Connection.Decide | src/ERD/EditorApp.tsx:214-341 | the same element twice is refused; an edge is produced exactly when both ids exist, the kinds are compatible, the pair is not joined yet and the label rules accept; the edge runs from `id1` to `id2` with the fresh id; a compatible pair already joined is refused as a duplicate |
| Connection.DefaultCards | src/ERD/EditorApp.tsx:262-268 | an accepted edge outside the identifying and inheritance rules is labelled "N"–"N" |
| Connection.IdentifyingWithStrongEntity | src/ERD/EditorApp.tsx:272-303 | an identifying relationship and a strong entity are joined in either argument order, "N" at the relationship end and "1" at the entity end |
| Connection.IdentifyingWithWeakEntity | src/ERD/EditorApp.tsx:272-297 | an identifying relationship and a weak entity are refused in either argument order |
| Connection.InheritanceRoles | src/ERD/EditorApp.tsx:309-333 | an inheritance marker and an entity are joined in either order; the reply's label ("1" for "1", "N" otherwise) is on the marker's end and the other label on the entity's end; a dismissed or empty reply adds nothing |
| Connection.CountJoiningAppend | src/ERD/EditorApp.tsx:336-340 | appending an edge adds one to a pair's count exactly when it joins that pair |
| Connection.ConnectTwice | src/ERD/EditorApp.tsx:251-259 | after an accepted connection the pair has exactly one edge, and connecting it again in either orientation is refused as a duplicate |
| Connection.ConnectKeepsOneEdgePerPair | src/ERD/EditorApp.tsx:250-340 | an accepted connection keeps every pair joined at most once |
| Geometry.OverlapIsSharedPoint | src/ERD/EditorApp.tsx:393-407 | for boxes of non-negative size, `noOverlap` fails exactly when the two closed boxes share a point |
| Geometry.TouchingOverlaps | src/ERD/EditorApp.tsx:401-406 | with the strict comparisons, boxes that only touch along a vertical side count as overlapping |
| Geometry.CanPlace | src/ERD/EditorApp.tsx:381-386 | the inner loop allows the move exactly when no element with another id overlaps the new box |
| Geometry.NoOverlap | src/ERD/EditorApp.tsx:393-407 | the strict box test; its meaning is stated by `Geometry.OverlapIsSharedPoint` and `Geometry.TouchingOverlaps` |
| Geometry.Placed | src/ERD/EditorApp.tsx:376-389 | the map callback for one element; what it does to each element is stated by the contract of `Geometry.Moved` |
| Geometry.Moved | src/ERD/EditorApp.tsx:375-390 | a drag changes at most the dragged element's x and y; elements with other ids stay as they were; a blocked drag leaves the element as it was; an unblocked one puts it exactly at the target; the list keeps its length |
| Geometry.MovedIsClear | src/ERD/EditorApp.tsx:380-388 | an element that moved overlaps no element with another id in the new list |
| Translation.SkipSpaces | src/ERD/EditorApp.tsx:184 | drops exactly a leading whitespace run: what it drops is whitespace and what it keeps starts with a non-space |
| Translation.Underscored | src/ERD/EditorApp.tsx:184 | `replace(/\s+/g, "_")` leaves no whitespace and never lengthens the name |
| Translation.UnderscoredNoSpace | src/ERD/EditorApp.tsx:184 | a name without whitespace is kept as it is |
| Translation.UnderscoredIdempotent | src/ERD/EditorApp.tsx:184 | replacing whitespace twice gives the same table name as once |
| Translation.UnderscoredRun | src/ERD/EditorApp.tsx:184 | a whitespace run between a word and the rest becomes exactly one underscore |
| Translation.UnderscoredLeadingRun | src/ERD/EditorApp.tsx:184 | a leading whitespace run becomes exactly one underscore |
| Translation.SkipSpacesRun | src/ERD/EditorApp.tsx:184 | a whole whitespace run is skipped and the rest is kept |
| Translation.LinkedName | src/ERD/EditorApp.tsx:188-200 | an edge that does not touch the entity, or whose other end is no attribute, gives nothing; otherwise it gives the name of the first attribute `find` meets with the other end's id, or nothing when that name is empty (`filter(Boolean)`) |
| Translation.LinkedNameFinds | src/ERD/EditorApp.tsx:188-200 | an edge from the entity to the only attribute with a given id contributes that attribute's non-empty name |
| Translation.LinkedNames | src/ERD/EditorApp.tsx:187-201 | exactly the names `LinkedName` gives for the edges: for each edge touching the entity, the non-empty name of the first attribute found at its other end (through that edge, a later attribute sharing the id contributes nothing) |
| Translation.OwnedNames | src/ERD/EditorApp.tsx:204-206 | exactly the names of attributes whose owner is the entity |
| Translation.TableOf | src/ERD/EditorApp.tsx:184-208 | the table name is the entity name with each whitespace run replaced by one `_` (pinned by the `Underscored` lemmas), so it has no whitespace; the columns have no repetition, are exactly the edge-linked and owned attribute names, and start with the edge-linked names in first-occurrence order |
| Translation.Entities | src/ERD/EditorApp.tsx:181 | exactly the entities of the element list |
| Translation.EntitiesInOrder | src/ERD/EditorApp.tsx:181-182 | the entities of a list split in two are those of the first part, then those of the second, so tables follow element order |
| Translation.Tables | src/ERD/EditorApp.tsx:181-209 | one table per entity, and the table at position `i` is that of the `i`-th entity in element order, so the report's lines follow the element list |
| Translation.TablesOfEntities | src/ERD/EditorApp.tsx:181-209 | the report's tables are exactly the tables of the diagram's entities |
| Translation.Join | src/ERD/EditorApp.tsx:208 | `join(", ")`; `Translation.JoinNewlineFree` states that it adds no line break |
| Translation.JoinNewlineFree | src/ERD/EditorApp.tsx:208 | columns without line breaks join into a text without line breaks |
| Translation.Render | src/ERD/EditorApp.tsx:208 | one output line; `Translation.RenderOneLine` states that it is exactly one line |
| Translation.RenderOneLine | src/ERD/EditorApp.tsx:208 | a table whose name and columns hold no line break renders as exactly one line |
| Translation.Text | src/ERD/EditorApp.tsx:182-209 | the lines of all tables, in order; stated by `Translation.TextConcat` and `Translation.TextLines` |
| Translation.TextLines | src/ERD/EditorApp.tsx:182-209 | the text of a table list has one line per table |
| Translation.TableOneLine | src/ERD/EditorApp.tsx:184-208 | when no attribute name holds a line break, neither does any table name or column |
| Translation.RM | src/ERD/EditorApp.tsx:178-211 | the report is empty exactly when the diagram has no entity; `Translation.RMLines` and `Translation.StudentExample` state the rest |
| Translation.RMLines | src/ERD/EditorApp.tsx:178-211 | the report has exactly one line per entity when no attribute name holds a line break |
| Translation.TextConcat | src/ERD/EditorApp.tsx:208 | the report is built line by line: the text of two table lists is the two texts in order |
| Translation.StudentExample | src/ERD/EditorApp.tsx:178-211 | an entity "Student" with the attribute "id" the editor attaches to it translates to `Student(id)` and a newline; the attribute, reached both through its edge and through its owner, is one column (proved in steps by the `Student…` lemmas beside it) |
| Edits.SurvivingElements | src/ERD/EditorApp.tsx:413-420 | exactly the elements that are neither the removed id nor an attribute it owns |
| Edits.SurvivingEdges | src/ERD/EditorApp.tsx:411 | exactly the edges with neither end at the removed id |
| Edits.SurvivingKeepsOneEdgePerPair | src/ERD/EditorApp.tsx:411 | removal keeps every pair joined at most once |
| Edits.FilterKeepsOneEdgePerPair | src/ERD/EditorApp.tsx:411 | any filter of the edge list keeps every pair joined at most once |
| Edits.ConsKeepsOneEdgePerPair | src/ERD/EditorApp.tsx:411 | a leading edge whose pair no later edge joins keeps every pair joined at most once |
| Edits.SurvivorsInOrder | src/ERD/EditorApp.tsx:411-420 | removal works piecewise on both lists, so survivors keep their relative order |
| Edits.RemoveAbsent | src/ERD/EditorApp.tsx:409-422 | removing an id nothing refers to leaves both lists unchanged |
| Edits.RemoveTwice | src/ERD/EditorApp.tsx:409-422 | removing the same id twice is the same as removing it once |
| Edits.CascadeKeepsAttributeEdges | src/ERD/EditorApp.tsx:411-417 | an edge from a cascaded attribute to a third element survives removal, with its attribute end naming no element |
| Edits.Renamed | src/ERD/EditorApp.tsx:427-429 | same length; every element keeps everything but its name; elements with the id get the new name and the others keep theirs |
| Edits.RenameFinds | src/ERD/EditorApp.tsx:424-431 | after a rename, looking the id up finds the same element under its new name |
| Edits.FindAt | src/ERD/EditorApp.tsx:216-217 | `find` returns the element at the first index that passes the test |
| Editor.Storage.constructor | src/ERD/EditorApp.tsx:156 | the slot starts with the given content |
| Editor.Restore | src/ERD/EditorApp.tsx:160-171 | what loading finds in the slot; stated by the contracts of `Editor.Image` (round trip) and `Editor.DiagramEditor.Load` (each outcome) |
| Editor.Image | src/ERD/EditorApp.tsx:154-175 | what saving writes, loading reads back as exactly the two lists |
| Editor.DiagramEditor.constructor | src/ERD/EditorApp.tsx:44-64 | the editor starts with no elements, no edges and no selection |
| Editor.DiagramEditor.FreshId | src/ERD/EditorApp.tsx:70 | the id handed out is used by no element or edge, and the counter moves past it |
| Editor.DiagramEditor.AddEntity | src/ERD/EditorApp.tsx:69-82 | appends one entity at (60, 60), size 100×50, named "Weak Entity" or "Entity" and weak as asked, with a fresh id; nothing else changes |
| Editor.DiagramEditor.AddRelationship | src/ERD/EditorApp.tsx:85-98 | appends one relationship at (250, 100), size 60×60, named "R", identifying as the toolbar option says, with a fresh id |
| Editor.DiagramEditor.AddInheritance | src/ERD/EditorApp.tsx:139-151 | appends one inheritance marker at (300, 200), size 60×50, named "is-a", with a fresh id |
| Editor.DiagramEditor.Select | src/ERD/EditorApp.tsx:344-349 | clicking an entity selects it; clicking anything else keeps the selection |
| Editor.DiagramEditor.AddAttribute | src/ERD/EditorApp.tsx:101-136 | succeeds exactly when the selection names an entity; without a selection, or when it names no entity, it fails with that reason and nothing changes; on success it appends an attribute "attr" owned by the entity, 40×40, 40 units right of it at the same height, and an edge from the attribute to the entity with "1" at both ends; pairs stay joined at most once |
| Editor.DiagramEditor.Connect | src/ERD/EditorApp.tsx:214-341 | the outcome is `Decide` on the current lists; an accepted edge is appended and nothing else changes; pairs stay joined at most once |
| Editor.DiagramEditor.Move | src/ERD/EditorApp.tsx:371-391 | the element list becomes the `Moved` list |
| Editor.DiagramEditor.Remove | src/ERD/EditorApp.tsx:409-422 | both lists become their survivors; the selection is cleared when it was the removed id; pairs stay joined at most once |
| Editor.DiagramEditor.Rename | src/ERD/EditorApp.tsx:424-431 | a non-empty reply renames every element with the id; a dismissed or empty reply changes nothing |
| Editor.DiagramEditor.Save | src/ERD/EditorApp.tsx:154-158 | the slot then holds both lists |
| Editor.DiagramEditor.Load | src/ERD/EditorApp.tsx:159-175 | a document with both fields replaces both lists; no saved diagram, an unparsable one or a document missing a field leaves both lists unchanged and reports which |
| Scenarios.StudentEntity | src/ERD/EditorApp.tsx:69-82 | adding an entity and renaming it "Student" gives the single entity of the translation example, selected |
| Scenarios.StudentAttribute | src/ERD/EditorApp.tsx:101-136 | adding an attribute to the selected Student and renaming it "id" yields the example's two elements and its one edge |
| Normalization.StageCount | src/NormalizationApp/NormalizationDemo.tsx:41-297 | every normal form has a stage (3 for 1NF, 4 for 3NF, 3 for BCNF, 4 for 4NF) |
| Normalization.NextStage | src/NormalizationApp/NormalizationDemo.tsx:599-603 | the next button moves one stage on and stays put exactly at the last stage; the index stays in range |
| Normalization.PrevStage | src/NormalizationApp/NormalizationDemo.tsx:606-610 | the back button moves one stage back and stays put exactly at the first stage |
| Normalization.NextPrevInverse | src/NormalizationApp/NormalizationDemo.tsx:599-610 | next then back, or back then next, returns to the same stage away from the ends |
| Normalization.Advance | src/NormalizationApp/NormalizationDemo.tsx:599-603 | any number of presses of next keeps the index in range |
| Normalization.AdvanceStops | src/NormalizationApp/NormalizationDemo.tsx:599-603 | k presses of next move k stages on, stopping at the last stage |
| Normalization.StageNavigator.constructor | src/NormalizationApp/NormalizationDemo.tsx:590-591 | the lesson opens at the first stage with the theory hidden |
| Normalization.StageNavigator.Next | src/NormalizationApp/NormalizationDemo.tsx:599-603 | the stage becomes `NextStage` of the old one and stays in range |
| Normalization.StageNavigator.Prev | src/NormalizationApp/NormalizationDemo.tsx:606-610 | the stage becomes `PrevStage` of the old one and stays in range |
| Normalization.StageNavigator.ChangeForm | src/NormalizationApp/NormalizationDemo.tsx:613-617 | a new normal form starts at its first stage with the theory hidden |
| Normalization.StageNavigator.ToggleInfo | src/NormalizationApp/NormalizationDemo.tsx:675 | the theory panel flips between shown and hidden |
| Normalization.Range | src/NormalizationApp/NormalizationDemo.tsx:483 | `exercises.map((_, idx) => idx)`: n distinct indices, exactly those below n |
| Normalization.Without | src/NormalizationApp/NormalizationDemo.tsx:505 | `filter(i => i !== k)`: exactly the indices other than k |
| Normalization.FilterFilter | src/NormalizationApp/NormalizationDemo.tsx:505 | two filters in a row are one filter by the conjunction |
| Normalization.PoolDraw | src/NormalizationApp/NormalizationDemo.tsx:505 | drawing k from the pool gives the pool of the draws extended by k |
| Normalization.PoolFull | src/NormalizationApp/NormalizationDemo.tsx:499-500 | before any draw the pool is every index |
| Normalization.FilterDistinct | src/NormalizationApp/NormalizationDemo.tsx:505 | filtering keeps a list free of repetition |
| Normalization.WithoutShrinks | src/NormalizationApp/NormalizationDemo.tsx:505 | drawing an index from a pool without repetition shrinks it by exactly one |
| Normalization.PoolSize | src/NormalizationApp/NormalizationDemo.tsx:495-507 | the pool's size is the exercise count less the number of draws since the last refill |
| Normalization.ExercisePool.constructor | src/NormalizationApp/NormalizationDemo.tsx:477-479 | empty pool, no current exercise, solution hidden |
| Normalization.ExercisePool.Reset | src/NormalizationApp/NormalizationDemo.tsx:482-492 | with n exercises and n > 0, some index below n becomes current and the pool is every other index; with none, the pool is empty and the current exercise stays |
| Normalization.ExercisePool.GetNext | src/NormalizationApp/NormalizationDemo.tsx:495-507 | hides the solution; from a non-empty pool it draws an index not drawn since the refill, removes exactly that index and shrinks the pool by one; an empty pool is refilled with every index and the current exercise stays |
| Normalization.ExercisePool.ToggleSolution | src/NormalizationApp/NormalizationDemo.tsx:533 | the solution flips between shown and hidden |

## Left out

- Editor.DiagramEditor.Load: does not promise at most one edge per pair, because the stored edge list is taken as it is, as the code does.
- Geometry.MovedIsClear: covers only elements with another id; when several elements share the dragged id they all move to the same place and may then overlap one another, as the code's `map` does.
- Rendering: the SVG drawing, edge arrows, styling, alerts' wording and the lesson's animations and tables. They display state and change nothing.
- The drag session: the pointer offset, `draggingId`, `lastPos` and mouse-up. `Editor.DiagramEditor.Move` takes the dragged id and the target position the offset arithmetic computes.
- Connect mode's click pairing (`pendingConn`). `Editor.DiagramEditor.Connect` takes the two ids it collects.
- Timestamp ids. `Date.now()` with a kind prefix is modelled by a counter that never repeats. The source can repeat an id when two additions fall in the same millisecond; the model does not capture that.
- Browser storage and JSON. The `erdDiagram` slot is an abstract value: absent, unparsable, or a document whose two fields may be missing. An empty stored string counts as absent, as `!str` does. The model does not check that the loaded data has the right shape.
- The clock's progress after a load. `Editor.DiagramEditor.Load` moves the id counter above every loaded id instead.
- Coordinates are integers. The source uses JavaScript numbers (floating point).
- The unimplemented check at lines 337-338 ("only one side 1" for a relationship with more than two entities). It is a comment in the source with no code behind it.
- `parentId` on elements. The editor never reads or writes it.
- The exercise and lesson content (questions, solutions, stage texts). Only the stage counts of the four normal forms are kept.
- `Math.random`. Each draw is a free choice among the pool's indices.
