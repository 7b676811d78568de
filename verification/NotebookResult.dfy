/** `notebookWithChanges`, and what its result holds, told by the cells and the change set alone. */
module NotebookResult {
  import opened Options
  import opened Strings
  import opened Naming
  import opened NotebookChanges
  import opened NotebookOrder

  // ---- Survivors ----

  /** The edit at j is the last one of the cell with that id. */
  ghost predicate IsLastEdit(edits: seq<Edit>, id: string, j: nat) {
    j < |edits| && edits[j].cellId == id && forall m | j < m < |edits| :: edits[m].cellId != id
  }

  predicate HasEdit(edits: seq<Edit>, id: string) {
    exists m | 0 <= m < |edits| :: edits[m].cellId == id
  }

  /** What a cell not deleted has become: its last edit's source and no output, or what it was. */
  ghost predicate BecomesAsEdited(c: Cell, edits: seq<Edit>, d: Cell) {
    && (forall j: nat | IsLastEdit(edits, c.id, j) :: d == c.(source := edits[j].source, output := None))
    && (!HasEdit(edits, c.id) ==> d == c)
  }

  /** Each cell not deleted is there, as edited. */
  ghost predicate KeepsCells(cells: seq<Cell>, action: Changes, next: seq<Cell>) {
    forall i | 0 <= i < |cells| && cells[i].id !in action.deletes ::
      exists d | d in next :: BecomesAsEdited(cells[i], action.edits, d)
  }

  /** Whatever has the id of an old cell is that cell, not deleted, as edited. */
  ghost predicate KeepsNoOthers(cells: seq<Cell>, action: Changes, next: seq<Cell>) {
    forall i, d | 0 <= i < |cells| && d in next && d.id == cells[i].id ::
      cells[i].id !in action.deletes && BecomesAsEdited(cells[i], action.edits, d)
  }

  /** Cells that are still there are in their old order. */
  ghost predicate KeepsOrder(cells: seq<Cell>, next: seq<Cell>) {
    forall i, j, p, q | 0 <= i < j < |cells| && 0 <= p < |next| && 0 <= q < |next|
                        && next[p].id == cells[i].id && next[q].id == cells[j].id :: p < q
  }

  lemma EditedBecomes(c: Cell, edits: seq<Edit>)
    ensures BecomesAsEdited(c, edits, Edited(c, EditMap(edits)))
  {
    hide EditMap;
    EditedExactly(edits, c.id);
    forall j: nat | IsLastEdit(edits, c.id, j)
      ensures Edited(c, EditMap(edits)) == c.(source := edits[j].source, output := None)
    {
      LastEditWins(edits, j);
    }
  }

  lemma {:induction false} BaseStays(base: seq<Cell>, adds: seq<Add>, newId: Ids, k: nat)
    requires k <= |adds|
    ensures forall c | c in base :: c in AddAll(base, adds, newId, k)
  {
    hide Insert, ResultName, AnchorOf;
    if k == 0 {
    } else {
      BaseStays(base, adds, newId, k - 1);
      var before := AddAll(base, adds, newId, k - 1);
      InsertMembers(before, NewCell(before, adds[k - 1], newId(k - 1)), AnchorOf(before, adds[k - 1]));
    }
  }

  lemma KeptBecomes(cells: seq<Cell>, action: Changes, i: nat)
    requires i < |cells| && cells[i].id !in action.deletes
    ensures exists d | d in Survivors(cells, action) :: BecomesAsEdited(cells[i], action.edits, d)
  {
    hide Edited, BecomesAsEdited, EditMap;
    var edits, deletes := EditMap(action.edits), Elements(action.deletes);
    KeptAt(cells, edits, deletes, i);
    EditedBecomes(cells[i], action.edits);
    assert Edited(cells[i], edits) == Survivors(cells, action)[Rank(cells, deletes, i)];
    assert Edited(cells[i], edits) in Survivors(cells, action);
  }

  lemma CellsAreKept(cells: seq<Cell>, action: Changes, newId: Ids)
    ensures KeepsCells(cells, action, AddAll(Survivors(cells, action), action.adds, newId, |action.adds|))
  {
    hide BecomesAsEdited;
    BaseStays(Survivors(cells, action), action.adds, newId, |action.adds|);
    forall i: nat | i < |cells| && cells[i].id !in action.deletes
      ensures exists d | d in Survivors(cells, action) :: BecomesAsEdited(cells[i], action.edits, d)
    {
      KeptBecomes(cells, action, i);
    }
  }

  lemma NoOthersAreKept(cells: seq<Cell>, action: Changes, newId: Ids)
    requires FreshIds(cells, newId, |action.adds|) && DistinctIds(cells)
    ensures KeepsNoOthers(cells, action, AddAll(Survivors(cells, action), action.adds, newId, |action.adds|))
  {
    hide Edited, BecomesAsEdited;
    var base := Survivors(cells, action);
    AddAllMembers(base, action.adds, newId, |action.adds|);
    forall i, d | 0 <= i < |cells| && d in AddAll(base, action.adds, newId, |action.adds|) && d.id == cells[i].id
      ensures cells[i].id !in action.deletes && BecomesAsEdited(cells[i], action.edits, d)
    {
      assert cells[i] in cells;
      assert d in base;
      KeptMembers(cells, EditMap(action.edits), Elements(action.deletes), d);
      var c :| c in cells && c.id !in Elements(action.deletes) && d == Edited(c, EditMap(action.edits));
      assert c == cells[i];
      EditedBecomes(c, action.edits);
    }
  }

  lemma {:induction false} RankGrows(cells: seq<Cell>, deletes: set<string>, i: nat, j: nat)
    requires i < j <= |cells| && cells[i].id !in deletes
    ensures Rank(cells, deletes, i) < Rank(cells, deletes, j)
    decreases j
  {
    if j == i + 1 {
    } else {
      RankGrows(cells, deletes, i, j - 1);
    }
  }

  /** Cells of the base keep their order through the adds. */
  lemma {:induction false} BaseKeepsOrder(base: seq<Cell>, adds: seq<Add>, newId: Ids, k: nat, i: nat, j: nat)
    returns (p: nat, q: nat)
    requires k <= |adds| && i < j < |base|
    ensures p < q < |AddAll(base, adds, newId, k)|
    ensures AddAll(base, adds, newId, k)[p] == base[i] && AddAll(base, adds, newId, k)[q] == base[j]
  {
    hide Insert, ResultName;
    if k == 0 {
      p, q := i, j;
    } else {
      p, q := BaseKeepsOrder(base, adds, newId, k - 1, i, j);
      var before := AddAll(base, adds, newId, k - 1);
      var at := AnchorOf(before, adds[k - 1]);
      var cell := NewCell(before, adds[k - 1], newId(k - 1));
      ShiftedAt(before, cell, at, p);
      ShiftedAt(before, cell, at, q);
      p, q := Shift(p, at), Shift(q, at);
    }
  }

  lemma OrderIsKept(cells: seq<Cell>, action: Changes, newId: Ids)
    requires FreshIds(cells, newId, |action.adds|) && DistinctIds(cells)
    ensures KeepsOrder(cells, AddAll(Survivors(cells, action), action.adds, newId, |action.adds|))
  {
    hide Edited, BecomesAsEdited, EditMap, AddAll;
    var edits, deletes := EditMap(action.edits), Elements(action.deletes);
    var base := Survivors(cells, action);
    var next := AddAll(base, action.adds, newId, |action.adds|);
    NoOthersAreKept(cells, action, newId);
    NextHasDistinctIds(cells, action, newId);
    forall i, j, p, q | 0 <= i < j < |cells| && 0 <= p < |next| && 0 <= q < |next|
                        && next[p].id == cells[i].id && next[q].id == cells[j].id
      ensures p < q
    {
      assert next[p] in next && next[q] in next;
      KeptAt(cells, edits, deletes, i);
      KeptAt(cells, edits, deletes, j);
      RankGrows(cells, deletes, i, j);
      var m, n := Rank(cells, deletes, i), Rank(cells, deletes, j);
      var a, b := BaseKeepsOrder(base, action.adds, newId, |action.adds|, m, n);
      assert next[a].id == next[p].id && next[b].id == next[q].id;
      assert a == p && b == q;
    }
  }

  lemma NextHasDistinctIds(cells: seq<Cell>, action: Changes, newId: Ids)
    requires FreshIds(cells, newId, |action.adds|) && DistinctIds(cells)
    ensures DistinctIds(AddAll(Survivors(cells, action), action.adds, newId, |action.adds|))
  {
    KeptKeepsDistinctIds(cells, EditMap(action.edits), Elements(action.deletes));
    FreshForSurvivors(cells, action, newId, |action.adds|);
    AddsKeepDistinctIds(Survivors(cells, action), action.adds, newId, |action.adds|);
  }

  // ---- New cells ----

  /** The cell is no new one from add j on. */
  ghost predicate Earlier(newId: Ids, j: nat, n: nat, c: Cell) {
    !IsNewId(newId, j, n, c.id)
  }

  /** Before add j some cell had the name. */
  ghost predicate NameInUse(next: seq<Cell>, newId: Ids, j: nat, n: nat, name: string) {
    exists c | c in next :: Earlier(newId, j, n, c) && c.name == Some(name)
  }

  function Fallback(a: Add, i: nat): string {
    (if a.kind == Sql then "q" else "df") + Decimal(i)
  }

  /** The name is the asked one, or if that was in use the first free of q1, q2, ... or df1, df2, ... */
  ghost predicate NamedAsAsked(next: seq<Cell>, newId: Ids, j: nat, n: nat, a: Add, name: Option<string>) {
    if a.kind == Markdown then name == None
    else if !NameInUse(next, newId, j, n, a.name) then name == Some(a.name)
    else
      exists i: nat | i >= 1 && name == Some(Fallback(a, i)) ::
        && !NameInUse(next, newId, j, n, Fallback(a, i))
        && forall h: nat | 1 <= h < i :: NameInUse(next, newId, j, n, Fallback(a, h))
  }

  /** There is a cell for add j, as asked; only an SQL cell has a data source. */
  ghost predicate MakesCell(next: seq<Cell>, newId: Ids, j: nat, n: nat, a: Add) {
    exists c | c in next && c.id == newId(j) ::
      && c.kind == a.kind && c.source == a.source && c.dataSource == (if a.kind == Sql then a.dataSource else None)
      && c.chart == None && !c.collapsed && c.output == None
      && NamedAsAsked(next, newId, j, n, a, c.name)
  }

  lemma {:induction false} MembersSince(base: seq<Cell>, adds: seq<Add>, newId: Ids, j: nat, k: nat)
    requires j <= k <= |adds|
    ensures forall c | c in AddAll(base, adds, newId, j) :: c in AddAll(base, adds, newId, k)
    ensures forall c | c in AddAll(base, adds, newId, k) ::
              c in AddAll(base, adds, newId, j) || IsNewId(newId, j, k, c.id)
    decreases k
  {
    hide Insert, ResultName, AnchorOf;
    if j == k {
    } else {
      MembersSince(base, adds, newId, j, k - 1);
      var before := AddAll(base, adds, newId, k - 1);
      InsertMembers(before, NewCell(before, adds[k - 1], newId(k - 1)), AnchorOf(before, adds[k - 1]));
    }
  }

  /** The cells there were before add j are those of the result that are no later ones. */
  lemma EarlierCells(base: seq<Cell>, adds: seq<Add>, newId: Ids, j: nat)
    requires j <= |adds| && FreshIds(base, newId, |adds|)
    ensures forall c :: c in AddAll(base, adds, newId, j)
                        <==> c in AddAll(base, adds, newId, |adds|) && Earlier(newId, j, |adds|, c)
  {
    hide AddAll;
    MembersSince(base, adds, newId, j, |adds|);
    AddAllMembers(base, adds, newId, j);
  }

  lemma NamesInUse(base: seq<Cell>, adds: seq<Add>, newId: Ids, j: nat, name: string)
    requires j <= |adds| && FreshIds(base, newId, |adds|)
    ensures NameInUse(AddAll(base, adds, newId, |adds|), newId, j, |adds|, name)
            <==> exists c | c in AddAll(base, adds, newId, j) :: c.name == Some(name)
    ensures name != "" ==>
              (NameInUse(AddAll(base, adds, newId, |adds|), newId, j, |adds|, name)
               <==> name in CellNames(AddAll(base, adds, newId, j)))
  {
    hide AddAll, Earlier;
    EarlierCells(base, adds, newId, j);
  }

  lemma NewCellName(base: seq<Cell>, adds: seq<Add>, newId: Ids, j: nat)
    requires j < |adds| && FreshIds(base, newId, |adds|)
    ensures NamedAsAsked(AddAll(base, adds, newId, |adds|), newId, j, |adds|, adds[j],
                         ResultName(AddAll(base, adds, newId, j), adds[j]))
  {
    hide AddAll, NameInUse, CellNames;
    var was, next, a := AddAll(base, adds, newId, j), AddAll(base, adds, newId, |adds|), adds[j];
    NamesInUse(base, adds, newId, j, a.name);
    if a.kind != Markdown && NameInUse(next, newId, j, |adds|, a.name) {
      var i := FirstFree(CellNames(was), Prefix(a.kind));
      forall h: nat | 1 <= h <= i
        ensures NameInUse(next, newId, j, |adds|, Fallback(a, h))
                <==> Numbered(Prefix(a.kind), h) in CellNames(was)
      {
        NamesInUse(base, adds, newId, j, Numbered(Prefix(a.kind), h));
      }
    }
  }

  lemma CellIsMade(base: seq<Cell>, adds: seq<Add>, newId: Ids, j: nat)
    requires j < |adds| && FreshIds(base, newId, |adds|)
    ensures MakesCell(AddAll(base, adds, newId, |adds|), newId, j, |adds|, adds[j])
    ensures NewCell(AddAll(base, adds, newId, j), adds[j], newId(j)) in AddAll(base, adds, newId, |adds|)
  {
    hide AddAll, ResultName, StaysNear, NamedAsAsked;
    var p, q := NewCellsStayNear(base, adds, newId, j, |adds|);
    NewCellName(base, adds, newId, j);
  }

  // ---- Where new cells are ----

  /** The cell at p was there before add j, and has the id its place is asked after. */
  ghost predicate AnchorAt(next: seq<Cell>, newId: Ids, j: nat, n: nat, a: Add, p: nat) {
    p < |next| && Earlier(newId, j, n, next[p]) && a.afterCellId == Some(next[p].id) && next[p].id != ""
  }

  /**
    The new cell comes after its anchor with only later cells between, or, if there was no such cell, with
    only later cells after it.
  */
  ghost predicate PlacedAsAsked(next: seq<Cell>, newId: Ids, j: nat, n: nat, a: Add) {
    forall q: nat | q < |next| && next[q].id == newId(j) ::
      && (forall p: nat | AnchorAt(next, newId, j, n, a, p) ::
            p < q && forall r: nat | p < r < q :: IsNewId(newId, j + 1, n, next[r].id))
      && ((forall p: nat | p < |next| :: !AnchorAt(next, newId, j, n, a, p)) ==>
            forall r: nat | q < r < |next| :: IsNewId(newId, j + 1, n, next[r].id))
  }

  lemma AnchorFound(was: seq<Cell>, a: Add, id: string)
    requires a.afterCellId == Some(id) && id != ""
    ensures AnchorOf(was, a) >= 0 <==> exists c | c in was :: c.id == id
    ensures AnchorOf(was, a) >= 0 ==> was[AnchorOf(was, a)].id == id
  {
  }

  lemma CellIsPlaced(base: seq<Cell>, adds: seq<Add>, newId: Ids, j: nat)
    requires j < |adds| && FreshIds(base, newId, |adds|) && DistinctIds(base)
    ensures PlacedAsAsked(AddAll(base, adds, newId, |adds|), newId, j, |adds|, adds[j])
  {
    hide AddAll, ResultName, AnchorOf, Earlier, IsNewId;
    var n := |adds|;
    var was, next, a := AddAll(base, adds, newId, j), AddAll(base, adds, newId, n), adds[j];
    AddsKeepDistinctIds(base, adds, newId, n);
    EarlierCells(base, adds, newId, j);
    var p0, q0 := NewCellsStayNear(base, adds, newId, j, n);
    assert next[q0].id == newId(j);
    forall p: nat | AnchorAt(next, newId, j, n, a, p)
      ensures p0 == p
    {
      AnchorFound(was, a, next[p].id);
      assert next[p] in was;
    }
    if p0 >= 0 {
      AnchorWasThere(was, a);
      assert was[AnchorOf(was, a)] in was;
      assert AnchorAt(next, newId, j, n, a, p0);
    }
  }

  lemma AnchorWasThere(was: seq<Cell>, a: Add)
    requires AnchorOf(was, a) >= 0
    ensures a.afterCellId == Some(was[AnchorOf(was, a)].id) && was[AnchorOf(was, a)].id != ""
  {
  }

  // ---- Running ----

  /** Add j asks for the name, and its cell has got one. */
  ghost predicate AsksFor(next: seq<Cell>, newId: Ids, j: nat, a: Add, name: string) {
    a.name == name && exists c | c in next :: c.id == newId(j) && c.name !in {None, Some("")}
  }

  /** What a text to run stands for: the cell of the last add that asks for it as a name, or the one with that id. */
  ghost predicate StandsFor(next: seq<Cell>, newId: Ids, adds: seq<Add>, r: string, id: string) {
    && (forall j: nat | j < |adds| && AsksFor(next, newId, j, adds[j], r)
                        && forall m: nat | j < m < |adds| :: !AsksFor(next, newId, m, adds[m], r) :: id == newId(j))
    && ((forall j: nat | j < |adds| :: !AsksFor(next, newId, j, adds[j], r)) ==> id == r)
  }

  /** The cell was asked to run, and it holds SQL or Python. */
  ghost predicate AskedToRun(next: seq<Cell>, newId: Ids, action: Changes, c: Cell) {
    (c.kind == Sql || c.kind == Python) && exists r | r in action.run :: StandsFor(next, newId, action.adds, r, c.id)
  }

  /** `run` lists the ids at exactly the positions of cells asked to run, each once, in notebook order. */
  ghost predicate RunsAsAsked(next: seq<Cell>, newId: Ids, action: Changes, run: seq<string>) {
    exists positions: seq<nat> ::
      && |run| == |positions|
      && (forall j | 0 <= j < |run| :: positions[j] < |next| && run[j] == next[positions[j]].id)
      && (forall j, k | 0 <= j < k < |positions| :: positions[j] < positions[k])
      && (forall i: nat | i < |next| :: AskedToRun(next, newId, action, next[i]) <==> i in positions)
  }

  lemma AsksForByName(base: seq<Cell>, adds: seq<Add>, newId: Ids, j: nat, name: string)
    requires j < |adds| && FreshIds(base, newId, |adds|) && DistinctIds(base)
    ensures AsksFor(AddAll(base, adds, newId, |adds|), newId, j, adds[j], name) <==> Names(base, adds, newId, j, name)
  {
    hide AddAll, ResultName;
    var next := AddAll(base, adds, newId, |adds|);
    CellIsMade(base, adds, newId, j);
    AddsKeepDistinctIds(base, adds, newId, |adds|);
    forall c | c in next && c.id == newId(j)
      ensures c == NewCell(AddAll(base, adds, newId, j), adds[j], newId(j))
    {
    }
  }

  lemma StandsForLast(next: seq<Cell>, newId: Ids, adds: seq<Add>, r: string, id: string, j: nat)
    requires j < |adds| && AsksFor(next, newId, j, adds[j], r)
    requires forall m: nat | j < m < |adds| :: !AsksFor(next, newId, m, adds[m], r)
    ensures StandsFor(next, newId, adds, r, id) <==> id == newId(j)
  {
    hide AsksFor;
  }

  lemma StandsForItself(next: seq<Cell>, newId: Ids, adds: seq<Add>, r: string, id: string)
    requires forall j: nat | j < |adds| :: !AsksFor(next, newId, j, adds[j], r)
    ensures StandsFor(next, newId, adds, r, id) <==> id == r
  {
    hide AsksFor;
  }

  lemma StandsForResolved(base: seq<Cell>, adds: seq<Add>, newId: Ids, r: string, id: string)
    requires FreshIds(base, newId, |adds|) && DistinctIds(base)
    ensures StandsFor(AddAll(base, adds, newId, |adds|), newId, adds, r, id)
            <==> Resolve(IdByName(base, adds, newId, |adds|), r) == id
  {
    hide AddAll, Names, AsksFor, Resolve, IdByName, StandsFor;
    var next := AddAll(base, adds, newId, |adds|);
    forall j: nat | j < |adds|
      ensures AsksFor(next, newId, j, adds[j], r) <==> Names(base, adds, newId, j, r)
    {
      AsksForByName(base, adds, newId, j, r);
    }
    if forall j: nat | j < |adds| :: !Names(base, adds, newId, j, r) {
      OtherTextMeansItself(base, adds, newId, |adds|, r);
      StandsForItself(next, newId, adds, r, id);
    } else {
      var j := LastAsking(base, adds, newId, |adds|, r);
      NameMeansLastAdd(base, adds, newId, |adds|, r, j);
      StandsForLast(next, newId, adds, r, id, j);
    }
  }

  lemma {:induction false} LastAsking(base: seq<Cell>, adds: seq<Add>, newId: Ids, k: nat, r: string) returns (j: nat)
    requires k <= |adds| && exists m: nat :: m < k && Names(base, adds, newId, m, r)
    ensures j < k && Names(base, adds, newId, j, r) && forall m: nat | j < m < k :: !Names(base, adds, newId, m, r)
  {
    hide Names;
    if Names(base, adds, newId, k - 1, r) {
      j := k - 1;
    } else {
      j := LastAsking(base, adds, newId, k - 1, r);
    }
  }

  lemma RunIsAsAsked(base: seq<Cell>, action: Changes, newId: Ids)
    requires FreshIds(base, newId, |action.adds|) && DistinctIds(base)
    ensures var next := AddAll(base, action.adds, newId, |action.adds|);
            var ids := IdByName(base, action.adds, newId, |action.adds|);
            RunsAsAsked(next, newId, action, RunList(next, Wanted(action.run, ids)))
  {
    hide AddAll, Resolve, IdByName, StandsFor, RunList;
    var next := AddAll(base, action.adds, newId, |action.adds|);
    var ids := IdByName(base, action.adds, newId, |action.adds|);
    var wanted := Wanted(action.run, ids);
    var positions := RunListInOrder(next, wanted);
    forall i: nat | i < |next|
      ensures AskedToRun(next, newId, action, next[i]) <==> IsRun(next[i], wanted)
    {
      forall r
        ensures StandsFor(next, newId, action.adds, r, next[i].id) <==> Resolve(ids, r) == next[i].id
      {
        StandsForResolved(base, action.adds, newId, r, next[i].id);
      }
    }
  }

  // ---- The operation ----

  /** The positions of the cells a delete or an edit names. */
  function Named(cells: seq<Cell>, action: Changes): set<nat> {
    set i: nat | i < |cells| && (cells[i].id in action.deletes || HasEdit(action.edits, cells[i].id))
  }

  lemma TouchedIsNamed(cells: seq<Cell>, action: Changes)
    ensures Touched(cells, EditMap(action.edits), Elements(action.deletes), |cells|) == Named(cells, action)
  {
    hide EditMap;
    forall i: nat | i < |cells|
      ensures cells[i].id in EditMap(action.edits) <==> HasEdit(action.edits, cells[i].id)
    {
      EditedExactly(action.edits, cells[i].id);
    }
  }

  /** Everything the result of a change set holds. */
  ghost predicate IsResult(cells: seq<Cell>, action: Changes, newId: Ids, next: seq<Cell>, run: seq<string>) {
    && KeepsNoOthers(cells, action, next) && KeepsOrder(cells, next) && DistinctIds(next)
    && (forall c | c in next :: (exists d | d in cells :: d.id == c.id) || IsNewId(newId, 0, |action.adds|, c.id))
    && (forall j: nat | j < |action.adds| ::
          && MakesCell(next, newId, j, |action.adds|, action.adds[j])
          && PlacedAsAsked(next, newId, j, |action.adds|, action.adds[j]))
    && RunsAsAsked(next, newId, action, run)
  }

  lemma ResultIs(cells: seq<Cell>, action: Changes, newId: Ids)
    requires FreshIds(cells, newId, |action.adds|) && DistinctIds(cells)
    ensures var next := AddAll(Survivors(cells, action), action.adds, newId, |action.adds|);
            var ids := IdByName(Survivors(cells, action), action.adds, newId, |action.adds|);
            IsResult(cells, action, newId, next, RunList(next, Wanted(action.run, ids)))
  {
    hide AddAll, IdByName, RunList, KeepsNoOthers, KeepsOrder, MakesCell, PlacedAsAsked, RunsAsAsked, Edited;
    var base := Survivors(cells, action);
    FreshForSurvivors(cells, action, newId, |action.adds|);
    KeptKeepsDistinctIds(cells, EditMap(action.edits), Elements(action.deletes));
    NextHasDistinctIds(cells, action, newId);
    NoOthersAreKept(cells, action, newId);
    OrderIsKept(cells, action, newId);
    RunIsAsAsked(base, action, newId);
    AddAllMembers(base, action.adds, newId, |action.adds|);
    forall c | c in base
      ensures exists d | d in cells :: d.id == c.id
    {
      KeptMembers(cells, EditMap(action.edits), Elements(action.deletes), c);
    }
    forall j: nat | j < |action.adds|
      ensures MakesCell(AddAll(base, action.adds, newId, |action.adds|), newId, j, |action.adds|, action.adds[j])
      ensures PlacedAsAsked(AddAll(base, action.adds, newId, |action.adds|), newId, j, |action.adds|, action.adds[j])
    {
      CellIsMade(base, action.adds, newId, j);
      CellIsPlaced(base, action.adds, newId, j);
    }
  }

  method NotebookWithChanges(cells: seq<Cell>, action: Changes, newId: Ids)
    returns (next: seq<Cell>, run: seq<string>, applied: nat)
    ensures next == AddAll(Survivors(cells, action), action.adds, newId, |action.adds|)
    ensures applied == |Touched(cells, EditMap(action.edits), Elements(action.deletes), |cells|)| + |action.adds|
    ensures applied == |Named(cells, action)| + |action.adds|
    ensures KeepsCells(cells, action, next)
    ensures FreshIds(cells, newId, |action.adds|) && DistinctIds(cells) ==> IsResult(cells, action, newId, next, run)
    ensures var ids := IdByName(Survivors(cells, action), action.adds, newId, |action.adds|);
            run == RunList(next, Wanted(action.run, ids))
  {
    hide ResultName, NewCell, Insert, AnchorOf, Kept, EditMap, Touched, RunList, Named, KeepsCells, IsResult;
    var edits := EditMap(action.edits);
    var deletes := Elements(action.deletes);
    next, applied := KeepCells(cells, edits, deletes);
    ghost var kept, changed := next, applied;
    var idByName: map<string, string> := map[];
    for k := 0 to |action.adds|
      invariant next == AddAll(kept, action.adds, newId, k)
      invariant idByName == IdByName(kept, action.adds, newId, k)
      invariant applied == changed + k
    {
      var a := action.adds[k];
      var name, longer := AddCell(next, a, newId(k));
      if name.Some? && name.value != "" {
        idByName := idByName[a.name := newId(k)];
      }
      next := longer;
      applied := applied + 1;
    }
    run := CellsToRun(next, Wanted(action.run, idByName));
    TouchedIsNamed(cells, action);
    CellsAreKept(cells, action, newId);
    if FreshIds(cells, newId, |action.adds|) && DistinctIds(cells) {
      ResultIs(cells, action, newId);
    }
  }
}
