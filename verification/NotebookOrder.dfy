/** What applying a change set keeps: the order and content of surviving cells, and distinct ids and names. */
module NotebookOrder {
  import opened Options
  import opened Strings
  import opened Naming
  import opened NotebookChanges

  /** New ids are distinct, and no cell has one yet. */
  ghost predicate FreshIds(cells: seq<Cell>, newId: Ids, n: nat) {
    (forall j: nat, k: nat | j < k < n :: newId(j) != newId(k))
    && forall c, k: nat | c in cells && k < n :: c.id != newId(k)
  }

  ghost predicate DistinctIds(cells: seq<Cell>) {
    forall i, j | 0 <= i < j < |cells| :: cells[i].id != cells[j].id
  }

  ghost predicate DistinctNames(cells: seq<Cell>) {
    forall i, j | 0 <= i < j < |cells| && cells[i].name.Some? :: cells[i].name != cells[j].name
  }

  /** The id of one of the new cells numbered from j up to k. */
  ghost predicate IsNewId(newId: Ids, j: nat, k: nat, id: string) {
    exists m: nat :: j <= m < k && newId(m) == id
  }

  /** Where an old index goes when a cell is inserted. */
  function Shift(i: nat, at: int): nat {
    if at >= 0 && i > at then i + 1 else i
  }

  /** Where a cell was before the insertion. */
  function Unshift(r: nat, at: int): nat {
    if at >= 0 && r > at then r - 1 else r
  }

  /** Where the inserted cell is. */
  function Place(next: seq<Cell>, at: int): nat
    requires -1 <= at < |next|
  {
    if at >= 0 then at + 1 else |next|
  }

  lemma InsertedAt(next: seq<Cell>, cell: Cell, at: int)
    requires -1 <= at < |next|
    ensures |Insert(next, cell, at)| == |next| + 1 && Insert(next, cell, at)[Place(next, at)] == cell
  {
  }

  lemma ShiftedAt(next: seq<Cell>, cell: Cell, at: int, i: nat)
    requires -1 <= at < |next| && i < |next|
    ensures Shift(i, at) < |Insert(next, cell, at)| && Insert(next, cell, at)[Shift(i, at)] == next[i]
  {
  }

  lemma UnshiftedAt(next: seq<Cell>, cell: Cell, at: int, r: nat)
    requires -1 <= at < |next| && r < |Insert(next, cell, at)| && r != Place(next, at)
    ensures Unshift(r, at) < |next| && Insert(next, cell, at)[r] == next[Unshift(r, at)]
  {
  }

  lemma InsertMembers(next: seq<Cell>, cell: Cell, at: int)
    requires -1 <= at < |next|
    ensures forall c :: c in Insert(next, cell, at) <==> c == cell || c in next
  {
  }

  // ---- Distinct ids and names ----

  lemma InsertKeepsDistinctIds(next: seq<Cell>, cell: Cell, at: int)
    requires -1 <= at < |next| && DistinctIds(next) && forall c | c in next :: c.id != cell.id
    ensures DistinctIds(Insert(next, cell, at))
  {
  }

  lemma InsertKeepsDistinctNames(next: seq<Cell>, cell: Cell, at: int)
    requires -1 <= at < |next| && DistinctNames(next)
             && (cell.name.Some? ==> forall c | c in next :: c.name != cell.name)
    ensures DistinctNames(Insert(next, cell, at))
  {
  }

  lemma {:induction false} AddAllMembers(base: seq<Cell>, adds: seq<Add>, newId: Ids, k: nat)
    requires k <= |adds|
    ensures forall c | c in AddAll(base, adds, newId, k) :: c in base || IsNewId(newId, 0, k, c.id)
  {
    if k == 0 {
    } else {
      var before := AddAll(base, adds, newId, k - 1);
      AddAllMembers(base, adds, newId, k - 1);
      InsertMembers(before, NewCell(before, adds[k - 1], newId(k - 1)), AnchorOf(before, adds[k - 1]));
    }
  }

  lemma {:induction false} AddsKeepDistinctIds(base: seq<Cell>, adds: seq<Add>, newId: Ids, k: nat)
    requires k <= |adds| && FreshIds(base, newId, |adds|) && DistinctIds(base)
    ensures DistinctIds(AddAll(base, adds, newId, k))
  {
    hide ResultName, Insert;
    if k == 0 {
    } else {
      var before := AddAll(base, adds, newId, k - 1);
      AddsKeepDistinctIds(base, adds, newId, k - 1);
      AddAllMembers(base, adds, newId, k - 1);
      InsertKeepsDistinctIds(before, NewCell(before, adds[k - 1], newId(k - 1)), AnchorOf(before, adds[k - 1]));
    }
  }

  lemma ResultNameIsFree(next: seq<Cell>, a: Add)
    requires ResultName(next, a).Some?
    ensures forall c | c in next :: c.name != ResultName(next, a)
  {
    if exists c | c in next :: c.name == Some(a.name) {
      var name := Numbered(Prefix(a.kind), FirstFree(CellNames(next), Prefix(a.kind)));
      assert name != "" && name !in CellNames(next);
      assert forall c | c in next && c.name.Some? && c.name.value != "" :: c.name.value in CellNames(next);
    }
  }

  lemma {:induction false} AddsKeepDistinctNames(base: seq<Cell>, adds: seq<Add>, newId: Ids, k: nat)
    requires k <= |adds| && DistinctNames(base)
    ensures DistinctNames(AddAll(base, adds, newId, k))
  {
    hide Insert, FirstFree, CellNames, AnchorOf;
    if k == 0 {
    } else {
      var before := AddAll(base, adds, newId, k - 1);
      AddsKeepDistinctNames(base, adds, newId, k - 1);
      if ResultName(before, adds[k - 1]).Some? {
        ResultNameIsFree(before, adds[k - 1]);
      }
      InsertKeepsDistinctNames(before, NewCell(before, adds[k - 1], newId(k - 1)), AnchorOf(before, adds[k - 1]));
    }
  }

  // ---- Survivors ----

  /** Of several edits of a cell the last one counts. */
  lemma {:induction false} LastEditWins(edits: seq<Edit>, j: nat)
    requires j < |edits| && forall m | j < m < |edits| :: edits[m].cellId != edits[j].cellId
    ensures edits[j].cellId in EditMap(edits) && EditMap(edits)[edits[j].cellId] == edits[j].source
    decreases |edits|
  {
    if j < |edits| - 1 {
      LastEditWins(edits[..|edits| - 1], j);
    }
  }

  lemma {:induction false} EditedExactly(edits: seq<Edit>, id: string)
    ensures id in EditMap(edits) <==> exists m | 0 <= m < |edits| :: edits[m].cellId == id
  {
    if edits == [] {
    } else {
      EditedExactly(edits[..|edits| - 1], id);
      assert edits == edits[..|edits| - 1] + [edits[|edits| - 1]];
    }
  }

  /** How many of the first n cells are not deleted. */
  function Rank(cells: seq<Cell>, deletes: set<string>, n: nat): nat
    requires n <= |cells|
  {
    if n == 0 then 0 else Rank(cells, deletes, n - 1) + if cells[n - 1].id in deletes then 0 else 1
  }

  lemma {:induction false} RankPrefix(cells: seq<Cell>, deletes: set<string>, m: nat, n: nat)
    requires m <= n <= |cells|
    ensures Rank(cells[..n], deletes, m) == Rank(cells, deletes, m)
    decreases m
  {
    if m == 0 {
    } else {
      RankPrefix(cells, deletes, m - 1, n);
    }
  }

  /** Each cell that is not deleted is kept behind exactly the kept cells that were before it. */
  lemma {:induction false} KeptAt(cells: seq<Cell>, edits: map<string, string>, deletes: set<string>, i: nat)
    requires i < |cells| && cells[i].id !in deletes
    ensures |Kept(cells, edits, deletes)| == Rank(cells, deletes, |cells|)
    ensures Rank(cells, deletes, i) < |Kept(cells, edits, deletes)|
    ensures Kept(cells, edits, deletes)[Rank(cells, deletes, i)] == Edited(cells[i], edits)
    ensures cells[i].id !in edits ==> Kept(cells, edits, deletes)[Rank(cells, deletes, i)] == cells[i]
    decreases |cells|
  {
    var n := |cells| - 1;
    var front := cells[..n];
    KeptSize(front, edits, deletes);
    RankPrefix(cells, deletes, n, n);
    if i < n {
      KeptAt(front, edits, deletes, i);
      RankPrefix(cells, deletes, i, n);
    }
  }

  lemma {:induction false} KeptSize(cells: seq<Cell>, edits: map<string, string>, deletes: set<string>)
    ensures |Kept(cells, edits, deletes)| == Rank(cells, deletes, |cells|)
  {
    if cells == [] {
    } else {
      var n := |cells| - 1;
      KeptSize(cells[..n], edits, deletes);
      RankPrefix(cells, deletes, n, n);
    }
  }

  /** Nothing is kept that was not there: every kept cell has the id and the name of a cell that was. */
  lemma {:induction false} KeptMembers(cells: seq<Cell>, edits: map<string, string>, deletes: set<string>, c: Cell)
    requires c in Kept(cells, edits, deletes)
    ensures exists d :: d in cells && d.id !in deletes && c == Edited(d, edits)
  {
    var n := |cells| - 1;
    if c in Kept(cells[..n], edits, deletes) {
      KeptMembers(cells[..n], edits, deletes, c);
    } else {
      assert c == Edited(cells[n], edits);
    }
  }

  lemma {:induction false} KeptKeepsDistinctIds(cells: seq<Cell>, edits: map<string, string>, deletes: set<string>)
    requires DistinctIds(cells)
    ensures DistinctIds(Kept(cells, edits, deletes))
  {
    hide Edited;
    if cells == [] {
    } else {
      var n := |cells| - 1;
      var front := Kept(cells[..n], edits, deletes);
      KeptKeepsDistinctIds(cells[..n], edits, deletes);
      forall c | c in front
        ensures c.id != cells[n].id
      {
        KeptMembers(cells[..n], edits, deletes, c);
      }
      assert DistinctIds(front + [Edited(cells[n], edits)]);
    }
  }

  lemma {:induction false} KeptKeepsDistinctNames(cells: seq<Cell>, edits: map<string, string>, deletes: set<string>)
    requires DistinctNames(cells)
    ensures DistinctNames(Kept(cells, edits, deletes))
  {
    hide Edited;
    if cells == [] {
    } else {
      var n := |cells| - 1;
      var front := Kept(cells[..n], edits, deletes);
      KeptKeepsDistinctNames(cells[..n], edits, deletes);
      forall c | c in front && c.name.Some?
        ensures c.name != cells[n].name
      {
        KeptMembers(cells[..n], edits, deletes, c);
      }
      assert DistinctNames(front + [Edited(cells[n], edits)]);
    }
  }

  lemma FreshForSurvivors(cells: seq<Cell>, action: Changes, newId: Ids, n: nat)
    requires FreshIds(cells, newId, n)
    ensures FreshIds(Survivors(cells, action), newId, n)
  {
    forall c | c in Survivors(cells, action)
      ensures exists d :: d in cells && d.id == c.id
    {
      KeptMembers(cells, EditMap(action.edits), Elements(action.deletes), c);
    }
  }

  /** Distinct ids and names stay distinct through a whole change set. */
  lemma ChangesKeepDistinct(cells: seq<Cell>, action: Changes, newId: Ids)
    requires FreshIds(cells, newId, |action.adds|) && DistinctIds(cells) && DistinctNames(cells)
    ensures DistinctIds(AddAll(Survivors(cells, action), action.adds, newId, |action.adds|))
    ensures DistinctNames(AddAll(Survivors(cells, action), action.adds, newId, |action.adds|))
  {
    KeptKeepsDistinctIds(cells, EditMap(action.edits), Elements(action.deletes));
    KeptKeepsDistinctNames(cells, EditMap(action.edits), Elements(action.deletes));
    FreshForSurvivors(cells, action, newId, |action.adds|);
    AddsKeepDistinctIds(Survivors(cells, action), action.adds, newId, |action.adds|);
    AddsKeepDistinctNames(Survivors(cells, action), action.adds, newId, |action.adds|);
  }

  function NewIds(newId: Ids, n: nat): set<string> {
    set k: nat | k < n :: newId(k)
  }

  /** The cells without the given ids. */
  function Without(cells: seq<Cell>, ids: set<string>): seq<Cell> {
    if cells == [] then []
    else
      var last := cells[|cells| - 1];
      Without(cells[..|cells| - 1], ids) + if last.id in ids then [] else [last]
  }

  lemma {:induction false} WithoutAppend(a: seq<Cell>, b: seq<Cell>, ids: set<string>)
    ensures Without(a + b, ids) == Without(a, ids) + Without(b, ids)
    decreases |b|
  {
    if b == [] {
      assert a + b == a;
    } else {
      var n := |b| - 1;
      WithoutAppend(a, b[..n], ids);
      assert (a + b)[..|a + b| - 1] == a + b[..n];
    }
  }

  lemma {:induction false} WithoutNothing(cells: seq<Cell>, ids: set<string>)
    requires forall c | c in cells :: c.id !in ids
    ensures Without(cells, ids) == cells
  {
    if cells == [] {
    } else {
      var front, last := cells[..|cells| - 1], cells[|cells| - 1];
      WithoutNothing(front, ids);
      assert last in cells && cells == front + [last];
    }
  }

  lemma WithoutMiddle(a: seq<Cell>, cell: Cell, b: seq<Cell>, ids: set<string>)
    requires cell.id in ids
    ensures Without(a + [cell] + b, ids) == Without(a + b, ids)
  {
    WithoutAppend(a + [cell], b, ids);
    WithoutAppend(a, b, ids);
    assert (a + [cell])[..|a|] == a;
  }

  lemma InsertThenWithout(next: seq<Cell>, cell: Cell, at: int, ids: set<string>)
    requires -1 <= at < |next| && cell.id in ids
    ensures Without(Insert(next, cell, at), ids) == Without(next, ids)
  {
    hide Without;
    var cut := if at >= 0 then at + 1 else |next|;
    WithoutMiddle(next[..cut], cell, next[cut..], ids);
    assert Insert(next, cell, at) == next[..cut] + [cell] + next[cut..];
    assert next == next[..cut] + next[cut..];
  }

  lemma {:induction false} AddsOnlyInsert(base: seq<Cell>, adds: seq<Add>, newId: Ids, k: nat)
    requires k <= |adds| && FreshIds(base, newId, |adds|)
    ensures Without(AddAll(base, adds, newId, k), NewIds(newId, |adds|)) == base
  {
    hide Insert, ResultName, AnchorOf, Without;
    var ids := NewIds(newId, |adds|);
    if k == 0 {
      WithoutNothing(base, ids);
    } else {
      var before := AddAll(base, adds, newId, k - 1);
      AddsOnlyInsert(base, adds, newId, k - 1);
      InsertThenWithout(before, NewCell(before, adds[k - 1], newId(k - 1)), AnchorOf(before, adds[k - 1]), ids);
    }
  }

  /** Taking the new cells out again leaves the survivors, whole and in their old order. */
  lemma SurvivorsKeepOrder(cells: seq<Cell>, action: Changes, newId: Ids)
    requires FreshIds(cells, newId, |action.adds|)
    ensures Without(AddAll(Survivors(cells, action), action.adds, newId, |action.adds|), NewIds(newId, |action.adds|))
            == Survivors(cells, action)
  {
    FreshForSurvivors(cells, action, newId, |action.adds|);
    AddsOnlyInsert(Survivors(cells, action), action.adds, newId, |action.adds|);
  }

  // ---- Where new cells are ----

  /** The new cell j, at q, comes after its anchor, at p, and only cells added later are between. */
  ghost predicate StaysNear(next: seq<Cell>, newId: Ids, j: nat, k: nat, p: int, q: nat) {
    -1 <= p < q < |next|
    && if p >= 0 then forall r: nat | p < r < q :: IsNewId(newId, j + 1, k, next[r].id)
       else forall r: nat | q < r < |next| :: IsNewId(newId, j + 1, k, next[r].id)
  }

  lemma LaterInsertStaysNear(next: seq<Cell>, cell: Cell, at: int, newId: Ids, j: nat, k: nat, p: int, q: nat)
    requires -1 <= at < |next| && StaysNear(next, newId, j, k, p, q) && j < k && cell.id == newId(k)
    ensures StaysNear(Insert(next, cell, at), newId, j, k + 1, if p >= 0 then Shift(p, at) else -1, Shift(q, at))
  {
    hide Insert;
    var longer := Insert(next, cell, at);
    InsertedAt(next, cell, at);
    ShiftedAt(next, cell, at, q);
    var shiftedP := if p >= 0 then Shift(p, at) else -1;
    forall r: nat | r < |longer| && if p >= 0 then shiftedP < r < Shift(q, at) else Shift(q, at) < r
      ensures IsNewId(newId, j + 1, k + 1, longer[r].id)
    {
      if r != Place(next, at) {
        UnshiftedAt(next, cell, at, r);
        assert IsNewId(newId, j + 1, k, next[Unshift(r, at)].id);
      }
    }
  }

  lemma NewCellIsNear(next: seq<Cell>, cell: Cell, at: int, newId: Ids, j: nat)
    requires -1 <= at < |next|
    ensures StaysNear(Insert(next, cell, at), newId, j, j + 1, at, Place(next, at))
    ensures Insert(next, cell, at)[Place(next, at)] == cell
    ensures at >= 0 ==> Insert(next, cell, at)[at] == next[at]
  {
  }

  /** The add's cell is at q, and p is its anchor, or -1 without one. */
  ghost predicate IsPlaced(next: seq<Cell>, was: seq<Cell>, a: Add, id: string, p: int, q: nat) {
    -1 <= p < |next| && q < |next| && next[q] == NewCell(was, a, id)
    && (AnchorOf(was, a) >= 0 <==> p >= 0)
    && (p >= 0 ==> next[p] == was[AnchorOf(was, a)])
  }

  /**
   * Where new cell j is after k adds: with its anchor found, behind it with only later cells between;
   * with no anchor, behind everything but later cells.
   */
  lemma {:induction false} NewCellsStayNear(base: seq<Cell>, adds: seq<Add>, newId: Ids, j: nat, k: nat)
    returns (p: int, q: nat)
    requires j < k <= |adds|
    ensures IsPlaced(AddAll(base, adds, newId, k), AddAll(base, adds, newId, j), adds[j], newId(j), p, q)
    ensures StaysNear(AddAll(base, adds, newId, k), newId, j, k, p, q)
    decreases k
  {
    hide Insert, ResultName, StaysNear;
    var before := AddAll(base, adds, newId, k - 1);
    var at := AnchorOf(before, adds[k - 1]);
    var cell := NewCell(before, adds[k - 1], newId(k - 1));
    if j == k - 1 {
      NewCellIsNear(before, cell, at, newId, j);
      InsertedAt(before, cell, at);
      p, q := at, Place(before, at);
    } else {
      p, q := NewCellsStayNear(base, adds, newId, j, k - 1);
      LaterInsertStaysNear(before, cell, at, newId, j, k - 1, p, q);
      ShiftedAt(before, cell, at, q);
      if p >= 0 {
        ShiftedAt(before, cell, at, p);
      }
      p, q := if p >= 0 then Shift(p, at) else -1, Shift(q, at);
    }
  }

  // ---- Running new cells by name ----

  /** Add j makes a named cell asked for under that name. */
  predicate Names(base: seq<Cell>, adds: seq<Add>, newId: Ids, j: nat, name: string)
    requires j < |adds|
  {
    adds[j].name == name && ResultName(AddAll(base, adds, newId, j), adds[j]) !in {None, Some("")}
  }

  lemma IdByNameStep(base: seq<Cell>, adds: seq<Add>, newId: Ids, k: nat, name: string)
    requires k < |adds|
    ensures var ids, longer := IdByName(base, adds, newId, k), IdByName(base, adds, newId, k + 1);
            if Names(base, adds, newId, k, name) then name in longer && longer[name] == newId(k)
            else (name in longer <==> name in ids) && Resolve(longer, name) == Resolve(ids, name)
  {
    hide AddAll;
  }

  /** A name to run stands for the last cell added under it, whatever it is called now; other texts are ids. */
  lemma {:induction false} NameMeansLastAdd(base: seq<Cell>, adds: seq<Add>, newId: Ids, k: nat, name: string, j: nat)
    requires k <= |adds|
    requires j < k && Names(base, adds, newId, j, name)
    requires forall m: nat | j < m < k :: !Names(base, adds, newId, m, name)
    ensures Resolve(IdByName(base, adds, newId, k), name) == newId(j)
    decreases k
  {
    hide Names, IdByName;
    IdByNameStep(base, adds, newId, k - 1, name);
    if j < k - 1 {
      NameMeansLastAdd(base, adds, newId, k - 1, name, j);
    }
  }

  lemma {:induction false} OtherTextMeansItself(base: seq<Cell>, adds: seq<Add>, newId: Ids, k: nat, r: string)
    requires k <= |adds| && forall m: nat | m < k :: !Names(base, adds, newId, m, r)
    ensures Resolve(IdByName(base, adds, newId, k), r) == r
  {
    hide Names, ResultName, AddAll;
    if k == 0 {
    } else {
      IdByNameStep(base, adds, newId, k - 1, r);
      OtherTextMeansItself(base, adds, newId, k - 1, r);
    }
  }
}
