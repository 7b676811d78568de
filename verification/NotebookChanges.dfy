/** Applying a reviewed change set to a notebook: edits and deletes, then new cells in place. */
module NotebookChanges {
  import opened Options
  import opened Strings
  import opened Naming

  datatype CellType = Markdown | Sql | Python | Chart | Pivot

  datatype Cell = Cell(id: string, kind: CellType, source: string, name: Option<string>, dataSource: Option<string>,
                       chart: Option<string>, collapsed: bool, output: Option<string>)

  datatype Edit = Edit(cellId: string, source: string)

  datatype Add = Add(afterCellId: Option<string>, kind: CellType, name: string, source: string,
                     dataSource: Option<string>)

  datatype Changes = Changes(edits: seq<Edit>, deletes: seq<string>, adds: seq<Add>, run: seq<string>)

  // ---- Edits and deletes ----

  /** The last edit of a cell wins. */
  function EditMap(edits: seq<Edit>): map<string, string> {
    if edits == [] then map[]
    else
      var last := edits[|edits| - 1];
      EditMap(edits[..|edits| - 1])[last.cellId := last.source]
  }

  /** An edited cell has the new source, and its old result is gone; other cells are as they were. */
  function Edited(c: Cell, edits: map<string, string>): (r: Cell)
    ensures r.id == c.id && r.name == c.name
  {
    if c.id in edits then c.(source := edits[c.id], output := None) else c
  }

  /** The cells not deleted, edited, in their old order. */
  function Kept(cells: seq<Cell>, edits: map<string, string>, deletes: set<string>): seq<Cell> {
    if cells == [] then []
    else
      var front, last := cells[..|cells| - 1], cells[|cells| - 1];
      Kept(front, edits, deletes) + if last.id in deletes then [] else [Edited(last, edits)]
  }

  /** The cells that count as a change among the first n: deleted, or kept and edited. */
  function Touched(cells: seq<Cell>, edits: map<string, string>, deletes: set<string>, n: nat): set<nat>
    requires n <= |cells|
  {
    set i: nat | i < n && (cells[i].id in deletes || cells[i].id in edits)
  }

  // ---- New cells ----

  function CellNames(cells: seq<Cell>): set<string> {
    set c | c in cells && c.name.Some? && c.name.value != "" :: c.name.value
  }

  function Prefix(kind: CellType): string {
    if kind == Sql then "q" else "df"
  }

  function ResultName(next: seq<Cell>, a: Add): Option<string> {
    if a.kind == Markdown then None
    else if exists c | c in next :: c.name == Some(a.name) then
      Some(Numbered(Prefix(a.kind), FirstFree(CellNames(next), Prefix(a.kind))))
    else Some(a.name)
  }

  function NewCell(next: seq<Cell>, a: Add, id: string): Cell {
    Cell(id, a.kind, a.source, ResultName(next, a), if a.kind == Sql then a.dataSource else None, None, false, None)
  }

  /** The first cell with that id, or -1. */
  function FindIndex(next: seq<Cell>, id: string, from: nat := 0): (at: int)
    requires from <= |next|
    ensures at == -1 || (from <= at < |next| && next[at].id == id && forall k | from <= k < at :: next[k].id != id)
    ensures at == -1 ==> forall k | from <= k < |next| :: next[k].id != id
    decreases |next| - from
  {
    if from == |next| then -1 else if next[from].id == id then from else FindIndex(next, id, from + 1)
  }

  /** Where the add's anchor is, or -1. */
  function AnchorOf(next: seq<Cell>, a: Add): (at: int)
    ensures -1 <= at < |next|
  {
    if a.afterCellId.Some? && a.afterCellId.value != "" then FindIndex(next, a.afterCellId.value) else -1
  }

  /** The cell put after index `at`, or at the end. */
  function Insert(next: seq<Cell>, cell: Cell, at: int): seq<Cell>
    requires -1 <= at < |next|
  {
    if at >= 0 then next[..at + 1] + [cell] + next[at + 1..] else next + [cell]
  }

  function AddOne(next: seq<Cell>, a: Add, id: string): seq<Cell> {
    Insert(next, NewCell(next, a, id), AnchorOf(next, a))
  }

  type Ids = nat -> string

  /** The notebook after the first k adds; the k-th new cell gets the k-th id. */
  function AddAll(base: seq<Cell>, adds: seq<Add>, newId: Ids, k: nat): seq<Cell>
    requires k <= |adds|
  {
    if k == 0 then base else AddOne(AddAll(base, adds, newId, k - 1), adds[k - 1], newId(k - 1))
  }

  /** Names asked for by the first k adds, to the ids of their cells; a later add with the same name wins. */
  function IdByName(base: seq<Cell>, adds: seq<Add>, newId: Ids, k: nat): map<string, string>
    requires k <= |adds|
  {
    if k == 0 then map[]
    else
      var before := IdByName(base, adds, newId, k - 1);
      var name := ResultName(AddAll(base, adds, newId, k - 1), adds[k - 1]);
      if name.Some? && name.value != "" then before[adds[k - 1].name := newId(k - 1)] else before
  }

  function Resolve(ids: map<string, string>, r: string): string {
    if r in ids then ids[r] else r
  }

  /** The cell is run: it was asked for, by id or by a new cell's name, and it can run. */
  predicate IsRun(c: Cell, wanted: set<string>) {
    c.id in wanted && (c.kind == Sql || c.kind == Python)
  }

  // ---- The method, one loop at a time ----

  /** The first loop: deletes and edits. */
  method KeepCells(cells: seq<Cell>, edits: map<string, string>, deletes: set<string>)
    returns (next: seq<Cell>, applied: nat)
    ensures next == Kept(cells, edits, deletes)
    ensures applied == |Touched(cells, edits, deletes, |cells|)|
  {
    next, applied := [], 0;
    for i := 0 to |cells|
      invariant next == Kept(cells[..i], edits, deletes)
      invariant applied == |Touched(cells, edits, deletes, i)|
    {
      var c := cells[i];
      assert cells[..i + 1][..i] == cells[..i];
      TouchedGrows(cells, edits, deletes, i);
      if c.id in deletes {
        applied := applied + 1;
      } else if c.id in edits {
        next := next + [c.(source := edits[c.id], output := None)];
        applied := applied + 1;
      } else {
        next := next + [c];
      }
    }
    assert cells[..|cells|] == cells;
  }

  /** The body of the second loop: one new cell. */
  method AddCell(next: seq<Cell>, a: Add, id: string) returns (name: Option<string>, longer: seq<Cell>)
    ensures name == ResultName(next, a)
    ensures longer == AddOne(next, a, id)
  {
    name := None;
    if a.kind != Markdown {
      if exists c | c in next :: c.name == Some(a.name) {
        var free := NextResultName(CellNames(next), Prefix(a.kind));
        name := Some(free);
      } else {
        name := Some(a.name);
      }
    }
    var cell := Cell(id, a.kind, a.source, name, if a.kind == Sql then a.dataSource else None, None, false, None);
    longer := Insert(next, cell, AnchorOf(next, a));
  }

  /** The ids of the cells that are run, in notebook order. */
  function RunList(next: seq<Cell>, wanted: set<string>): seq<string> {
    if next == [] then []
    else
      var last := next[|next| - 1];
      RunList(next[..|next| - 1], wanted) + if IsRun(last, wanted) then [last.id] else []
  }

  /** The last step: filters and lists the cells to run. */
  method CellsToRun(next: seq<Cell>, wanted: set<string>) returns (run: seq<string>)
    ensures run == RunList(next, wanted)
  {
    run := [];
    for i := 0 to |next|
      invariant run == RunList(next[..i], wanted)
    {
      assert next[..i + 1][..i] == next[..i];
      if IsRun(next[i], wanted) {
        run := run + [next[i].id];
      }
    }
    assert next[..|next|] == next;
  }

  /** The ids asked to run, with names of new cells replaced by their ids. */
  function Wanted(run: seq<string>, ids: map<string, string>): set<string> {
    set r | r in run :: Resolve(ids, r)
  }

  /** The surviving cells of a change set. */
  function Survivors(cells: seq<Cell>, action: Changes): seq<Cell> {
    Kept(cells, EditMap(action.edits), Elements(action.deletes))
  }

  /** `run` lists the ids at exactly the given positions, in notebook order, and those are the cells that are run. */
  ghost predicate RunsAt(next: seq<Cell>, wanted: set<string>, run: seq<string>, positions: seq<nat>) {
    && |run| == |positions|
    && (forall j | 0 <= j < |run| :: positions[j] < |next| && run[j] == next[positions[j]].id)
    && (forall j, k | 0 <= j < k < |positions| :: positions[j] < positions[k])
    && (forall i: nat | i < |next| :: IsRun(next[i], wanted) <==> i in positions)
  }

  /** The run list is a subsequence of the notebook: the wanted cells that can run, each once, in order. */
  lemma {:induction false} RunListInOrder(next: seq<Cell>, wanted: set<string>) returns (positions: seq<nat>)
    ensures RunsAt(next, wanted, RunList(next, wanted), positions)
  {
    hide IsRun, RunsAt;
    positions := [];
    if next == [] {
      NoCells(wanted);
    } else {
      var n := |next| - 1;
      var front := next[..n];
      var before := RunListInOrder(front, wanted);
      OneMoreCell(front, next[n], wanted, RunList(front, wanted), before);
      assert next == front + [next[n]];
      assert RunList(next, wanted)
             == if IsRun(next[n], wanted) then RunList(front, wanted) + [next[n].id] else RunList(front, wanted);
      positions := if IsRun(next[n], wanted) then before + [n] else before;
    }
  }

  lemma NoCells(wanted: set<string>)
    ensures RunsAt([], wanted, [], [])
  {
  }

  lemma OneMoreCell(front: seq<Cell>, c: Cell, wanted: set<string>, run: seq<string>, positions: seq<nat>)
    requires RunsAt(front, wanted, run, positions)
    ensures if IsRun(c, wanted) then RunsAt(front + [c], wanted, run + [c.id], positions + [|front|])
            else RunsAt(front + [c], wanted, run, positions)
  {
    hide IsRun;
    assert forall i: nat | i < |front| :: (front + [c])[i] == front[i];
    assert forall i :: i in positions + [|front|] <==> i in positions || i == |front|;
  }

  lemma TouchedGrows(cells: seq<Cell>, edits: map<string, string>, deletes: set<string>, n: nat)
    requires n < |cells|
    ensures |Touched(cells, edits, deletes, n + 1)|
            == |Touched(cells, edits, deletes, n)| + if cells[n].id in deletes || cells[n].id in edits then 1 else 0
  {
    var more, less := Touched(cells, edits, deletes, n + 1), Touched(cells, edits, deletes, n);
    if cells[n].id in deletes || cells[n].id in edits {
      assert more == less + {n};
    } else {
      assert more == less;
    }
  }
}
