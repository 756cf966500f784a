/**
 * The layout side of utils/display.py: the three-layer header of the data table
 * (groups, subgroups, columns), the column order of the export, the header filtering
 * of the export and of the HTML table, the choice of format for a cell, and the
 * alternating date bands of the table rows. The HTML, CSS and JavaScript text itself is
 * not modelled.
 */
module Display {
  import opened Wrappers
  import opened Text

  /** A column of the table: its name in the data and the label shown in the third header row. */
  datatype Column = Column(name: string, caption: string)

  /** A second-layer header cell spanning its columns. */
  datatype Subgroup = Subgroup(name: string, columns: seq<Column>)

  /** A first-layer header cell, with the colour of all its columns. */
  datatype Group = Group(name: string, color: string, subgroups: seq<Subgroup>)

  /** `HEADER_STRUCTURE['groups']`. */
  const HeaderStructure: seq<Group> := [
    Group("", "#FFFF99", [
      Subgroup("Date", [Column("Date", "Date")]),
      Subgroup("Client Type", [Column("Client Type", "Client Type")])]),
    Group("OPTION", "#00FF00", [
      Subgroup("NET DIFF", [Column("NET DIFF", "")]),
      Subgroup("ROC", [Column("Option ROC", "")]),
      Subgroup("ABSULATE CHANGE", [Column("Abs Change Call", "call Index"), Column("Abs Change Put", "Put Index")]),
      Subgroup("OPTION", [Column("Option NET", "NET")]),
      Subgroup("NET CALL", [Column("NET CALL (CoC)", "")]),
      Subgroup("NET PUT", [Column("NET PUT (CoC)", "")])]),
    Group("FUTURE", "#00FFFF", [
      Subgroup("FUTURE", [Column("Future Net", "NET")]),
      Subgroup("ROC", [Column("Future ROC", "")]),
      Subgroup("ABSULATE CHANGE", [Column("Fut Abs Chg Long", "LONG"), Column("Fut Abs Chg Short", "SHORT")]),
      Subgroup("L/S RATIO", [Column("Fut L/S Ratio", "")]),
      Subgroup("LONG", [Column("Fut Long %", "%")]),
      Subgroup("SHORT", [Column("Fut Short %", "%")])]),
    Group("FUTURE STOCK", "#FFFF00", [
      Subgroup("FUTURE", [Column("Stk Fut Net", "NET")]),
      Subgroup("ROC", [Column("Stk Fut ROC", "")]),
      Subgroup("ABSULATE CHANGE", [Column("Stk Abs Chg Long", "LONG"), Column("Stk Abs Chg Short", "SHORT")]),
      Subgroup("L/S RATIO", [Column("Stk L/S Ratio", "")]),
      Subgroup("LONG", [Column("Stk Long %", "%")]),
      Subgroup("SHORT", [Column("Stk Short %", "%")])]),
    Group("", "#90EE90", [
      Subgroup("NIFTY", [Column("Nifty Diff", "difff")]),
      Subgroup("NIFTY", [Column("Nifty Spot", "spot")])]),
    Group("FUTURE", "#FF00FF", [
      Subgroup("TOTAL LONG", [Column("Future Total Long %", "%")]),
      Subgroup("TOTAL SHORT", [Column("Future Total Short %", "%")])])
  ]

  // ---------------------------------------------------------------------------
  // The flattened header: one cell per column, in declaration order, carrying the
  // names and colour of the group and subgroup that own the column.
  // ---------------------------------------------------------------------------

  datatype HeaderCell = HeaderCell(group: string, color: string, subgroup: string, column: string, caption: string)

  function CellOf(g: Group, s: Subgroup, c: Column): HeaderCell {
    HeaderCell(g.name, g.color, s.name, c.name, c.caption)
  }

  /** The cells of some columns of subgroup `s` of group `g`. */
  function ColumnCells(g: Group, s: Subgroup, columns: seq<Column>): (r: seq<HeaderCell>)
    ensures |r| == |columns|
  {
    if columns == [] then []
    else ColumnCells(g, s, columns[..|columns| - 1]) + [CellOf(g, s, columns[|columns| - 1])]
  }

  /** The cells of some subgroups of group `g`, subgroup after subgroup. */
  function SubgroupCells(g: Group, subgroups: seq<Subgroup>): seq<HeaderCell> {
    if subgroups == [] then []
    else
      var last := subgroups[|subgroups| - 1];
      SubgroupCells(g, subgroups[..|subgroups| - 1]) + ColumnCells(g, last, last.columns)
  }

  /** The cells of some groups, group after group. */
  function Cells(groups: seq<Group>): seq<HeaderCell> {
    if groups == [] then []
    else
      var last := groups[|groups| - 1];
      Cells(groups[..|groups| - 1]) + SubgroupCells(last, last.subgroups)
  }

  /** Which header row, or the colour list, a projection of the cells gives. */
  datatype Layer = GroupLayer | SubgroupLayer | ColumnLayer | ColorLayer

  function Pick(c: HeaderCell, layer: Layer): string {
    match layer
    case GroupLayer => c.group
    case SubgroupLayer => c.subgroup
    case ColumnLayer => c.column
    case ColorLayer => c.color
  }

  function Project(cells: seq<HeaderCell>, layer: Layer): (r: seq<string>)
    ensures |r| == |cells|
  {
    if cells == [] then []
    else Project(cells[..|cells| - 1], layer) + [Pick(cells[|cells| - 1], layer)]
  }

  /** The column names in display order. */
  function DisplayColumns(groups: seq<Group>): seq<string> {
    Project(Cells(groups), ColumnLayer)
  }

  lemma ProjectSnoc(cells: seq<HeaderCell>, c: HeaderCell, layer: Layer)
    ensures Project(cells + [c], layer) == Project(cells, layer) + [Pick(c, layer)]
  {
    assert (cells + [c])[..|cells|] == cells;
  }

  lemma ColumnCellsSnoc(g: Group, s: Subgroup, k: nat)
    requires k < |s.columns|
    ensures ColumnCells(g, s, s.columns[..k + 1]) == ColumnCells(g, s, s.columns[..k]) + [CellOf(g, s, s.columns[k])]
  {
    assert s.columns[..k + 1][..k] == s.columns[..k];
  }

  lemma SubgroupCellsSnoc(g: Group, k: nat)
    requires k < |g.subgroups|
    ensures SubgroupCells(g, g.subgroups[..k + 1])
            == SubgroupCells(g, g.subgroups[..k]) + ColumnCells(g, g.subgroups[k], g.subgroups[k].columns)
  {
    assert g.subgroups[..k + 1][..k] == g.subgroups[..k];
  }

  lemma CellsSnoc(groups: seq<Group>, k: nat)
    requires k < |groups|
    ensures Cells(groups[..k + 1]) == Cells(groups[..k]) + SubgroupCells(groups[k], groups[k].subgroups)
  {
    assert groups[..k + 1][..k] == groups[..k];
  }

  // ---------------------------------------------------------------------------
  // `get_display_columns`, `get_header_rows`, `get_column_colors`: the same three nested
  // loops over the header structure, appending one entry per column. The traversal is
  // written once, one loop level per method, and projected to the layer each one keeps.
  // ---------------------------------------------------------------------------

  /** The innermost loop: one entry per column of `subgroup`. */
  method AppendColumns(group: Group, subgroup: Subgroup, layer: Layer, values: seq<string>, ghost done: seq<HeaderCell>)
    returns (r: seq<string>, ghost after: seq<HeaderCell>)
    requires values == Project(done, layer)
    ensures after == done + ColumnCells(group, subgroup, subgroup.columns)
    ensures r == Project(after, layer)
  {
    r := values;
    after := done;
    for c := 0 to |subgroup.columns|
      invariant after == done + ColumnCells(group, subgroup, subgroup.columns[..c])
      invariant r == Project(after, layer)
    {
      var cell := CellOf(group, subgroup, subgroup.columns[c]);
      ProjectSnoc(after, cell, layer);
      ColumnCellsSnoc(group, subgroup, c);
      r := r + [Pick(cell, layer)];
      after := after + [cell];
    }
    assert subgroup.columns[..|subgroup.columns|] == subgroup.columns;
  }

  /** The middle loop: the columns of `group`, subgroup by subgroup. */
  method AppendGroup(group: Group, layer: Layer, values: seq<string>, ghost done: seq<HeaderCell>)
    returns (r: seq<string>, ghost after: seq<HeaderCell>)
    requires values == Project(done, layer)
    ensures after == done + SubgroupCells(group, group.subgroups)
    ensures r == Project(after, layer)
  {
    r := values;
    after := done;
    for s := 0 to |group.subgroups|
      invariant after == done + SubgroupCells(group, group.subgroups[..s])
      invariant r == Project(after, layer)
    {
      r, after := AppendColumns(group, group.subgroups[s], layer, r, after);
      SubgroupCellsSnoc(group, s);
    }
    assert group.subgroups[..|group.subgroups|] == group.subgroups;
  }

  /** The outer loop: every column of every group, in declaration order. */
  method Flatten(groups: seq<Group>, layer: Layer) returns (values: seq<string>)
    ensures values == Project(Cells(groups), layer)
  {
    values := [];
    ghost var done: seq<HeaderCell> := [];
    for g := 0 to |groups|
      invariant done == Cells(groups[..g])
      invariant values == Project(done, layer)
    {
      values, done := AppendGroup(groups[g], layer, values, done);
      CellsSnoc(groups, g);
    }
    assert groups[..|groups|] == groups;
  }

  /** `get_display_columns()`: every column name of the header structure, in display order. */
  method GetDisplayColumns() returns (columns: seq<string>)
    ensures columns == DisplayColumns(HeaderStructure)
  {
    columns := Flatten(HeaderStructure, ColumnLayer);
  }

  /**
   * `get_header_rows()`: for every column, the name of its group, the name of its
   * subgroup and its own name (not its label): three lists of equal length whose third
   * is the display column order.
   */
  method GetHeaderRows() returns (layer1: seq<string>, layer2: seq<string>, layer3: seq<string>)
    ensures layer1 == Project(Cells(HeaderStructure), GroupLayer)
    ensures layer2 == Project(Cells(HeaderStructure), SubgroupLayer)
    ensures layer3 == DisplayColumns(HeaderStructure)
    ensures |layer1| == |layer2| == |layer3|
  {
    layer1 := Flatten(HeaderStructure, GroupLayer);
    layer2 := Flatten(HeaderStructure, SubgroupLayer);
    layer3 := Flatten(HeaderStructure, ColumnLayer);
  }

  /** `get_column_colors()`: for every column, the colour of its group. */
  method GetColumnColors() returns (colors: seq<string>)
    ensures colors == Project(Cells(HeaderStructure), ColorLayer)
    ensures |colors| == |DisplayColumns(HeaderStructure)|
  {
    colors := Flatten(HeaderStructure, ColorLayer);
  }

  // ---------------------------------------------------------------------------
  // Where each column sits in the flattened header, and who owns it.
  // ---------------------------------------------------------------------------

  lemma {:induction false} ProjectAt(cells: seq<HeaderCell>, layer: Layer, i: nat)
    requires i < |cells|
    ensures Project(cells, layer)[i] == Pick(cells[i], layer)
    decreases |cells|
  {
    if i < |cells| - 1 {
      ProjectAt(cells[..|cells| - 1], layer, i);
    }
  }

  lemma {:induction false} ColumnCellsAt(g: Group, s: Subgroup, columns: seq<Column>, k: nat)
    requires k < |columns|
    ensures ColumnCells(g, s, columns)[k] == CellOf(g, s, columns[k])
    decreases |columns|
  {
    if k < |columns| - 1 {
      ColumnCellsAt(g, s, columns[..|columns| - 1], k);
    }
  }

  lemma {:induction false} SubgroupCellsAppend(g: Group, a: seq<Subgroup>, b: seq<Subgroup>)
    ensures SubgroupCells(g, a + b) == SubgroupCells(g, a) + SubgroupCells(g, b)
    decreases |b|
  {
    if b != [] {
      var front := b[..|b| - 1];
      assert (a + b)[..|a + b| - 1] == a + front;
      SubgroupCellsAppend(g, a, front);
    } else {
      assert a + b == a;
    }
  }

  lemma {:induction false} CellsAppend(a: seq<Group>, b: seq<Group>)
    ensures Cells(a + b) == Cells(a) + Cells(b)
    decreases |b|
  {
    if b != [] {
      var front := b[..|b| - 1];
      assert (a + b)[..|a + b| - 1] == a + front;
      CellsAppend(a, front);
    } else {
      assert a + b == a;
    }
  }

  /** The position of column `k` of subgroup `s` of group `g` in the flattened header. */
  function Offset(groups: seq<Group>, g: nat, s: nat, k: nat): nat
    requires g < |groups| && s < |groups[g].subgroups|
  {
    |Cells(groups[..g])| + |SubgroupCells(groups[g], groups[g].subgroups[..s])| + k
  }

  /**
   * Groups, subgroups and columns are flattened in declaration order: column `k` of
   * subgroup `s` of group `g` sits at `Offset(groups, g, s, k)`, carrying the names of
   * its group and subgroup and the colour of its group.
   */
  lemma CellPosition(groups: seq<Group>, g: nat, s: nat, k: nat)
    requires g < |groups| && s < |groups[g].subgroups| && k < |groups[g].subgroups[s].columns|
    ensures Offset(groups, g, s, k) < |Cells(groups)|
    ensures Cells(groups)[Offset(groups, g, s, k)] == CellOf(groups[g], groups[g].subgroups[s], groups[g].subgroups[s].columns[k])
  {
    var group := groups[g];
    var i := |SubgroupCells(group, group.subgroups[..s])| + k;
    assert Offset(groups, g, s, k) == |Cells(groups[..g])| + i;
    SubgroupCellPosition(group, s, k);
    GroupCellAt(groups, g, i);
  }

  /** Cell `i` of group `g` sits `i` places after the cells of the groups before it. */
  lemma GroupCellAt(groups: seq<Group>, g: nat, i: nat)
    requires g < |groups| && i < |SubgroupCells(groups[g], groups[g].subgroups)|
    ensures |Cells(groups[..g])| + i < |Cells(groups)|
    ensures Cells(groups)[|Cells(groups[..g])| + i] == SubgroupCells(groups[g], groups[g].subgroups)[i]
  {
    CellsAround(groups, g);
    IndexMiddle(Cells(groups[..g]), SubgroupCells(groups[g], groups[g].subgroups), Cells(groups[g + 1..]), i);
  }

  /** The header cells of `groups`, split around those of group `g`. */
  lemma CellsAround(groups: seq<Group>, g: nat)
    requires g < |groups|
    ensures Cells(groups) == Cells(groups[..g]) + SubgroupCells(groups[g], groups[g].subgroups) + Cells(groups[g + 1..])
  {
    var left, right := groups[..g + 1], groups[g + 1..];
    calc {
      Cells(groups);
      { assert left + right == groups; }
      Cells(left + right);
      { CellsAppend(left, right); }
      Cells(left) + Cells(right);
      { CellsSnoc(groups, g); }
      Cells(groups[..g]) + SubgroupCells(groups[g], groups[g].subgroups) + Cells(right);
    }
  }

  lemma IndexMiddle<T>(front: seq<T>, middle: seq<T>, back: seq<T>, i: nat)
    requires i < |middle|
    ensures |front| + i < |front + middle + back|
    ensures (front + middle + back)[|front| + i] == middle[i]
  {
  }

  lemma SubgroupCellPosition(group: Group, s: nat, k: nat)
    requires s < |group.subgroups| && k < |group.subgroups[s].columns|
    ensures |SubgroupCells(group, group.subgroups[..s])| + k < |SubgroupCells(group, group.subgroups)|
    ensures SubgroupCells(group, group.subgroups)[|SubgroupCells(group, group.subgroups[..s])| + k]
            == CellOf(group, group.subgroups[s], group.subgroups[s].columns[k])
  {
    var subs := group.subgroups;
    var sub := subs[s];
    var before := SubgroupCells(group, subs[..s]);
    assert SubgroupCells(group, subs[..s + 1]) == before + ColumnCells(group, sub, sub.columns) by {
      SubgroupCellsSnoc(group, s);
    }
    assert SubgroupCells(group, subs) == SubgroupCells(group, subs[..s + 1]) + SubgroupCells(group, subs[s + 1..]) by {
      assert subs == subs[..s + 1] + subs[s + 1..];
      SubgroupCellsAppend(group, subs[..s + 1], subs[s + 1..]);
    }
    ColumnCellsAt(group, sub, sub.columns, k);
    assert SubgroupCells(group, subs)[|before| + k] == ColumnCells(group, sub, sub.columns)[k];
  }

  lemma {:induction false} ColumnCellOwner(g: Group, s: Subgroup, columns: seq<Column>, i: nat)
    requires i < |ColumnCells(g, s, columns)|
    ensures exists k :: 0 <= k < |columns| && ColumnCells(g, s, columns)[i] == CellOf(g, s, columns[k])
  {
    ColumnCellsAt(g, s, columns, i);
  }

  lemma {:induction false} SubgroupCellOwner(g: Group, subgroups: seq<Subgroup>, i: nat)
    requires i < |SubgroupCells(g, subgroups)|
    ensures exists s, k :: 0 <= s < |subgroups| && 0 <= k < |subgroups[s].columns|
                           && SubgroupCells(g, subgroups)[i] == CellOf(g, subgroups[s], subgroups[s].columns[k])
    decreases |subgroups|
  {
    var n := |subgroups| - 1;
    var front := SubgroupCells(g, subgroups[..n]);
    if i < |front| {
      SubgroupCellOwner(g, subgroups[..n], i);
      var s, k :| 0 <= s < n && 0 <= k < |subgroups[..n][s].columns|
                  && front[i] == CellOf(g, subgroups[..n][s], subgroups[..n][s].columns[k]);
      assert subgroups[..n][s] == subgroups[s];
    } else {
      ColumnCellOwner(g, subgroups[n], subgroups[n].columns, i - |front|);
    }
  }

  /**
   * Conversely, every entry of the flattened header is a column of some subgroup of some
   * group, with that group's name and colour: entry `i` of `get_column_colors()` is the
   * colour of the group that owns column `i`.
   */
  lemma {:induction false} CellOwner(groups: seq<Group>, i: nat)
    requires i < |Cells(groups)|
    ensures exists g, s, k :: 0 <= g < |groups| && 0 <= s < |groups[g].subgroups| && 0 <= k < |groups[g].subgroups[s].columns|
                              && Cells(groups)[i] == CellOf(groups[g], groups[g].subgroups[s], groups[g].subgroups[s].columns[k])
    decreases |groups|
  {
    var n := |groups| - 1;
    var front := Cells(groups[..n]);
    if i < |front| {
      CellOwner(groups[..n], i);
      var g, s, k :| 0 <= g < n && 0 <= s < |groups[..n][g].subgroups| && 0 <= k < |groups[..n][g].subgroups[s].columns|
                     && front[i] == CellOf(groups[..n][g], groups[..n][g].subgroups[s], groups[..n][g].subgroups[s].columns[k]);
      assert groups[..n][g] == groups[g];
    } else {
      SubgroupCellOwner(groups[n], groups[n].subgroups, i - |front|);
    }
  }

  /**
   * Entry `i` of the colour list is the colour of the group that owns display column `i`,
   * and the three header layers name that column's group and subgroup.
   */
  lemma ColumnColorIsOwnersColor(groups: seq<Group>, i: nat)
    requires i < |DisplayColumns(groups)|
    ensures exists g, s, k ::
      && 0 <= g < |groups| && 0 <= s < |groups[g].subgroups| && 0 <= k < |groups[g].subgroups[s].columns|
      && DisplayColumns(groups)[i] == groups[g].subgroups[s].columns[k].name
      && Project(Cells(groups), ColorLayer)[i] == groups[g].color
      && Project(Cells(groups), GroupLayer)[i] == groups[g].name
      && Project(Cells(groups), SubgroupLayer)[i] == groups[g].subgroups[s].name
  {
    var cells := Cells(groups);
    CellOwner(groups, i);
    var g, s, k :| 0 <= g < |groups| && 0 <= s < |groups[g].subgroups| && 0 <= k < |groups[g].subgroups[s].columns|
                   && cells[i] == CellOf(groups[g], groups[g].subgroups[s], groups[g].subgroups[s].columns[k]);
    ProjectAt(cells, ColumnLayer, i);
    ProjectAt(cells, ColorLayer, i);
    ProjectAt(cells, GroupLayer, i);
    ProjectAt(cells, SubgroupLayer, i);
  }

  /** The display order starts with `Date` and then `Client Type`. */
  lemma DisplayStartsWithDateAndClientType()
    ensures |DisplayColumns(HeaderStructure)| >= 2
    ensures DisplayColumns(HeaderStructure)[0] == "Date" && DisplayColumns(HeaderStructure)[1] == "Client Type"
  {
    var first := HeaderStructure[0];
    CellPosition(HeaderStructure, 0, 0, 0);
    CellPosition(HeaderStructure, 0, 1, 0);
    assert HeaderStructure[..0] == [];
    assert first.subgroups[..0] == [];
    assert first.subgroups[..1] == [first.subgroups[0]];
    assert [first.subgroups[0]][..0] == [];
    assert |SubgroupCells(first, first.subgroups[..1])| == 1;
    ProjectAt(Cells(HeaderStructure), ColumnLayer, 0);
    ProjectAt(Cells(HeaderStructure), ColumnLayer, 1);
  }

  // ---------------------------------------------------------------------------
  // Order-preserving filters over column names: the list comprehensions of the source.
  // ---------------------------------------------------------------------------

  /** `[x for x in xs if x in ys]`. */
  function Keep(xs: seq<string>, ys: seq<string>): (r: seq<string>)
    ensures forall x :: x in r <==> x in xs && x in ys
    ensures |r| <= |xs|
  {
    if xs == [] then []
    else
      var front := Keep(xs[..|xs| - 1], ys);
      assert xs == xs[..|xs| - 1] + [xs[|xs| - 1]];
      if xs[|xs| - 1] in ys then front + [xs[|xs| - 1]] else front
  }

  /** `[x for x in xs if x not in ys]`. */
  function Drop(xs: seq<string>, ys: seq<string>): (r: seq<string>)
    ensures forall x :: x in r <==> x in xs && x !in ys
    ensures |r| <= |xs|
  {
    if xs == [] then []
    else
      var front := Drop(xs[..|xs| - 1], ys);
      assert xs == xs[..|xs| - 1] + [xs[|xs| - 1]];
      if xs[|xs| - 1] !in ys then front + [xs[|xs| - 1]] else front
  }

  /**
   * Both comprehensions work element by element: filtering a concatenation filters each
   * part, in order, and one element is kept exactly when it passes the test. So the
   * filtered list keeps the order and the copies of `xs`.
   */
  lemma KeepDropElementwise(a: seq<string>, b: seq<string>, ys: seq<string>)
    ensures Keep(a + b, ys) == Keep(a, ys) + Keep(b, ys)
    ensures Drop(a + b, ys) == Drop(a, ys) + Drop(b, ys)
    ensures forall x :: Keep([x], ys) == (if x in ys then [x] else [])
    ensures forall x :: Drop([x], ys) == (if x in ys then [] else [x])
  {
    forall x ensures Keep([x], ys) == (if x in ys then [x] else []) && Drop([x], ys) == (if x in ys then [] else [x]) {
      KeepDropSnoc([], x, ys);
      assert [] + [x] == [x];
    }
    KeepAppend(a, b, ys);
    DropAppend(a, b, ys);
  }

  lemma {:induction false} KeepAppend(a: seq<string>, b: seq<string>, ys: seq<string>)
    ensures Keep(a + b, ys) == Keep(a, ys) + Keep(b, ys)
    decreases |b|
  {
    if b == [] {
      assert a + b == a;
    } else {
      var front, x := b[..|b| - 1], b[|b| - 1];
      var k := if x in ys then [x] else [];
      assert b == front + [x];
      assert a + b == (a + front) + [x];
      calc {
        Keep(a + b, ys);
        { KeepDropSnoc(a + front, x, ys); }
        Keep(a + front, ys) + k;
        { KeepAppend(a, front, ys); }
        (Keep(a, ys) + Keep(front, ys)) + k;
        Keep(a, ys) + (Keep(front, ys) + k);
        { KeepDropSnoc(front, x, ys); }
        Keep(a, ys) + Keep(b, ys);
      }
    }
  }

  lemma {:induction false} DropAppend(a: seq<string>, b: seq<string>, ys: seq<string>)
    ensures Drop(a + b, ys) == Drop(a, ys) + Drop(b, ys)
    decreases |b|
  {
    if b == [] {
      assert a + b == a;
    } else {
      var front, x := b[..|b| - 1], b[|b| - 1];
      var d := if x in ys then [] else [x];
      assert b == front + [x];
      assert a + b == (a + front) + [x];
      calc {
        Drop(a + b, ys);
        { KeepDropSnoc(a + front, x, ys); }
        Drop(a + front, ys) + d;
        { DropAppend(a, front, ys); }
        (Drop(a, ys) + Drop(front, ys)) + d;
        Drop(a, ys) + (Drop(front, ys) + d);
        { KeepDropSnoc(front, x, ys); }
        Drop(a, ys) + Drop(b, ys);
      }
    }
  }

  /** Filtering `xs` followed by one more element. */
  lemma KeepDropSnoc(xs: seq<string>, x: string, ys: seq<string>)
    ensures Keep(xs + [x], ys) == Keep(xs, ys) + (if x in ys then [x] else [])
    ensures Drop(xs + [x], ys) == Drop(xs, ys) + (if x in ys then [] else [x])
  {
    assert (xs + [x])[..|xs|] == xs;
  }

  /** Two filters that agree on every element of `xs` keep the same elements. */
  lemma {:induction false} KeepSameMembers(xs: seq<string>, ys: seq<string>, zs: seq<string>)
    requires forall x :: x in xs ==> (x in ys <==> x in zs)
    ensures Keep(xs, ys) == Keep(xs, zs)
    ensures Drop(xs, ys) == Drop(xs, zs)
    decreases |xs|
  {
    if xs != [] {
      KeepSameMembers(xs[..|xs| - 1], ys, zs);
    }
  }

  lemma {:induction false} KeepNoDuplicates(xs: seq<string>, ys: seq<string>)
    requires NoDuplicates(xs)
    ensures NoDuplicates(Keep(xs, ys))
    decreases |xs|
  {
    if xs != [] {
      var n := |xs| - 1;
      KeepNoDuplicates(xs[..n], ys);
      assert xs[n] !in xs[..n];
    }
  }

  /** A sequence without duplicates holds each of its elements exactly once. */
  lemma {:induction false} DistinctCounts(a: seq<string>)
    requires NoDuplicates(a)
    ensures forall x :: multiset(a)[x] == if x in a then 1 else 0
    decreases |a|
  {
    if a != [] {
      var n := |a| - 1;
      DistinctCounts(a[..n]);
      assert a == a[..n] + [a[n]];
      assert a[n] !in a[..n];
    }
  }

  lemma DistinctSameMembers(a: seq<string>, b: seq<string>)
    requires NoDuplicates(a) && NoDuplicates(b)
    requires forall x :: x in a <==> x in b
    ensures multiset(a) == multiset(b)
  {
    DistinctCounts(a);
    DistinctCounts(b);
  }

  /** Every element of `xs` goes to exactly one of the two filters. */
  lemma {:induction false} KeepDropPartition(xs: seq<string>, ys: seq<string>)
    ensures multiset(xs) == multiset(Keep(xs, ys)) + multiset(Drop(xs, ys))
    decreases |xs|
  {
    if xs != [] {
      var n := |xs| - 1;
      KeepDropPartition(xs[..n], ys);
      assert xs == xs[..n] + [xs[n]];
    }
  }

  // ---------------------------------------------------------------------------
  // `prepare_export_data`: the column order of the export.
  // ---------------------------------------------------------------------------

  /** `available_cols + other_cols`. */
  function ExportColumnOrder(display: seq<string>, columns: seq<string>): seq<string> {
    var available := Keep(display, columns);
    available + Drop(columns, available)
  }

  /**
   * The export puts the display columns that are present first, in display order, then
   * every other column in its original order; with no label repeated, that is a
   * reordering of the table's columns.
   */
  lemma ExportColumnOrderIsPermutation(display: seq<string>, columns: seq<string>)
    requires NoDuplicates(display) && NoDuplicates(columns)
    ensures ExportColumnOrder(display, columns) == Keep(display, columns) + Drop(columns, display)
    ensures multiset(ExportColumnOrder(display, columns)) == multiset(columns)
    ensures NoDuplicates(ExportColumnOrder(display, columns))
  {
    var available := Keep(display, columns);
    KeepSameMembers(columns, available, display);
    KeepDropPartition(columns, display);
    KeepNoDuplicates(display, columns);
    KeepNoDuplicates(columns, display);
    DistinctSameMembers(available, Keep(columns, display));
    var r := ExportColumnOrder(display, columns);
    assert multiset(r) == multiset(columns);
    DistinctCounts(columns);
    forall p, q | 0 <= p < q < |r| ensures r[p] != r[q] {
      CountTwice(r, p, q);
    }
  }

  lemma CountTwice(r: seq<string>, p: nat, q: nat)
    requires p < q < |r|
    ensures r[p] == r[q] ==> multiset(r)[r[p]] >= 2
  {
    assert r == r[..q] + r[q..];
    assert r[p] in r[..q] && r[q] == r[q..][0];
  }

  // ---------------------------------------------------------------------------
  // The 27 display columns of the header structure, none named twice.
  // ---------------------------------------------------------------------------

  /** The names of some columns, in order. */
  function ColumnNames(columns: seq<Column>): (r: seq<string>)
    ensures |r| == |columns|
  {
    if columns == [] then [] else ColumnNames(columns[..|columns| - 1]) + [columns[|columns| - 1].name]
  }

  /** The column names of some subgroups, subgroup after subgroup. */
  function SubgroupNames(subgroups: seq<Subgroup>): seq<string> {
    if subgroups == [] then []
    else SubgroupNames(subgroups[..|subgroups| - 1]) + ColumnNames(subgroups[|subgroups| - 1].columns)
  }

  /** The column names of some groups, group after group. */
  function GroupNames(groups: seq<Group>): seq<string> {
    if groups == [] then []
    else GroupNames(groups[..|groups| - 1]) + SubgroupNames(groups[|groups| - 1].subgroups)
  }

  lemma {:induction false} ProjectAppend(a: seq<HeaderCell>, b: seq<HeaderCell>, layer: Layer)
    ensures Project(a + b, layer) == Project(a, layer) + Project(b, layer)
    decreases |b|
  {
    if b == [] {
      assert a + b == a;
    } else {
      var front, c := b[..|b| - 1], b[|b| - 1];
      assert b == front + [c];
      assert a + b == (a + front) + [c];
      calc {
        Project(a + b, layer);
        { ProjectSnoc(a + front, c, layer); }
        Project(a + front, layer) + [Pick(c, layer)];
        { ProjectAppend(a, front, layer); }
        Project(a, layer) + (Project(front, layer) + [Pick(c, layer)]);
        { ProjectSnoc(front, c, layer); }
        Project(a, layer) + Project(b, layer);
      }
    }
  }

  lemma {:induction false} ColumnCellsNames(g: Group, s: Subgroup, columns: seq<Column>)
    ensures Project(ColumnCells(g, s, columns), ColumnLayer) == ColumnNames(columns)
    decreases |columns|
  {
    if columns != [] {
      var front := columns[..|columns| - 1];
      ColumnCellsNames(g, s, front);
      ProjectSnoc(ColumnCells(g, s, front), CellOf(g, s, columns[|columns| - 1]), ColumnLayer);
    }
  }

  lemma {:induction false} SubgroupCellsNames(g: Group, subgroups: seq<Subgroup>)
    ensures Project(SubgroupCells(g, subgroups), ColumnLayer) == SubgroupNames(subgroups)
    decreases |subgroups|
  {
    if subgroups != [] {
      var front, last := subgroups[..|subgroups| - 1], subgroups[|subgroups| - 1];
      SubgroupCellsNames(g, front);
      ColumnCellsNames(g, last, last.columns);
      ProjectAppend(SubgroupCells(g, front), ColumnCells(g, last, last.columns), ColumnLayer);
    }
  }

  /** The display columns are the column names, group after group, subgroup after subgroup. */
  lemma {:induction false} DisplayColumnsAreNames(groups: seq<Group>)
    ensures DisplayColumns(groups) == GroupNames(groups)
    decreases |groups|
  {
    if groups != [] {
      var front, last := groups[..|groups| - 1], groups[|groups| - 1];
      DisplayColumnsAreNames(front);
      SubgroupCellsNames(last, last.subgroups);
      ProjectAppend(Cells(front), SubgroupCells(last, last.subgroups), ColumnLayer);
    }
  }

  lemma ColumnNamesOfOne(c: Column)
    ensures ColumnNames([c]) == [c.name]
  {
    assert [c][..0] == [];
  }

  lemma ColumnNamesOfTwo(c: Column, d: Column)
    ensures ColumnNames([c, d]) == [c.name, d.name]
  {
    assert [c, d][..1] == [c];
    ColumnNamesOfOne(c);
  }

  lemma SubgroupNamesSnoc(subgroups: seq<Subgroup>, k: nat)
    requires k < |subgroups|
    ensures SubgroupNames(subgroups[..k + 1]) == SubgroupNames(subgroups[..k]) + ColumnNames(subgroups[k].columns)
  {
    assert subgroups[..k + 1][..k] == subgroups[..k];
  }

  lemma GroupNamesSnoc(groups: seq<Group>, k: nat)
    requires k < |groups|
    ensures GroupNames(groups[..k + 1]) == GroupNames(groups[..k]) + SubgroupNames(groups[k].subgroups)
  {
    assert groups[..k + 1][..k] == groups[..k];
  }

  lemma GroupColumns0()
    ensures SubgroupNames(HeaderStructure[0].subgroups) == IdentityColumns
  {
    var subgroups := HeaderStructure[0].subgroups;
    assert subgroups[..0] == [];
    SubgroupNamesSnoc(subgroups, 0);
    ColumnNamesOfOne(subgroups[0].columns[0]);
    SubgroupNamesSnoc(subgroups, 1);
    ColumnNamesOfOne(subgroups[1].columns[0]);
    assert subgroups[..2] == subgroups;
  }

  lemma GroupColumns1()
    ensures SubgroupNames(HeaderStructure[1].subgroups) == OptionColumns
  {
    var subgroups := HeaderStructure[1].subgroups;
    assert subgroups[..0] == [];
    SubgroupNamesSnoc(subgroups, 0);
    ColumnNamesOfOne(subgroups[0].columns[0]);
    SubgroupNamesSnoc(subgroups, 1);
    ColumnNamesOfOne(subgroups[1].columns[0]);
    SubgroupNamesSnoc(subgroups, 2);
    ColumnNamesOfTwo(subgroups[2].columns[0], subgroups[2].columns[1]);
    SubgroupNamesSnoc(subgroups, 3);
    ColumnNamesOfOne(subgroups[3].columns[0]);
    SubgroupNamesSnoc(subgroups, 4);
    ColumnNamesOfOne(subgroups[4].columns[0]);
    SubgroupNamesSnoc(subgroups, 5);
    ColumnNamesOfOne(subgroups[5].columns[0]);
    assert subgroups[..6] == subgroups;
  }

  lemma GroupColumns2()
    ensures SubgroupNames(HeaderStructure[2].subgroups) == FutureColumns
  {
    var subgroups := HeaderStructure[2].subgroups;
    assert subgroups[..0] == [];
    SubgroupNamesSnoc(subgroups, 0);
    ColumnNamesOfOne(subgroups[0].columns[0]);
    SubgroupNamesSnoc(subgroups, 1);
    ColumnNamesOfOne(subgroups[1].columns[0]);
    SubgroupNamesSnoc(subgroups, 2);
    ColumnNamesOfTwo(subgroups[2].columns[0], subgroups[2].columns[1]);
    SubgroupNamesSnoc(subgroups, 3);
    ColumnNamesOfOne(subgroups[3].columns[0]);
    SubgroupNamesSnoc(subgroups, 4);
    ColumnNamesOfOne(subgroups[4].columns[0]);
    SubgroupNamesSnoc(subgroups, 5);
    ColumnNamesOfOne(subgroups[5].columns[0]);
    assert subgroups[..6] == subgroups;
  }

  lemma GroupColumns3()
    ensures SubgroupNames(HeaderStructure[3].subgroups) == StockFutureColumns
  {
    var subgroups := HeaderStructure[3].subgroups;
    assert subgroups[..0] == [];
    SubgroupNamesSnoc(subgroups, 0);
    ColumnNamesOfOne(subgroups[0].columns[0]);
    SubgroupNamesSnoc(subgroups, 1);
    ColumnNamesOfOne(subgroups[1].columns[0]);
    SubgroupNamesSnoc(subgroups, 2);
    ColumnNamesOfTwo(subgroups[2].columns[0], subgroups[2].columns[1]);
    SubgroupNamesSnoc(subgroups, 3);
    ColumnNamesOfOne(subgroups[3].columns[0]);
    SubgroupNamesSnoc(subgroups, 4);
    ColumnNamesOfOne(subgroups[4].columns[0]);
    SubgroupNamesSnoc(subgroups, 5);
    ColumnNamesOfOne(subgroups[5].columns[0]);
    assert subgroups[..6] == subgroups;
  }

  lemma GroupColumns4()
    ensures SubgroupNames(HeaderStructure[4].subgroups) == NiftyColumns
  {
    var subgroups := HeaderStructure[4].subgroups;
    assert subgroups[..0] == [];
    SubgroupNamesSnoc(subgroups, 0);
    ColumnNamesOfOne(subgroups[0].columns[0]);
    SubgroupNamesSnoc(subgroups, 1);
    ColumnNamesOfOne(subgroups[1].columns[0]);
    assert subgroups[..2] == subgroups;
  }

  lemma GroupColumns5()
    ensures SubgroupNames(HeaderStructure[5].subgroups) == FutureTotalColumns
  {
    var subgroups := HeaderStructure[5].subgroups;
    assert subgroups[..0] == [];
    SubgroupNamesSnoc(subgroups, 0);
    ColumnNamesOfOne(subgroups[0].columns[0]);
    SubgroupNamesSnoc(subgroups, 1);
    ColumnNamesOfOne(subgroups[1].columns[0]);
    assert subgroups[..2] == subgroups;
  }

  /** `get_display_columns()` on the header structure, written out group by group. */
  const DisplayOrder: seq<string> :=
    IdentityColumns + OptionColumns + FutureColumns + StockFutureColumns + NiftyColumns + FutureTotalColumns
  const IdentityColumns := ["Date", "Client Type"]
  const OptionColumns :=
    ["NET DIFF", "Option ROC", "Abs Change Call", "Abs Change Put", "Option NET", "NET CALL (CoC)", "NET PUT (CoC)"]
  const FutureColumns :=
    ["Future Net", "Future ROC", "Fut Abs Chg Long", "Fut Abs Chg Short", "Fut L/S Ratio", "Fut Long %", "Fut Short %"]
  const StockFutureColumns :=
    ["Stk Fut Net", "Stk Fut ROC", "Stk Abs Chg Long", "Stk Abs Chg Short", "Stk L/S Ratio", "Stk Long %", "Stk Short %"]
  const NiftyColumns := ["Nifty Diff", "Nifty Spot"]
  const FutureTotalColumns := ["Future Total Long %", "Future Total Short %"]

  /** The column names of six groups, group by group. */
  lemma GroupNamesOfSix(groups: seq<Group>)
    requires |groups| == 6
    ensures GroupNames(groups)
            == SubgroupNames(groups[0].subgroups) + SubgroupNames(groups[1].subgroups)
               + SubgroupNames(groups[2].subgroups) + SubgroupNames(groups[3].subgroups)
               + SubgroupNames(groups[4].subgroups) + SubgroupNames(groups[5].subgroups)
  {
    assert groups[..0] == [];
    GroupNamesSnoc(groups, 0);
    var names := SubgroupNames(groups[0].subgroups);
    assert GroupNames(groups[..1]) == names;
    GroupNamesSnoc(groups, 1);
    names := names + SubgroupNames(groups[1].subgroups);
    assert GroupNames(groups[..2]) == names;
    GroupNamesSnoc(groups, 2);
    names := names + SubgroupNames(groups[2].subgroups);
    assert GroupNames(groups[..3]) == names;
    GroupNamesSnoc(groups, 3);
    names := names + SubgroupNames(groups[3].subgroups);
    assert GroupNames(groups[..4]) == names;
    GroupNamesSnoc(groups, 4);
    names := names + SubgroupNames(groups[4].subgroups);
    assert GroupNames(groups[..5]) == names;
    GroupNamesSnoc(groups, 5);
    names := names + SubgroupNames(groups[5].subgroups);
    assert GroupNames(groups[..6]) == names;
    assert groups[..6] == groups;
  }

  /** The display columns, group by group. */
  lemma HeaderColumnsByGroup()
    ensures DisplayColumns(HeaderStructure)
            == SubgroupNames(HeaderStructure[0].subgroups) + SubgroupNames(HeaderStructure[1].subgroups)
               + SubgroupNames(HeaderStructure[2].subgroups) + SubgroupNames(HeaderStructure[3].subgroups)
               + SubgroupNames(HeaderStructure[4].subgroups) + SubgroupNames(HeaderStructure[5].subgroups)
  {
    DisplayColumnsAreNames(HeaderStructure);
    GroupNamesOfSix(HeaderStructure);
  }

  /**
   * The header structure names these 27 columns, in this order, and none twice, so the
   * display order meets the unique-label condition of `ExportColumnOrderIsPermutation`.
   */
  lemma HeaderColumnsAreDistinct()
    ensures DisplayColumns(HeaderStructure) == DisplayOrder
    ensures NoDuplicates(DisplayColumns(HeaderStructure))
  {
    HeaderColumnsInOrder();
    DisplayOrderIsDistinct();
  }

  lemma HeaderColumnsInOrder()
    ensures DisplayColumns(HeaderStructure) == DisplayOrder
  {
    HeaderColumnsByGroup();
    GroupColumns0();
    GroupColumns1();
    GroupColumns2();
    GroupColumns3();
    GroupColumns4();
    GroupColumns5();
  }

  lemma DisplayOrderIsDistinct()
    ensures NoDuplicates(DisplayOrder)
  {
    var order := IdentityColumns;
    NotEarlierOptionColumns();
    DistinctAppend(order, OptionColumns);
    order := order + OptionColumns;
    NotEarlierFutureColumns();
    DistinctAppend(order, FutureColumns);
    order := order + FutureColumns;
    NotEarlierStockFutureColumns();
    DistinctAppend(order, StockFutureColumns);
    order := order + StockFutureColumns;
    NotEarlierNiftyColumns();
    DistinctAppend(order, NiftyColumns);
    order := order + NiftyColumns;
    NotEarlierFutureTotalColumns();
    DistinctAppend(order, FutureTotalColumns);
    order := order + FutureTotalColumns;
  }

  lemma NotEarlierOptionColumns()
    ensures forall x :: x in IdentityColumns ==> x !in OptionColumns
  {
  }

  lemma NotEarlierFutureColumns()
    ensures forall x :: x in IdentityColumns + OptionColumns ==> x !in FutureColumns
  {
  }

  lemma NotEarlierStockFutureColumns()
    ensures forall x :: x in IdentityColumns + OptionColumns + FutureColumns ==> x !in StockFutureColumns
  {
  }

  lemma NotEarlierNiftyColumns()
    ensures forall x :: x in IdentityColumns + OptionColumns + FutureColumns + StockFutureColumns ==> x !in NiftyColumns
  {
  }

  lemma NotEarlierFutureTotalColumns()
    ensures forall x :: x in IdentityColumns + OptionColumns + FutureColumns + StockFutureColumns + NiftyColumns ==> x !in FutureTotalColumns
  {
  }

  /** Two lists without repeats, sharing no name, make one without repeats. */
  lemma DistinctAppend(a: seq<string>, b: seq<string>)
    requires NoDuplicates(a) && NoDuplicates(b) && forall x :: x in a ==> x !in b
    ensures NoDuplicates(a + b)
  {
    var ab := a + b;
    forall i, j | 0 <= i < j < |ab| ensures ab[i] != ab[j] {
      if j >= |a| && i < |a| {
        assert ab[i] in a && ab[j] in b;
      }
    }
  }

  /** For the real header, the export of a table with unique labels reorders its columns. */
  lemma HeaderExportIsPermutation(columns: seq<string>)
    requires NoDuplicates(columns)
    ensures multiset(ExportColumnOrder(DisplayColumns(HeaderStructure), columns)) == multiset(columns)
    ensures NoDuplicates(ExportColumnOrder(DisplayColumns(HeaderStructure), columns))
  {
    HeaderColumnsAreDistinct();
    ExportColumnOrderIsPermutation(DisplayColumns(HeaderStructure), columns);
  }

  /** A table as `prepare_export_data` hands it on: column labels, and rows of formatted cells in column order. */
  datatype Table = Table(columns: seq<string>, rows: seq<seq<string>>)

  /** Every row has one cell per column. */
  predicate WellFormed(t: Table) {
    forall r :: r in t.rows ==> |r| == |t.columns|
  }

  /** `df_export[final_cols]`, read row by row: each row's cells in the order `order`. */
  function Reorder(row: seq<string>, columns: seq<string>, order: seq<string>): (r: seq<string>)
    requires |row| == |columns| && forall c :: c in order ==> c in columns
    ensures |r| == |order|
    ensures forall j :: 0 <= j < |order| ==> r[j] == row[IndexOf(columns, order[j])]
  {
    seq(|order|, j requires 0 <= j < |order| => row[IndexOf(columns, order[j])])
  }

  /**
   * `prepare_export_data(df)`, as far as column order goes, `display` being the order of
   * `get_display_columns()`.
   */
  function PrepareExportData(t: Table, display: seq<string>): (r: Table)
    requires WellFormed(t)
    ensures r.columns == ExportColumnOrder(display, t.columns)
    ensures |r.rows| == |t.rows| && WellFormed(r)
    ensures forall c :: c in r.columns ==> c in t.columns
    ensures forall i :: 0 <= i < |r.rows| ==> |t.rows[i]| == |t.columns| && r.rows[i] == Reorder(t.rows[i], t.columns, r.columns)
  {
    var order := ExportColumnOrder(display, t.columns);
    Table(order, seq(|t.rows|, i requires 0 <= i < |t.rows| => Reorder(t.rows[i], t.columns, order)))
  }

  // ---------------------------------------------------------------------------
  // `prepare_export_with_headers`: the header layers kept for the columns present.
  // ---------------------------------------------------------------------------

  /** `[values[i] for i, key in enumerate(keys) if key in wanted]`. */
  function Select(values: seq<string>, keys: seq<string>, wanted: seq<string>): seq<string>
    requires |values| == |keys|
  {
    if keys == [] then []
    else
      var n := |keys| - 1;
      Select(values[..n], keys[..n], wanted) + if keys[n] in wanted then [values[n]] else []
  }

  lemma SelectSnoc(values: seq<string>, keys: seq<string>, wanted: seq<string>, i: nat)
    requires |values| == |keys| && i < |keys|
    ensures Select(values[..i + 1], keys[..i + 1], wanted)
            == Select(values[..i], keys[..i], wanted) + if keys[i] in wanted then [values[i]] else []
  {
    assert values[..i + 1][..i] == values[..i];
    assert keys[..i + 1][..i] == keys[..i];
  }

  /** Selecting by the keys themselves is filtering the keys. */
  lemma {:induction false} SelectKeys(keys: seq<string>, wanted: seq<string>)
    ensures Select(keys, keys, wanted) == Keep(keys, wanted)
    decreases |keys|
  {
    if keys != [] {
      SelectKeys(keys[..|keys| - 1], wanted);
    }
  }

  /** Any layer selected alongside the keys is as long as the kept keys. */
  lemma {:induction false} SelectLength(values: seq<string>, keys: seq<string>, wanted: seq<string>)
    requires |values| == |keys|
    ensures |Select(values, keys, wanted)| == |Keep(keys, wanted)|
    decreases |keys|
  {
    if keys != [] {
      var n := |keys| - 1;
      SelectLength(values[..n], keys[..n], wanted);
    }
  }

  /** The loop `for i, col in enumerate(display_cols): if col in available_cols: ...`. */
  method FilterHeaderLayers(layer1: seq<string>, layer2: seq<string>, layer3: seq<string>, display: seq<string>, available: seq<string>)
    returns (filtered1: seq<string>, filtered2: seq<string>, filtered3: seq<string>)
    requires |layer1| == |display| && |layer2| == |display| && |layer3| == |display|
    ensures filtered1 == Select(layer1, display, available)
    ensures filtered2 == Select(layer2, display, available)
    ensures filtered3 == Select(layer3, display, available)
  {
    filtered1, filtered2, filtered3 := [], [], [];
    for i := 0 to |display|
      invariant filtered1 == Select(layer1[..i], display[..i], available)
      invariant filtered2 == Select(layer2[..i], display[..i], available)
      invariant filtered3 == Select(layer3[..i], display[..i], available)
    {
      SelectSnoc(layer1, display, available, i);
      SelectSnoc(layer2, display, available, i);
      SelectSnoc(layer3, display, available, i);
      if display[i] in available {
        filtered1 := filtered1 + [layer1[i]];
        filtered2 := filtered2 + [layer2[i]];
        filtered3 := filtered3 + [layer3[i]];
      }
    }
    assert layer1[..|display|] == layer1 && layer2[..|display|] == layer2;
    assert layer3[..|display|] == layer3 && display[..|display|] == display;
  }

  /**
   * `prepare_export_with_headers(df)`: three header rows, cut down to the display columns
   * the table has (the third row being exactly those columns, in display order), then one
   * row per data row in export column order; and the colours of all display columns,
   * unfiltered.
   */
  method PrepareExportWithHeaders(t: Table) returns (allRows: seq<seq<string>>, colors: seq<string>)
    requires WellFormed(t)
    ensures |allRows| == 3 + |t.rows|
    ensures var available := Keep(DisplayColumns(HeaderStructure), t.columns);
      && allRows[0] == Select(Project(Cells(HeaderStructure), GroupLayer), DisplayColumns(HeaderStructure), available)
      && allRows[1] == Select(Project(Cells(HeaderStructure), SubgroupLayer), DisplayColumns(HeaderStructure), available)
      && |allRows[0]| == |available| && |allRows[1]| == |available|
      && allRows[2] == available
    ensures allRows[3..] == PrepareExportData(t, DisplayColumns(HeaderStructure)).rows
    ensures colors == Project(Cells(HeaderStructure), ColorLayer)
  {
    var layer1, layer2, layer3 := GetHeaderRows();
    var display := GetDisplayColumns();
    allRows := ExportWithHeaders(t, layer1, layer2, display);
    colors := GetColumnColors();
  }

  /** The rows of `prepare_export_with_headers`, for header layers `layer1`, `layer2` over columns `display`. */
  method ExportWithHeaders(t: Table, layer1: seq<string>, layer2: seq<string>, display: seq<string>) returns (allRows: seq<seq<string>>)
    requires WellFormed(t)
    requires |layer1| == |display| && |layer2| == |display|
    ensures |allRows| == 3 + |t.rows|
    ensures var available := Keep(display, t.columns);
      && allRows[0] == Select(layer1, display, available)
      && allRows[1] == Select(layer2, display, available)
      && |allRows[0]| == |available| && |allRows[1]| == |available|
      && allRows[2] == available
    ensures allRows[3..] == PrepareExportData(t, display).rows
  {
    var exported := PrepareExportData(t, display);
    var available := Keep(display, exported.columns);
    var filtered1, filtered2, filtered3 := FilterHeaderLayers(layer1, layer2, display, display, available);

    ghost var present := Keep(display, t.columns);
    assert available == present by {
      assert forall c :: c in exported.columns <==> c in t.columns by {
        KeepDropPartitionMembers(display, t.columns);
      }
      KeepSameMembers(display, exported.columns, t.columns);
    }
    SelectKeys(display, available);
    KeepSameMembers(display, available, t.columns);
    SelectLength(layer1, display, available);
    SelectLength(layer2, display, available);

    allRows := AppendRows([filtered1, filtered2, filtered3], exported.rows);
  }

  /** `for _, row in df_export.iterrows(): all_rows.append(row.tolist())`. */
  method AppendRows(header: seq<seq<string>>, rows: seq<seq<string>>) returns (all: seq<seq<string>>)
    ensures all == header + rows
  {
    all := header;
    for i := 0 to |rows|
      invariant all == header + rows[..i]
    {
      all := all + [rows[i]];
      assert rows[..i + 1] == rows[..i] + [rows[i]];
    }
    assert rows[..|rows|] == rows;
  }

  /** The export's columns are the table's columns, whether or not labels repeat. */
  lemma KeepDropPartitionMembers(display: seq<string>, columns: seq<string>)
    ensures forall c :: c in ExportColumnOrder(display, columns) <==> c in columns
  {
  }

  // ---------------------------------------------------------------------------
  // `generate_table_html`: the header cut down to the columns the table has.
  // ---------------------------------------------------------------------------

  /** `[(col, label) for col, label in subgroup['columns'] if col in display_df.columns]`. */
  function PresentColumns(columns: seq<Column>, present: seq<string>): seq<Column> {
    if columns == [] then []
    else
      var n := |columns| - 1;
      PresentColumns(columns[..n], present) + if columns[n].name in present then [columns[n]] else []
  }

  /** The subgroups of a group that keep at least one column, each with only those columns. */
  function FilteredSubgroups(subgroups: seq<Subgroup>, present: seq<string>): seq<Subgroup> {
    if subgroups == [] then []
    else
      var n := |subgroups| - 1;
      var kept := PresentColumns(subgroups[n].columns, present);
      FilteredSubgroups(subgroups[..n], present) + if kept != [] then [Subgroup(subgroups[n].name, kept)] else []
  }

  /** The groups that keep at least one subgroup, each with only those subgroups. */
  function FilteredGroups(groups: seq<Group>, present: seq<string>): seq<Group> {
    if groups == [] then []
    else
      var n := |groups| - 1;
      var kept := FilteredSubgroups(groups[n].subgroups, present);
      FilteredGroups(groups[..n], present) + if kept != [] then [Group(groups[n].name, groups[n].color, kept)] else []
  }

  /** The inner loop of the filtering: the subgroups of `group` that keep a column. */
  method FilterSubgroups(group: Group, present: seq<string>) returns (kept: seq<Subgroup>)
    ensures kept == FilteredSubgroups(group.subgroups, present)
  {
    kept := [];
    for s := 0 to |group.subgroups|
      invariant kept == FilteredSubgroups(group.subgroups[..s], present)
    {
      var subgroup := group.subgroups[s];
      assert group.subgroups[..s + 1][..s] == group.subgroups[..s];
      var columns := PresentColumns(subgroup.columns, present);
      if columns != [] {
        kept := kept + [Subgroup(subgroup.name, columns)];
      }
    }
    assert group.subgroups[..|group.subgroups|] == group.subgroups;
  }

  /** The outer loop of the filtering: `filtered_groups`. */
  method FilterGroups(groups: seq<Group>, present: seq<string>) returns (filtered: seq<Group>)
    ensures filtered == FilteredGroups(groups, present)
  {
    filtered := [];
    for g := 0 to |groups|
      invariant filtered == FilteredGroups(groups[..g], present)
    {
      var group := groups[g];
      assert groups[..g + 1][..g] == groups[..g];
      var subgroups := FilterSubgroups(group, present);
      if subgroups != [] {
        filtered := filtered + [Group(group.name, group.color, subgroups)];
      }
    }
    assert groups[..|groups|] == groups;
  }

  /** The header cells whose column is present, in order. */
  function PresentCells(cells: seq<HeaderCell>, present: seq<string>): seq<HeaderCell> {
    if cells == [] then []
    else
      var n := |cells| - 1;
      PresentCells(cells[..n], present) + if cells[n].column in present then [cells[n]] else []
  }

  lemma {:induction false} PresentCellsAppend(a: seq<HeaderCell>, b: seq<HeaderCell>, present: seq<string>)
    ensures PresentCells(a + b, present) == PresentCells(a, present) + PresentCells(b, present)
    decreases |b|
  {
    if b != [] {
      var n := |b| - 1;
      assert (a + b)[..|a + b| - 1] == a + b[..n];
      PresentCellsAppend(a, b[..n], present);
    } else {
      assert a + b == a;
    }
  }

  /** Keeping the present columns of a subgroup keeps exactly their header cells. */
  lemma {:induction false} PresentColumnCells(g: Group, s: Subgroup, g2: Group, s2: Subgroup, columns: seq<Column>, present: seq<string>)
    requires g2.name == g.name && g2.color == g.color && s2.name == s.name
    ensures ColumnCells(g2, s2, PresentColumns(columns, present)) == PresentCells(ColumnCells(g, s, columns), present)
    decreases |columns|
  {
    if columns != [] {
      var n := |columns| - 1;
      var front := PresentColumns(columns[..n], present);
      PresentColumnCells(g, s, g2, s2, columns[..n], present);
      assert ColumnCells(g, s, columns)[..n] == ColumnCells(g, s, columns[..n]);
      if columns[n].name in present {
        assert (front + [columns[n]])[..|front|] == front;
      } else {
        assert front + [] == front;
      }
    }
  }

  lemma {:induction false} PresentSubgroupCells(g: Group, g2: Group, subgroups: seq<Subgroup>, present: seq<string>)
    requires g2.name == g.name && g2.color == g.color
    ensures SubgroupCells(g2, FilteredSubgroups(subgroups, present)) == PresentCells(SubgroupCells(g, subgroups), present)
    decreases |subgroups|
  {
    if subgroups != [] {
      var n := |subgroups| - 1;
      var last := subgroups[n];
      var front := FilteredSubgroups(subgroups[..n], present);
      var kept := PresentColumns(last.columns, present);
      PresentSubgroupCells(g, g2, subgroups[..n], present);
      PresentCellsAppend(SubgroupCells(g, subgroups[..n]), ColumnCells(g, last, last.columns), present);
      var s2 := Subgroup(last.name, kept);
      PresentColumnCells(g, last, g2, s2, last.columns, present);
      if kept != [] {
        assert (front + [s2])[..|front|] == front;
      } else {
        assert front + [] == front;
      }
    }
  }

  /**
   * Filtering the header structure keeps exactly the header cells of the present columns,
   * in the same order and under the same group, subgroup and colour: dropping a column,
   * an emptied subgroup or an emptied group reorders nothing.
   */
  lemma {:induction false} FilteredGroupsKeepPresentCells(groups: seq<Group>, present: seq<string>)
    ensures Cells(FilteredGroups(groups, present)) == PresentCells(Cells(groups), present)
    decreases |groups|
  {
    if groups != [] {
      var n := |groups| - 1;
      var last := groups[n];
      var front := FilteredGroups(groups[..n], present);
      var kept := FilteredSubgroups(last.subgroups, present);
      FilteredGroupsKeepPresentCells(groups[..n], present);
      PresentCellsAppend(Cells(groups[..n]), SubgroupCells(last, last.subgroups), present);
      var g2 := Group(last.name, last.color, kept);
      PresentSubgroupCells(last, g2, last.subgroups, present);
      if kept != [] {
        assert (front + [g2])[..|front|] == front;
      } else {
        assert front + [] == front;
      }
    }
  }

  lemma {:induction false} ProjectPresentCells(cells: seq<HeaderCell>, present: seq<string>)
    ensures Project(PresentCells(cells, present), ColumnLayer) == Keep(Project(cells, ColumnLayer), present)
    decreases |cells|
  {
    if cells != [] {
      var n := |cells| - 1;
      ProjectPresentCells(cells[..n], present);
      var front := PresentCells(cells[..n], present);
      assert Project(cells, ColumnLayer)[..n] == Project(cells[..n], ColumnLayer);
      if cells[n].column in present {
        ProjectSnoc(front, cells[n], ColumnLayer);
      } else {
        assert front + [] == front;
      }
    }
  }

  /** The table shows the display columns that are present, in display order (`all_display_cols`). */
  lemma FilteredColumnsArePresentDisplayColumns(groups: seq<Group>, present: seq<string>)
    ensures DisplayColumns(FilteredGroups(groups, present)) == Keep(DisplayColumns(groups), present)
  {
    FilteredGroupsKeepPresentCells(groups, present);
    ProjectPresentCells(Cells(groups), present);
  }

  /** After filtering no group is left without subgroups and no subgroup without columns. */
  lemma {:induction false} FilteredGroupsAreNonEmpty(groups: seq<Group>, present: seq<string>)
    ensures forall g :: g in FilteredGroups(groups, present) ==>
      && g.subgroups != []
      && forall s :: s in g.subgroups ==> s.columns != [] && forall c :: c in s.columns ==> c.name in present
    decreases |groups|
  {
    if groups != [] {
      var n := |groups| - 1;
      FilteredGroupsAreNonEmpty(groups[..n], present);
      FilteredSubgroupsAreNonEmpty(groups[n].subgroups, present);
    }
  }

  lemma {:induction false} FilteredSubgroupsAreNonEmpty(subgroups: seq<Subgroup>, present: seq<string>)
    ensures forall s :: s in FilteredSubgroups(subgroups, present) ==> s.columns != [] && forall c :: c in s.columns ==> c.name in present
    decreases |subgroups|
  {
    if subgroups != [] {
      var n := |subgroups| - 1;
      FilteredSubgroupsAreNonEmpty(subgroups[..n], present);
      PresentColumnsArePresent(subgroups[n].columns, present);
    }
  }

  lemma {:induction false} PresentColumnsArePresent(columns: seq<Column>, present: seq<string>)
    ensures forall c :: c in PresentColumns(columns, present) ==> c.name in present
    decreases |columns|
  {
    if columns != [] {
      PresentColumnsArePresent(columns[..|columns| - 1], present);
    }
  }

  // ---------------------------------------------------------------------------
  // Column spans of the first two header rows.
  // ---------------------------------------------------------------------------

  /** `sum(len(sg['columns']) for sg in subgroups)`. */
  function Span(subgroups: seq<Subgroup>): nat {
    if subgroups == [] then 0 else Span(subgroups[..|subgroups| - 1]) + |subgroups[|subgroups| - 1].columns|
  }

  /** The sum of the first-row colspans of some groups. */
  function TotalSpan(groups: seq<Group>): nat {
    if groups == [] then 0 else TotalSpan(groups[..|groups| - 1]) + Span(groups[|groups| - 1].subgroups)
  }

  /** A group's first-row colspan is the number of header cells under it. */
  lemma {:induction false} SpanCountsCells(g: Group, subgroups: seq<Subgroup>)
    ensures Span(subgroups) == |SubgroupCells(g, subgroups)|
    decreases |subgroups|
  {
    if subgroups != [] {
      SpanCountsCells(g, subgroups[..|subgroups| - 1]);
    }
  }

  /** The first-row colspans add up to the number of columns of the third row. */
  lemma {:induction false} TotalSpanCountsCells(groups: seq<Group>)
    ensures TotalSpan(groups) == |Cells(groups)|
    decreases |groups|
  {
    if groups != [] {
      TotalSpanCountsCells(groups[..|groups| - 1]);
      SpanCountsCells(groups[|groups| - 1], groups[|groups| - 1].subgroups);
    }
  }

  // ---------------------------------------------------------------------------
  // `format_value_with_class`: which format a cell gets, and whether it is marked negative.
  // ---------------------------------------------------------------------------

  /** A cell of the displayed table: missing (NaN/None), a number, an infinity, or anything else. */
  datatype CellValue = Missing | Number(value: real) | Infinite(negative: bool) | Other(text: string)

  /** How the cell is written: `-`, `{:.2f}`, `{:.2f}%`, `{:,.0f}`, or `str(value)`. */
  datatype Shown = Dash | TwoDecimals | TwoDecimalsPercent | Grouped | AsText(text: string)

  datatype FormattedCell = FormattedCell(shown: Shown, cssClass: string)

  const NegativeClass := "negative-value"

  predicate IsNiftyColumn(col: string) {
    col == "Nifty Spot" || col == "Nifty Diff"
  }

  /** The number format of a column, by its name. */
  function NumberFormat(col: string): (r: Shown)
    ensures r == TwoDecimals <==> Contains(col, "Ratio") || (!Contains(col, "%") && IsNiftyColumn(col))
    ensures r == TwoDecimalsPercent <==> !Contains(col, "Ratio") && Contains(col, "%")
    ensures r == Grouped <==> !Contains(col, "Ratio") && !Contains(col, "%") && !IsNiftyColumn(col)
  {
    if Contains(col, "Ratio") then TwoDecimals
    else if Contains(col, "%") then TwoDecimalsPercent
    else if IsNiftyColumn(col) then TwoDecimals
    else Grouped
  }

  predicate IsNegative(v: CellValue) {
    (v.Number? && v.value < 0.0) || (v.Infinite? && v.negative)
  }

  /**
   * `format_value_with_class(value, col)`: a missing value is `-` with no class; a number
   * takes its column's format and is marked `negative-value` exactly when it is below
   * zero; anything else is written as it is, unmarked.
   */
  function FormatValueWithClass(value: CellValue, col: string): (r: FormattedCell)
    ensures value.Missing? ==> r == FormattedCell(Dash, "")
    ensures r.cssClass == NegativeClass <==> IsNegative(value)
    ensures r.cssClass != NegativeClass ==> r.cssClass == ""
    ensures (value.Number? || value.Infinite?) ==> r.shown == NumberFormat(col)
    ensures value.Other? ==> r.shown == AsText(value.text)
  {
    match value
    case Missing => FormattedCell(Dash, "")
    case Other(text) => FormattedCell(AsText(text), "")
    case _ => FormattedCell(NumberFormat(col), if IsNegative(value) then NegativeClass else "")
  }

  // ---------------------------------------------------------------------------
  // `generate_table_html`: the classes of the data rows.
  // ---------------------------------------------------------------------------

  /**
   * A data row of the displayed table: its formatted date (`%d.%m.%y`), its client type
   * as text, and its cells by column name.
   */
  datatype DisplayRow = DisplayRow(date: string, clientType: string, values: map<string, CellValue>)

  /** A row's classes: `date-group-{dateGroup + 1}`, plus `total-row` when `isTotal`. */
  datatype RowStyle = RowStyle(dateGroup: nat, isTotal: bool)

  /** A `<tr>` of the body: its classes and its formatted `<td>` cells. */
  datatype BodyRow = BodyRow(style: RowStyle, cells: seq<FormattedCell>)

  predicate IsTotalRow(row: DisplayRow) {
    Contains(Upper(row.clientType), "TOTAL")
  }

  /** `row.get(col, '-')`. */
  function ValueAt(row: DisplayRow, col: string): CellValue {
    if col in row.values then row.values[col] else Other("-")
  }

  /**
   * `b` is how row `row` is drawn: it is a total row exactly when the row's upper-cased
   * client type contains `TOTAL`, and it shows the formatted value of each shown column.
   */
  predicate Draws(b: BodyRow, row: DisplayRow, columns: seq<string>) {
    && b.style.dateGroup < 2
    && (b.style.isTotal <==> IsTotalRow(row))
    && |b.cells| == |columns|
    && forall j :: 0 <= j < |columns| ==> b.cells[j] == FormatValueWithClass(ValueAt(row, columns[j]), columns[j])
  }

  /** The `<td>` cells of one row, one per shown column, in column order. */
  method FormatRow(row: DisplayRow, columns: seq<string>) returns (cells: seq<FormattedCell>)
    ensures |cells| == |columns|
    ensures forall j :: 0 <= j < |columns| ==> cells[j] == FormatValueWithClass(ValueAt(row, columns[j]), columns[j])
  {
    cells := [];
    for j := 0 to |columns|
      invariant |cells| == j
      invariant forall k :: 0 <= k < j ==> cells[k] == FormatValueWithClass(ValueAt(row, columns[k]), columns[k])
    {
      var value := ValueAt(row, columns[j]);
      cells := cells + [FormatValueWithClass(value, columns[j])];
    }
  }

  /**
   * The row loop of `generate_table_html`: the date group starts at 0 and flips at every
   * row whose date differs from the previous row's, so the first row is in group 1 and
   * neighbouring rows share a band exactly when they share a date; every row is drawn
   * from its own cells.
   */
  method TableBody(rows: seq<DisplayRow>, columns: seq<string>) returns (body: seq<BodyRow>)
    ensures |body| == |rows|
    ensures forall i :: 0 <= i < |rows| ==> Draws(body[i], rows[i], columns)
    ensures |rows| > 0 ==> body[0].style.dateGroup == 1
    ensures forall i :: 0 < i < |rows| ==> (body[i].style.dateGroup != body[i - 1].style.dateGroup <==> rows[i].date != rows[i - 1].date)
  {
    body := [];
    var prevDate: Option<string> := None;
    var dateGroup: nat := 0;
    for i := 0 to |rows|
      invariant |body| == i && dateGroup < 2
      invariant i == 0 ==> prevDate.None? && dateGroup == 0
      invariant i > 0 ==> prevDate == Some(rows[i - 1].date) && dateGroup == body[i - 1].style.dateGroup
      invariant forall k :: 0 <= k < i ==> Draws(body[k], rows[k], columns)
      invariant i > 0 ==> body[0].style.dateGroup == 1
      invariant forall k :: 0 < k < i ==> (body[k].style.dateGroup != body[k - 1].style.dateGroup <==> rows[k].date != rows[k - 1].date)
    {
      var currentDate := rows[i].date;
      if prevDate != Some(currentDate) {
        dateGroup := 1 - dateGroup;
        prevDate := Some(currentDate);
      }
      var isTotal := Contains(Upper(rows[i].clientType), "TOTAL");
      var cells := FormatRow(rows[i], columns);
      body := body + [BodyRow(RowStyle(dateGroup, isTotal), cells)];
    }
  }

  /** The first-row colspan of every group: the number of columns under it. */
  method GroupSpans(groups: seq<Group>) returns (spans: seq<nat>)
    ensures |spans| == |groups|
    ensures forall g :: 0 <= g < |groups| ==> spans[g] == |SubgroupCells(groups[g], groups[g].subgroups)|
  {
    spans := [];
    for g := 0 to |groups|
      invariant |spans| == g
      invariant forall k :: 0 <= k < g ==> spans[k] == |SubgroupCells(groups[k], groups[k].subgroups)|
    {
      SpanCountsCells(groups[g], groups[g].subgroups);
      spans := spans + [Span(groups[g].subgroups)];
    }
  }

  /** What `generate_table_html` lays out, short of the HTML text. */
  datatype TableLayout = TableLayout(groups: seq<Group>, spans: seq<nat>, columns: seq<string>, body: seq<BodyRow>)

  /**
   * The layout of the HTML table for a table with columns `present` and rows `rows`:
   * the filtered header groups with their first-row colspans, the columns shown, and
   * the classes and cells of every row.
   */
  method GenerateTableLayout(present: seq<string>, rows: seq<DisplayRow>) returns (layout: TableLayout)
    ensures layout.groups == FilteredGroups(HeaderStructure, present)
    ensures layout.columns == Keep(DisplayColumns(HeaderStructure), present)
    ensures |layout.spans| == |layout.groups|
    ensures forall g :: 0 <= g < |layout.groups| ==> layout.spans[g] == |SubgroupCells(layout.groups[g], layout.groups[g].subgroups)|
    ensures |layout.body| == |rows|
    ensures forall i :: 0 <= i < |rows| ==> |layout.body[i].cells| == |layout.columns|
    ensures forall i :: 0 <= i < |rows| ==> Draws(layout.body[i], rows[i], layout.columns)
    ensures |rows| > 0 ==> layout.body[0].style.dateGroup == 1
    ensures forall i :: 0 < i < |rows| ==>
              (layout.body[i].style.dateGroup != layout.body[i - 1].style.dateGroup <==> rows[i].date != rows[i - 1].date)
  {
    var filtered := FilterGroups(HeaderStructure, present);
    var columns := Flatten(filtered, ColumnLayer);
    FilteredColumnsArePresentDisplayColumns(HeaderStructure, present);
    var spans := GroupSpans(filtered);
    var body := TableBody(rows, columns);
    layout := TableLayout(filtered, spans, columns, body);
  }
}
