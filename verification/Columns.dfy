/**
 * Horizontal layout columns of a screen and the split tree projected from them for
 * tree-only clients (model.rs:21-34, 725-828).
 */
module Columns {
  import opened Prelude
  import opened SplitTree

  datatype ViewportColumn = Base | SplitColumn(id: SplitId)

  datatype LayoutColumn =
    LayoutColumn(id: SplitId, width: real, root: Node, zellijAutoLayout: Option<seq<PaneId>>)

  function TotalWidth(columns: seq<LayoutColumn>): real {
    if columns == [] then 0.0 else TotalWidth(columns[..|columns| - 1]) + columns[|columns| - 1].width
  }

  /** The share of the columns so far; a zero total stands for the quotient the program leaves undefined. */
  function Quotient(part: real, whole: real): real {
    if whole == 0.0 then 0.0 else part / whole
  }

  /** Left-nested right splits whose ratios preserve the column proportions. */
  function Projection(columns: seq<LayoutColumn>): Node
    requires |columns| > 0
  {
    var last := |columns| - 1;
    if last == 0 then columns[0].root
    else
      Split(columns[last].id, Right, Quotient(TotalWidth(columns[..last]), TotalWidth(columns)),
            Projection(columns[..last]), columns[last].root)
  }

  /** Widths of every column but the first, by split id. */
  function Marks(columns: seq<LayoutColumn>): (marks: map<SplitId, real>)
    requires |columns| > 0
    ensures forall id :: id in marks <==> exists i :: 1 <= i < |columns| && columns[i].id == id
  {
    var last := |columns| - 1;
    if last == 0 then map[]
    else
      var earlier := Marks(columns[..last]);
      assert forall i :: 1 <= i < last ==> columns[..last][i] == columns[i];
      earlier[columns[last].id := columns[last].width]
  }

  function ColumnPanes(columns: seq<LayoutColumn>): seq<PaneId> {
    if columns == [] then []
    else ColumnPanes(columns[..|columns| - 1]) + PaneIds(columns[|columns| - 1].root)
  }

  function OwnerOf(columns: seq<LayoutColumn>, i: nat): ViewportColumn
    requires i < |columns|
  {
    if i == 0 then Base else SplitColumn(columns[i].id)
  }

  function ViewportColumnOwner(node: Node, target: PaneId, marks: map<SplitId, real>): Option<ViewportColumn> {
    if node.Split? && node.id in marks then
      if Contains(node.b, target) then Some(SplitColumn(node.id))
      else ViewportColumnOwner(node.a, target, marks)
    else if Contains(node, target) then Some(Base)
    else None
  }

  /** The consistency test applied to a screen's fields. */
  ghost predicate ProjectionConsistent(
      columns: seq<LayoutColumn>, root: Node, marks: map<SplitId, real>, baseWidth: Option<real>,
      autoLayout: Option<seq<PaneId>>)
  {
    if columns == [] then marks == map[] && baseWidth.None?
    else
      && |columns| >= 2 && autoLayout.None?
      && baseWidth == Some(columns[0].width)
      && |marks| + 1 == |columns|
      && PaneIds(root) == ColumnPanes(columns)
      && forall i :: 0 <= i < |columns| ==>
           && (i == 0 || (columns[i].id in marks && marks[columns[i].id] == columns[i].width))
           && forall pane :: pane in PaneIds(columns[i].root) ==>
                ViewportColumnOwner(root, pane, marks) == Some(OwnerOf(columns, i))
  }

  lemma NoColumnsConsistent(root: Node, autoLayout: Option<seq<PaneId>>)
    ensures ProjectionConsistent([], root, map[], None, autoLayout)
  {
  }

  /** Distinct column ids, none reused by a split inside a column. */
  ghost predicate IdsSeparate(columns: seq<LayoutColumn>) {
    && (forall i, j :: 0 <= i < j < |columns| ==> columns[i].id != columns[j].id)
    && (forall i, j :: 0 <= i < |columns| && 0 <= j < |columns| ==> !ContainsSplit(columns[j].root, columns[i].id))
  }

  ghost predicate PanesDisjoint(columns: seq<LayoutColumn>) {
    forall i, j, pane :: 0 <= i < j < |columns| && Contains(columns[i].root, pane) ==> !Contains(columns[j].root, pane)
  }

  /** What the projection needs of its columns. */
  ghost predicate WellFormed(columns: seq<LayoutColumn>) {
    IdsSeparate(columns) && PanesDisjoint(columns)
  }

  lemma {:induction false} MarksCount(columns: seq<LayoutColumn>)
    requires |columns| > 0 && IdsSeparate(columns)
    ensures |Marks(columns)| + 1 == |columns|
  {
    var last := |columns| - 1;
    if last > 0 {
      var earlier := columns[..last];
      EarlierSeparate(columns);
      MarksCount(earlier);
      var marks := Marks(columns);
      assert columns[last].id !in Marks(earlier);
      assert marks.Keys == Marks(earlier).Keys + {columns[last].id};
    }
  }

  lemma EarlierSeparate(columns: seq<LayoutColumn>)
    requires |columns| > 1 && IdsSeparate(columns)
    ensures IdsSeparate(columns[..|columns| - 1])
    ensures forall i :: 0 <= i < |columns| - 1 ==>
              columns[..|columns| - 1][i] == columns[i] && columns[i].id != columns[|columns| - 1].id
  {
    hide ContainsSplit;
  }

  lemma {:induction false} MarkOf(columns: seq<LayoutColumn>, i: nat)
    requires IdsSeparate(columns) && 1 <= i < |columns|
    ensures columns[i].id in Marks(columns) && Marks(columns)[columns[i].id] == columns[i].width
  {
    EarlierSeparate(columns);
    if i < |columns| - 1 {
      MarkOf(columns[..|columns| - 1], i);
    }
  }

  lemma MarksOfDistinct(columns: seq<LayoutColumn>)
    requires |columns| > 0 && IdsSeparate(columns)
    ensures |Marks(columns)| + 1 == |columns|
    ensures forall i :: 1 <= i < |columns| ==>
              columns[i].id in Marks(columns) && Marks(columns)[columns[i].id] == columns[i].width
  {
    hide Marks, IdsSeparate;
    MarksCount(columns);
    forall i | 1 <= i < |columns|
      ensures columns[i].id in Marks(columns) && Marks(columns)[columns[i].id] == columns[i].width
    {
      MarkOf(columns, i);
    }
  }

  lemma {:induction false} ProjectionPanes(columns: seq<LayoutColumn>)
    requires |columns| > 0
    ensures PaneIds(Projection(columns)) == ColumnPanes(columns)
  {
    var last := |columns| - 1;
    if last == 0 {
      assert ColumnPanes(columns[..0]) == [];
    } else {
      ProjectionPanes(columns[..last]);
    }
  }

  /** The owner search through the projection finds the column that holds the pane. */
  lemma {:induction false} OwnerThroughProjection(
      columns: seq<LayoutColumn>, marks: map<SplitId, real>, i: nat, pane: PaneId)
    requires i < |columns| && PanesDisjoint(columns) && Contains(columns[i].root, pane)
    requires forall k :: 1 <= k < |columns| ==> columns[k].id in marks
    requires columns[0].root.Split? ==> columns[0].root.id !in marks
    ensures ViewportColumnOwner(Projection(columns), pane, marks) == Some(OwnerOf(columns, i))
  {
    var last := |columns| - 1;
    if last > 0 && i < last {
      assert !Contains(columns[last].root, pane);
      var earlier := columns[..last];
      assert forall k :: 0 <= k < last ==> earlier[k] == columns[k];
      OwnerThroughProjection(earlier, marks, i, pane);
    }
  }

  /** Projecting two or more well-formed columns passes the consistency test. */
  lemma {:induction false} ProjectionIsConsistent(columns: seq<LayoutColumn>)
    requires |columns| >= 2 && WellFormed(columns)
    ensures ProjectionConsistent(columns, Projection(columns), Marks(columns), Some(columns[0].width), None)
  {
    MarksOfDistinct(columns);
    ProjectionPanes(columns);
    forall i, pane | 0 <= i < |columns| && pane in PaneIds(columns[i].root)
      ensures ViewportColumnOwner(Projection(columns), pane, Marks(columns)) == Some(OwnerOf(columns, i))
    {
      assert Contains(columns[i].root, pane);
      if columns[0].root.Split? {
        assert ContainsSplit(columns[0].root, columns[0].root.id);
      }
      OwnerThroughProjection(columns, Marks(columns), i, pane);
    }
  }

  /** First column that holds a pane. */
  function ColumnIndex(columns: seq<LayoutColumn>, target: PaneId): (index: Option<nat>)
    ensures index.Some? ==> index.value < |columns| && Contains(columns[index.value].root, target)
    ensures index.None? ==> forall i :: 0 <= i < |columns| ==> !Contains(columns[i].root, target)
  {
    if columns == [] then None
    else if Contains(columns[0].root, target) then Some(0)
    else
      var rest := ColumnIndex(columns[1..], target);
      if rest.None? then
        assert forall i :: 1 <= i < |columns| ==> columns[i] == columns[1..][i - 1];
        None
      else Some(rest.value + 1)
  }

  function InsertColumn(columns: seq<LayoutColumn>, index: nat, column: LayoutColumn): seq<LayoutColumn>
    requires index < |columns|
  {
    columns[..index + 1] + [column] + columns[index + 1..]
  }

  /** A column whose panes, id and split ids are all new to the screen. */
  ghost predicate FreshColumn(columns: seq<LayoutColumn>, column: LayoutColumn) {
    && !ContainsSplit(column.root, column.id)
    && forall i :: 0 <= i < |columns| ==>
         && columns[i].id != column.id
         && !ContainsSplit(columns[i].root, column.id)
         && !ContainsSplit(column.root, columns[i].id)
         && forall pane :: Contains(column.root, pane) ==> !Contains(columns[i].root, pane)
  }

  /** Where the column at a position of the widened list comes from; -1 is the new column. */
  function InsertedFrom(index: nat, i: nat): int {
    if i <= index then i else if i == index + 1 then -1 else i - 1
  }

  lemma InsertColumnAt(columns: seq<LayoutColumn>, index: nat, column: LayoutColumn, i: nat)
    requires index < |columns| && i <= |columns|
    ensures |InsertColumn(columns, index, column)| == |columns| + 1
    ensures var from := InsertedFrom(index, i);
            && -1 <= from < |columns|
            && InsertColumn(columns, index, column)[i] == if from == -1 then column else columns[from]
  {
  }

  lemma InsertKeepsWellFormed(columns: seq<LayoutColumn>, index: nat, column: LayoutColumn)
    requires index < |columns| && WellFormed(columns) && FreshColumn(columns, column)
    ensures WellFormed(InsertColumn(columns, index, column))
  {
    var inserted := InsertColumn(columns, index, column);
    forall i, j | 0 <= i < |inserted| && 0 <= j < |inserted|
      ensures i < j ==> inserted[i].id != inserted[j].id
      ensures !ContainsSplit(inserted[j].root, inserted[i].id)
      ensures forall pane :: i < j && Contains(inserted[i].root, pane) ==> !Contains(inserted[j].root, pane)
    {
      InsertColumnAt(columns, index, column, i);
      InsertColumnAt(columns, index, column, j);
    }
  }

  function RemoveColumn(columns: seq<LayoutColumn>, index: nat): seq<LayoutColumn>
    requires index < |columns|
  {
    columns[..index] + columns[index + 1..]
  }

  lemma RemovalKeepsWellFormed(columns: seq<LayoutColumn>, index: nat)
    requires index < |columns| && WellFormed(columns)
    ensures WellFormed(RemoveColumn(columns, index))
  {
    var kept := RemoveColumn(columns, index);
    forall i | 0 <= i < |kept| ensures kept[i] == columns[if i < index then i else i + 1] {}
  }

  class Screen {
    var root: Node
    var zellijAutoLayout: Option<seq<PaneId>>
    var viewportSplits: map<SplitId, real>
    var viewportBaseWidth: Option<real>
    var layoutColumns: seq<LayoutColumn>

    constructor (tree: Node, autoLayout: Option<seq<PaneId>>)
      ensures root == tree && zellijAutoLayout == autoLayout && layoutColumns == []
      ensures IsConsistent()
    {
      root, zellijAutoLayout := tree, autoLayout;
      viewportSplits, viewportBaseWidth, layoutColumns := map[], None, [];
    }

    ghost predicate IsConsistent()
      reads this
    {
      ProjectionConsistent(layoutColumns, root, viewportSplits, viewportBaseWidth, zellijAutoLayout)
    }

    /** The derived fields hold exactly the projection of the columns. */
    ghost predicate Synced()
      reads this
    {
      && |layoutColumns| > 0
      && root == Projection(layoutColumns)
      && viewportSplits == Marks(layoutColumns)
      && viewportBaseWidth == Some(layoutColumns[0].width)
      && zellijAutoLayout.None?
    }

    method SyncLayoutColumnProjection()
      modifies this
      ensures layoutColumns == old(layoutColumns)
      ensures layoutColumns != [] ==> Synced()
      ensures layoutColumns == [] ==>
                root == old(root) && zellijAutoLayout == old(zellijAutoLayout) && IsConsistent()
      ensures |layoutColumns| >= 2 && WellFormed(layoutColumns) ==> IsConsistent()
    {
      hide WellFormed, ProjectionConsistent;
      if layoutColumns == [] {
        viewportSplits, viewportBaseWidth := map[], None;
        NoColumnsConsistent(root, zellijAutoLayout);
        return;
      }
      var first := layoutColumns[0];
      viewportSplits, viewportBaseWidth, zellijAutoLayout := map[], Some(first.width), None;
      var tree := first.root;
      var widthBefore := first.width;
      var i := 1;
      assert layoutColumns[..1] == [first] && TotalWidth([first][..0]) == 0.0;
      while i < |layoutColumns|
        invariant 1 <= i <= |layoutColumns|
        invariant layoutColumns == old(layoutColumns)
        invariant tree == Projection(layoutColumns[..i])
        invariant widthBefore == TotalWidth(layoutColumns[..i])
        invariant viewportSplits == Marks(layoutColumns[..i])
        invariant viewportBaseWidth == Some(first.width) && zellijAutoLayout.None?
      {
        var column := layoutColumns[i];
        assert layoutColumns[..i + 1][..i] == layoutColumns[..i];
        var ratio := Quotient(widthBefore, widthBefore + column.width);
        tree := Split(column.id, Right, ratio, tree, column.root);
        viewportSplits := viewportSplits[column.id := column.width];
        widthBefore := widthBefore + column.width;
        i := i + 1;
      }
      assert layoutColumns[..i] == layoutColumns;
      root := tree;
      if |layoutColumns| >= 2 && WellFormed(layoutColumns) {
        ProjectionIsConsistent(layoutColumns);
      }
    }

    /** The columns an insertion starts from: the current ones, or the whole tree as one base column. */
    ghost function ColumnsBefore(baseId: SplitId): seq<LayoutColumn>
      reads this
    {
      if layoutColumns != [] then layoutColumns
      else
        var width := if viewportBaseWidth.Some? then viewportBaseWidth.value else 1.0;
        [LayoutColumn(baseId, width, root, zellijAutoLayout)]
    }

    method InsertLayoutColumnAfter(target: PaneId, baseId: SplitId, column: LayoutColumn) returns (ok: bool)
      modifies this
      ensures ok <==> ColumnIndex(old(ColumnsBefore(baseId)), target).Some?
      ensures !ok ==> unchanged(this)
      ensures ok ==>
                && layoutColumns == InsertColumn(old(ColumnsBefore(baseId)),
                                                 ColumnIndex(old(ColumnsBefore(baseId)), target).value, column)
                && Synced()
      ensures ok && old(layoutColumns) == [] ==>
                var width := if old(viewportBaseWidth).Some? then old(viewportBaseWidth).value else 1.0;
                layoutColumns == [LayoutColumn(baseId, width, old(root), old(zellijAutoLayout)), column]
      ensures ok && WellFormed(old(ColumnsBefore(baseId))) && FreshColumn(old(ColumnsBefore(baseId)), column) ==>
                WellFormed(layoutColumns) && IsConsistent()
    {
      if layoutColumns == [] {
        if !Contains(root, target) {
          return false;
        }
        var width := if viewportBaseWidth.Some? then viewportBaseWidth.value else 1.0;
        layoutColumns := [LayoutColumn(baseId, width, root, zellijAutoLayout)];
        zellijAutoLayout := None;
      }
      ghost var before := layoutColumns;
      assert before == old(ColumnsBefore(baseId));
      var index := ColumnIndex(layoutColumns, target);
      if index.None? {
        return false;
      }
      layoutColumns := InsertColumn(layoutColumns, index.value, column);
      if WellFormed(before) && FreshColumn(before, column) {
        InsertKeepsWellFormed(before, index.value, column);
      }
      SyncLayoutColumnProjection();
      ok := true;
    }

    method CollapseSingleLayoutColumn()
      modifies this
      ensures |old(layoutColumns)| == 1 ==>
                && layoutColumns == [] && IsConsistent()
                && root == old(layoutColumns)[0].root
                && zellijAutoLayout == old(layoutColumns)[0].zellijAutoLayout
      ensures |old(layoutColumns)| != 1 ==>
                && layoutColumns == old(layoutColumns)
                && (layoutColumns != [] ==> Synced())
                && (WellFormed(layoutColumns) ==> IsConsistent())
    {
      if |layoutColumns| != 1 {
        SyncLayoutColumnProjection();
        return;
      }
      var column := layoutColumns[0];
      layoutColumns := [];
      root, zellijAutoLayout := column.root, column.zellijAutoLayout;
      viewportSplits, viewportBaseWidth := map[], None;
    }

    /** Closing the last pane of a column removes the column and collapses a remaining single one. */
    method DropColumn(index: nat)
      requires index < |layoutColumns| && |layoutColumns| > 1
      modifies this
      ensures var kept := RemoveColumn(old(layoutColumns), index);
              if |kept| == 1 then
                && layoutColumns == [] && root == kept[0].root && zellijAutoLayout == kept[0].zellijAutoLayout
                && IsConsistent()
              else
                && layoutColumns == kept && Synced()
                && (old(WellFormed(layoutColumns)) ==> WellFormed(layoutColumns) && IsConsistent())
    {
      if WellFormed(layoutColumns) {
        RemovalKeepsWellFormed(layoutColumns, index);
      }
      layoutColumns := RemoveColumn(layoutColumns, index);
      CollapseSingleLayoutColumn();
    }

    /** Inserting a first column and dropping it again restores the tree, its auto-layout order and the
        empty projection state. */
    method InsertThenDrop(target: PaneId, baseId: SplitId, column: LayoutColumn)
      requires layoutColumns == [] && IsConsistent() && Contains(root, target)
      modifies this
      ensures root == old(root) && zellijAutoLayout == old(zellijAutoLayout)
      ensures layoutColumns == [] && viewportSplits == map[] && viewportBaseWidth.None?
    {
      var ok := InsertLayoutColumnAfter(target, baseId, column);
      assert RemoveColumn(layoutColumns, 1) == old(ColumnsBefore(baseId));
      DropColumn(1);
    }
  }

  // ----- Proportions carried by the nested ratios -----

  /** Fraction of the width each of the `count` columns on the left spine receives. */
  function SpineShares(node: Node, count: nat): (shares: seq<real>)
    requires count > 0
    ensures |shares| == count
  {
    if count == 1 || !node.Split? then seq(count, _ => 1.0)
    else
      var left := SpineShares(node.a, count - 1);
      seq(count - 1, i requires 0 <= i < count - 1 => node.ratio * left[i]) + [1.0 - node.ratio]
  }

  lemma {:induction false} TotalWidthPositive(columns: seq<LayoutColumn>)
    requires forall i :: 0 <= i < |columns| ==> columns[i].width > 0.0
    ensures columns != [] ==> TotalWidth(columns) > 0.0
    ensures TotalWidth(columns) >= 0.0
  {
    if columns != [] {
      TotalWidthPositive(columns[..|columns| - 1]);
    }
  }

  lemma CancelRight(a: real, b: real)
    requires b != 0.0
    ensures (a * b) / b == a
  {
  }

  lemma ScaleShare(before: real, total: real, width: real)
    requires before > 0.0 && total > 0.0
    ensures (before / total) * (width / before) == width / total
  {
    var p, q := before / total, width / before;
    assert p * q * total == q * (p * total) == q * before == width;
    CancelRight(p * q, total);
  }

  lemma Complement(before: real, total: real)
    requires total > 0.0
    ensures 1.0 - before / total == (total - before) / total
  {
    var p := before / total;
    var q, rest := 1.0 - p, total - before;
    assert p * total == before;
    assert q * total == rest;
    CancelRight(q, total);
    assert (q * total) / total == rest / total;
  }

  /** Shares below one division of the spine. */
  lemma SplitShares(node: Node, count: nat, i: nat)
    requires node.Split? && count >= 2 && i < count
    ensures SpineShares(node, count)[i]
            == if i == count - 1 then 1.0 - node.ratio else node.ratio * SpineShares(node.a, count - 1)[i]
  {
  }

  /** The outermost division of the projection parts the last column from the others. */
  lemma OutermostDivision(columns: seq<LayoutColumn>)
    requires |columns| >= 2
    ensures Projection(columns).Split?
    ensures Projection(columns).ratio == Quotient(TotalWidth(columns[..|columns| - 1]), TotalWidth(columns))
    ensures Projection(columns).a == Projection(columns[..|columns| - 1])
  {
    hide TotalWidth, Quotient;
  }

  lemma WholeShare(width: real)
    requires width > 0.0
    ensures width / width == 1.0
  {
  }

  /** In exact arithmetic the nested ratios give column i exactly its share of the total width. */
  lemma {:induction false} ProjectionPreservesProportions(columns: seq<LayoutColumn>, i: nat)
    requires i < |columns| && forall k :: 0 <= k < |columns| ==> columns[k].width > 0.0
    ensures TotalWidth(columns) > 0.0
    ensures SpineShares(Projection(columns), |columns|)[i] == columns[i].width / TotalWidth(columns)
  {
    hide SpineShares, Projection;
    var last := |columns| - 1;
    var earlier := columns[..last];
    TotalWidthPositive(columns);
    TotalWidthPositive(earlier);
    var (part, whole) := (TotalWidth(earlier), TotalWidth(columns));
    if last == 0 {
      OnlyShare(columns);
      WholeShare(whole);
    } else {
      OutermostDivision(columns);
      SplitShares(Projection(columns), |columns|, i);
      if i < last {
        ProjectionPreservesProportions(earlier, i);
        ScaleShare(part, whole, columns[i].width);
      } else {
        Complement(part, whole);
      }
    }
  }

  lemma OnlyShare(columns: seq<LayoutColumn>)
    requires |columns| == 1
    ensures SpineShares(Projection(columns), 1)[0] == 1.0 && TotalWidth(columns) == columns[0].width
  {
    assert columns[..0] == [];
  }
}
