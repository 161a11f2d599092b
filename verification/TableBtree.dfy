/** Reading rowid tables from SQLite B-trees (section 1.6 of the SQLite Database File Format): the full
    scan, the point lookup, and when they agree. */
module TableBtree {
  import opened Common
  import opened Values

  type u64 = x: int | 0 <= x < 0x1_0000_0000_0000_0000

  datatype Cell = Cell(rowId: u64, row: Row)

  /** An interior cell: its child page and its key, each of which may fail to decode. */
  datatype Pivot = Pivot(child: Result<nat>, key: Result<u64>)

  /** A decoded page of a table B-tree; row ids and keys are the unsigned 64-bit values of the varints. */
  datatype Node =
    | LeafTable(cells: seq<Result<Cell>>)
    | InteriorTable(pivots: seq<Pivot>, rightmost: nat)
    | OtherPage

  /** The pages that can be read and decoded. */
  type Pages = map<nat, Node>

  /** Child links go down in rank: there is no cycle, on which the readers would not end. */
  ghost predicate Ranked(pages: Pages, rank: nat -> nat) {
    forall p {:trigger pages[p]} :: p in pages && pages[p].InteriorTable? ==> Below(pages[p], rank, rank(p))
  }

  ghost predicate Below(node: Node, rank: nat -> nat, r: nat)
    requires node.InteriorTable?
  {
    rank(node.rightmost) < r && forall i :: 0 <= i < |node.pivots| && node.pivots[i].child.Ok? ==>
        rank(node.pivots[i].child.value) < r
  }

  // ----- Scanning ----------------------------------------------------------

  /** The leaf reader decodes every cell or fails. */
  function AllCells(cells: seq<Result<Cell>>): (r: Result<seq<Cell>>)
    ensures r.Ok? <==> forall i :: 0 <= i < |cells| ==> cells[i].Ok?
    ensures r.Ok? ==> |r.value| == |cells| && forall i :: 0 <= i < |cells| ==> r.value[i] == cells[i].value
  {
    if cells == [] then Ok([])
    else if cells[0].Err? then Err(cells[0].error)
    else match AllCells(cells[1..])
      case Err(e) => Err(e)
      case Ok(rest) => Ok([cells[0].value] + rest)
  }

  /** The child pages of an interior page from pivot `i` on, the rightmost last. */
  function Children(node: Node, i: nat): (r: Result<seq<nat>>)
    requires node.InteriorTable? && i <= |node.pivots|
    ensures r.Ok? <==> forall j :: i <= j < |node.pivots| ==> node.pivots[j].child.Ok?
    ensures r.Ok? ==> |r.value| == |node.pivots| - i + 1 && r.value[|node.pivots| - i] == node.rightmost
    ensures r.Ok? ==> forall j :: i <= j < |node.pivots| ==> r.value[j - i] == node.pivots[j].child.value
    decreases |node.pivots| - i
  {
    if i == |node.pivots| then Ok([node.rightmost])
    else if node.pivots[i].child.Err? then Err(node.pivots[i].child.error)
    else match Children(node, i + 1)
      case Err(e) => Err(e)
      case Ok(rest) => Ok([node.pivots[i].child.value] + rest)
  }

  lemma ChildrenBelow(node: Node, rank: nat -> nat, r: nat)
    requires node.InteriorTable? && Below(node, rank, r) && Children(node, 0).Ok?
    ensures forall i :: 0 <= i < |Children(node, 0).value| ==> rank(Children(node, 0).value[i]) < r
  {
    var children := Children(node, 0).value;
    forall i | 0 <= i < |children| ensures rank(children[i]) < r {
      if i < |node.pivots| { assert children[i - 0] == node.pivots[i].child.value; }
    }
  }

  /** `scan_table_page`. */
  ghost function ScanPage(pages: Pages, rank: nat -> nat, p: nat): Result<seq<Cell>>
    requires Ranked(pages, rank)
    decreases rank(p), 0
  {
    if p !in pages then Err(Malformed)
    else match pages[p]
      case LeafTable(cells) => AllCells(cells)
      case OtherPage => Err(Malformed)
      case InteriorTable(_, _) =>
        assert Below(pages[p], rank, rank(p));
        (match Children(pages[p], 0)
         case Err(e) => Err(e)
         case Ok(children) => ChildrenBelow(pages[p], rank, rank(p)); ScanPages(pages, rank, children, rank(p)))
  }

  ghost function ScanPages(pages: Pages, rank: nat -> nat, children: seq<nat>, limit: nat): Result<seq<Cell>>
    requires Ranked(pages, rank) && forall i :: 0 <= i < |children| ==> rank(children[i]) < limit
    decreases limit, 0, |children|
  {
    if children == [] then Ok([])
    else match (ScanPage(pages, rank, children[0]), ScanPages(pages, rank, children[1..], limit))
      case (Err(e), _) => Err(e)
      case (_, Err(e)) => Err(e)
      case (Ok(first), Ok(rest)) => Ok(first + rest)
  }

  /** The vector the scan pushes rows into. */
  class RowList {
    var rows: seq<Cell>

    constructor ()
      ensures rows == []
    {
      rows := [];
    }
  }

  method ScanTablePage(pages: Pages, ghost rank: nat -> nat, p: nat, out: RowList) returns (ok: bool)
    requires Ranked(pages, rank)
    modifies out
    ensures ok == ScanPage(pages, rank, p).Ok?
    ensures ok ==> out.rows == old(out.rows) + ScanPage(pages, rank, p).value
    decreases rank(p), 1
  {
    if p !in pages {
      return false;
    }
    var node := pages[p];
    match node
    case LeafTable(cells) =>
      var decoded := AllCells(cells);
      ok := decoded.Ok?;
      if ok { out.rows := out.rows + decoded.value; }
    case OtherPage => ok := false;
    case InteriorTable(_, _) =>
      assert Below(pages[p], rank, rank(p));
      var children := Children(node, 0);
      if children.Err? {
        return false;
      }
      ChildrenBelow(node, rank, rank(p));
      ok := ScanChildren(pages, rank, children.value, rank(p), out);
  }

  /** The loop over an interior page's children. */
  method ScanChildren(pages: Pages, ghost rank: nat -> nat, list: seq<nat>, ghost limit: nat, out: RowList)
      returns (ok: bool)
    requires Ranked(pages, rank) && forall i :: 0 <= i < |list| ==> rank(list[i]) < limit
    modifies out
    ensures ok == ScanPages(pages, rank, list, limit).Ok?
    ensures ok ==> out.rows == old(out.rows) + ScanPages(pages, rank, list, limit).value
    decreases limit, 0
  {
    ghost var before, all := out.rows, ScanPages(pages, rank, list, limit);
    assert list[0..] == list;
    for i := 0 to |list|
      invariant all.Ok? == ScanPages(pages, rank, list[i..], limit).Ok?
      invariant all.Ok? ==> before + all.value == out.rows + ScanPages(pages, rank, list[i..], limit).value
    {
      assert list[i..][0] == list[i] && list[i..][1..] == list[i + 1..];
      ok := ScanTablePage(pages, rank, list[i], out);
      if !ok {
        return;
      }
    }
    ok := true;
  }

  // ----- Looking one row up ------------------------------------------------

  function FindCell(cells: seq<Cell>, rowId: u64): Option<Row> {
    if cells == [] then None else if cells[0].rowId == rowId then Some(cells[0].row) else FindCell(cells[1..], rowId)
  }

  /** `get_table_row_from_page`: keys and row ids compare as unsigned numbers. */
  ghost function GetRow(pages: Pages, rank: nat -> nat, p: nat, rowId: u64): Result<Option<Row>>
    requires Ranked(pages, rank)
    decreases rank(p), 0
  {
    if p !in pages then Err(Malformed)
    else match pages[p]
      case LeafTable(cells) => (match AllCells(cells) case Err(e) => Err(e) case Ok(cs) => Ok(FindCell(cs, rowId)))
      case OtherPage => Err(Malformed)
      case InteriorTable(_, _) =>
        assert Below(pages[p], rank, rank(p));
        (match ChildFor(pages[p], rowId, 0)
         case Err(e) => Err(e)
         case Ok(child) => GetRow(pages, rank, child, rowId))
  }

  /** The child a lookup descends into: that of the first key not below the row id. */
  function ChildFor(node: Node, rowId: u64, i: nat): (r: Result<nat>)
    requires node.InteriorTable? && i <= |node.pivots|
    ensures r.Ok? ==> r.value == node.rightmost || exists j ::
            i <= j < |node.pivots| && node.pivots[j].child == Ok(r.value)
    decreases |node.pivots| - i
  {
    if i == |node.pivots| then Ok(node.rightmost)
    else if node.pivots[i].child.Err? then node.pivots[i].child
    else if node.pivots[i].key.Err? then Err(node.pivots[i].key.error)
    else if rowId <= node.pivots[i].key.value then node.pivots[i].child
    else ChildFor(node, rowId, i + 1)
  }

  method GetTableRow(pages: Pages, ghost rank: nat -> nat, p: nat, rowId: u64) returns (r: Result<Option<Row>>)
    requires Ranked(pages, rank)
    ensures r == GetRow(pages, rank, p, rowId)
    decreases rank(p)
  {
    if p !in pages {
      return Err(Malformed);
    }
    var node := pages[p];
    match node
    case LeafTable(cells) =>
      var decoded := AllCells(cells);
      if decoded.Err? {
        return Err(decoded.error);
      }
      var cs := decoded.value;
      assert cs[0..] == cs;
      for i := 0 to |cs|
        invariant FindCell(cs, rowId) == FindCell(cs[i..], rowId)
      {
        assert cs[i..][1..] == cs[i + 1..];
        if cs[i].rowId == rowId {
          return Ok(Some(cs[i].row));
        }
      }
      r := Ok(None);
    case OtherPage => r := Err(Malformed);
    case InteriorTable(pivots, rightmost) =>
      assert Below(pages[p], rank, rank(p));
      for i := 0 to |pivots|
        invariant ChildFor(node, rowId, 0) == ChildFor(node, rowId, i)
      {
        if pivots[i].child.Err? {
          return Err(pivots[i].child.error);
        }
        if pivots[i].key.Err? {
          return Err(pivots[i].key.error);
        }
        if rowId <= pivots[i].key.value {
          r := GetTableRow(pages, rank, pivots[i].child.value, rowId);
          return;
        }
      }
      r := GetTableRow(pages, rank, rightmost, rowId);
  }

  // ----- Well-formed trees -------------------------------------------------

  /** A row id as the format means it: a two's-complement 64-bit integer. */
  function Signed(rowId: u64): int { if rowId <= MAX_I64 then rowId else rowId - 0x1_0000_0000_0000_0000 }

  ghost predicate AscendingIn(cells: seq<Cell>, lo: int, hi: int) {
    && (forall i :: 0 <= i < |cells| ==> lo < Signed(cells[i].rowId) <= hi)
    && (forall i, j :: 0 <= i < j < |cells| ==> Signed(cells[i].rowId) < Signed(cells[j].rowId))
  }

  /** The subtree at a page holds row ids in (lo, hi], in the signed order of the format: a leaf's
      ascend, and an interior page's keys separate its children. */
  ghost predicate WellFormed(pages: Pages, rank: nat -> nat, p: nat, lo: int, hi: int)
    requires Ranked(pages, rank)
    decreases rank(p), 0
  {
    p in pages &&
    match pages[p]
    case LeafTable(cells) => AllCells(cells).Ok? && AscendingIn(AllCells(cells).value, lo, hi)
    case OtherPage => false
    case InteriorTable(pivots, _) =>
      assert Below(pages[p], rank, rank(p));
      WellFormedFrom(pages, rank, pages[p], rank(p), 0, lo, hi)
  }

  ghost predicate WellFormedFrom(pages: Pages, rank: nat -> nat, node: Node, limit: nat, i: nat, lo: int, hi: int)
    requires Ranked(pages, rank) && node.InteriorTable? && Below(node, rank, limit) && i <= |node.pivots|
    decreases limit, 0, |node.pivots| - i
  {
    if i == |node.pivots| then lo <= hi && WellFormed(pages, rank, node.rightmost, lo, hi)
    else
      var pivot := node.pivots[i];
      && pivot.child.Ok? && pivot.key.Ok?
      && lo <= Signed(pivot.key.value) <= hi
      && WellFormed(pages, rank, pivot.child.value, lo, Signed(pivot.key.value))
      && WellFormedFrom(pages, rank, node, limit, i + 1, Signed(pivot.key.value), hi)
  }
}
