/** Point lookups against full scans on well-formed table B-trees. */
module TableBtreeReads {
  import opened Common
  import opened Values
  import opened TableBtree

  // ----- Scans ascend ------------------------------------------------------

  lemma AscendingConcat(a: seq<Cell>, b: seq<Cell>, lo: int, mid: int, hi: int)
    requires AscendingIn(a, lo, mid) && AscendingIn(b, mid, hi) && lo <= mid <= hi
    ensures AscendingIn(a + b, lo, hi)
  {
  }

  /** The full scan of a well-formed tree succeeds and lists its rows by strictly ascending row id. */
  lemma {:induction false} ScanAscends(pages: Pages, rank: nat -> nat, p: nat, lo: int, hi: int)
    requires Ranked(pages, rank) && WellFormed(pages, rank, p, lo, hi)
    ensures ScanPage(pages, rank, p).Ok? && AscendingIn(ScanPage(pages, rank, p).value, lo, hi)
    decreases rank(p), 0
  {
    if pages[p].InteriorTable? {
      var node := pages[p];
      assert Below(node, rank, rank(p));
      ScanFromAscends(pages, rank, node, rank(p), 0, lo, hi);
      ChildrenBelow(node, rank, rank(p));
    }
  }

  /** The rows below pivot `i` and everything after it. */
  ghost function RowsFrom(pages: Pages, rank: nat -> nat, node: Node, limit: nat, i: nat): Result<seq<Cell>>
    requires Ranked(pages, rank) && node.InteriorTable? && Below(node, rank, limit) && i <= |node.pivots|
  {
    match Children(node, i)
    case Err(e) => Err(e)
    case Ok(children) => ChildrenFromBelow(node, rank, limit, i); ScanPages(pages, rank, children, limit)
  }

  lemma ChildrenFromBelow(node: Node, rank: nat -> nat, limit: nat, i: nat)
    requires node.InteriorTable? && Below(node, rank, limit) && i <= |node.pivots| && Children(node, i).Ok?
    ensures forall k :: 0 <= k < |Children(node, i).value| ==> rank(Children(node, i).value[k]) < limit
  {
    var children := Children(node, i).value;
    forall k | 0 <= k < |children| ensures rank(children[k]) < limit {
      if k < |node.pivots| - i { assert children[(i + k) - i] == node.pivots[i + k].child.value; }
    }
  }

  lemma RowsFromStep(pages: Pages, rank: nat -> nat, node: Node, limit: nat, i: nat)
    requires Ranked(pages, rank) && node.InteriorTable? && Below(node, rank, limit) && i < |node.pivots|
    requires node.pivots[i].child.Ok? && RowsFrom(pages, rank, node, limit, i + 1).Ok?
    requires ScanPage(pages, rank, node.pivots[i].child.value).Ok?
    ensures RowsFrom(pages, rank, node, limit, i)
            == Ok(ScanPage(pages, rank, node.pivots[i].child.value).value +
                RowsFrom(pages, rank, node, limit, i + 1).value)
  {
    var children := Children(node, i).value;
    assert children == [node.pivots[i].child.value] + Children(node, i + 1).value;
    assert children[1..] == Children(node, i + 1).value;
  }

  lemma RowsFromEnd(pages: Pages, rank: nat -> nat, node: Node, limit: nat)
    requires Ranked(pages, rank) && node.InteriorTable? && Below(node, rank, limit) &&
             ScanPage(pages, rank, node.rightmost).Ok?
    ensures RowsFrom(pages, rank, node, limit, |node.pivots|) == ScanPage(pages, rank, node.rightmost)
  {
    var rows := ScanPage(pages, rank, node.rightmost).value;
    assert Children(node, |node.pivots|) == Ok([node.rightmost]);
    assert [node.rightmost][1..] == [];
    assert rows + [] == rows;
    assert ScanPages(pages, rank, [], limit) == Ok([]);
  }

  lemma {:induction false} ScanFromAscends(pages: Pages, rank: nat -> nat, node: Node, limit: nat, i: nat, lo: int,
      hi: int)
    requires Ranked(pages, rank) && node.InteriorTable? && Below(node, rank, limit) && i <= |node.pivots|
    requires WellFormedFrom(pages, rank, node, limit, i, lo, hi)
    ensures RowsFrom(pages, rank, node, limit, i).Ok? &&
            AscendingIn(RowsFrom(pages, rank, node, limit, i).value, lo, hi)
    decreases limit, 0, |node.pivots| - i
  {
    if i == |node.pivots| {
      ScanAscends(pages, rank, node.rightmost, lo, hi);
      RowsFromEnd(pages, rank, node, limit);
    } else {
      var child, key := node.pivots[i].child.value, Signed(node.pivots[i].key.value);
      ScanAscends(pages, rank, child, lo, key);
      ScanFromAscends(pages, rank, node, limit, i + 1, key, hi);
      RowsFromStep(pages, rank, node, limit, i);
      AscendingConcat(ScanPage(pages, rank, child).value, RowsFrom(pages, rank, node, limit, i + 1).value, lo, key, hi);
    }
  }

  // ----- Lookups -----------------------------------------------------------

  ghost predicate Holds(cells: seq<Cell>, rowId: u64) { exists i :: 0 <= i < |cells| && cells[i].rowId == rowId }

  lemma {:induction false} FindCellIff(cells: seq<Cell>, rowId: u64)
    ensures FindCell(cells, rowId).Some? <==> Holds(cells, rowId)
  {
    if cells != [] {
      FindCellIff(cells[1..], rowId);
      if Holds(cells, rowId) && cells[0].rowId != rowId {
        var i :| 0 <= i < |cells| && cells[i].rowId == rowId;
        assert cells[1..][i - 1].rowId == rowId;
      }
      if Holds(cells[1..], rowId) {
        var i :| 0 <= i < |cells[1..]| && cells[1..][i].rowId == rowId;
        assert cells[i + 1].rowId == rowId;
      }
    }
  }

  lemma {:induction false} FindCellConcat(a: seq<Cell>, b: seq<Cell>, rowId: u64)
    ensures FindCell(a + b, rowId) == if Holds(a, rowId) then FindCell(a, rowId) else FindCell(b, rowId)
  {
    if a == [] {
      assert a + b == b;
    } else {
      assert (a + b)[1..] == a[1..] + b;
      FindCellConcat(a[1..], b, rowId);
      FindCellIff(a, rowId);
      FindCellIff(a[1..], rowId);
    }
  }

  /** The child a lookup would descend into if keys compared as the format's signed integers. */
  function SignedChild(node: Node, rowId: u64, i: nat): (r: Result<nat>)
    requires node.InteriorTable? && i <= |node.pivots|
    ensures r.Ok? ==> r.value == node.rightmost || exists j ::
            i <= j < |node.pivots| && node.pivots[j].child == Ok(r.value)
    decreases |node.pivots| - i
  {
    if i == |node.pivots| then Ok(node.rightmost)
    else if node.pivots[i].key.Err? then Err(node.pivots[i].key.error)
    else if Signed(rowId) <= Signed(node.pivots[i].key.value) then node.pivots[i].child
    else SignedChild(node, rowId, i + 1)
  }

  /** On the way down to the row id, every page's unsigned choice of child is the signed one. */
  ghost predicate SameWay(pages: Pages, rank: nat -> nat, p: nat, rowId: u64)
    requires Ranked(pages, rank)
    decreases rank(p)
  {
    p in pages && pages[p].InteriorTable? ==>
      assert Below(pages[p], rank, rank(p));
      && ChildFor(pages[p], rowId, 0) == SignedChild(pages[p], rowId, 0)
      && (SignedChild(pages[p], rowId, 0).Ok? ==> SameWay(pages, rank, SignedChild(pages[p], rowId, 0).value, rowId))
  }

  predicate IsChild(node: Node, i: nat, c: nat)
    requires node.InteriorTable?
  {
    c == node.rightmost || exists j :: i <= j < |node.pivots| && node.pivots[j].child == Ok(c)
  }

  lemma HoldsConcat(a: seq<Cell>, b: seq<Cell>, rowId: u64)
    ensures Holds(a + b, rowId) <==> Holds(a, rowId) || Holds(b, rowId)
  {
    FindCellConcat(a, b, rowId);
    FindCellIff(a + b, rowId);
    FindCellIff(a, rowId);
    FindCellIff(b, rowId);
  }

  lemma HeldInRange(cells: seq<Cell>, lo: int, hi: int, rowId: u64)
    requires AscendingIn(cells, lo, hi) && Holds(cells, rowId)
    ensures lo < Signed(rowId) <= hi
  {
  }

  /** A child subtree is well formed; a row it holds belongs to the parent, and the signed choice of
      child leads to it. */
  lemma {:induction false} ChildInTree(pages: Pages, rank: nat -> nat, node: Node, limit: nat, i: nat, lo: int, hi: int,
      c: nat, rowId: u64) returns (l: int, h: int)
    requires Ranked(pages, rank) && node.InteriorTable? && Below(node, rank, limit) && i <= |node.pivots|
    requires WellFormedFrom(pages, rank, node, limit, i, lo, hi) && IsChild(node, i, c)
    ensures WellFormed(pages, rank, c, l, h) && ScanPage(pages, rank, c).Ok? &&
            RowsFrom(pages, rank, node, limit, i).Ok?
    ensures Holds(ScanPage(pages, rank, c).value, rowId) ==>
              Holds(RowsFrom(pages, rank, node, limit, i).value, rowId) && SignedChild(node, rowId, i) == Ok(c)
    decreases |node.pivots| - i
  {
    ScanFromAscends(pages, rank, node, limit, i, lo, hi);
    if i == |node.pivots| {
      l, h := lo, hi;
      ScanAscends(pages, rank, c, lo, hi);
      RowsFromEnd(pages, rank, node, limit);
    } else {
      var child, key := node.pivots[i].child.value, Signed(node.pivots[i].key.value);
      ScanAscends(pages, rank, child, lo, key);
      ScanFromAscends(pages, rank, node, limit, i + 1, key, hi);
      RowsFromStep(pages, rank, node, limit, i);
      var rows, rest := ScanPage(pages, rank, child).value, RowsFrom(pages, rank, node, limit, i + 1).value;
      HoldsConcat(rows, rest, rowId);
      if c == child {
        l, h := lo, key;
        if Holds(rows, rowId) { HeldInRange(rows, lo, key, rowId); }
      } else {
        l, h := ChildInTree(pages, rank, node, limit, i + 1, key, hi, c, rowId);
        if Holds(rest, rowId) { HeldInRange(rest, key, hi, rowId); }
      }
    }
  }

  /** The signed choice of child leads to a row the subtree holds. */
  lemma {:induction false} SignedChildFinds(pages: Pages, rank: nat -> nat, node: Node, limit: nat, i: nat, lo: int,
      hi: int, rowId: u64)
    requires Ranked(pages, rank) && node.InteriorTable? && Below(node, rank, limit) && i <= |node.pivots|
    requires WellFormedFrom(pages, rank, node, limit, i, lo, hi)
    ensures SignedChild(node, rowId, i).Ok? && IsChild(node, i, SignedChild(node, rowId, i).value)
    ensures ScanPage(pages, rank, SignedChild(node, rowId, i).value).Ok? && RowsFrom(pages, rank, node, limit, i).Ok?
    ensures var all, below := RowsFrom(pages, rank, node, limit, i).value,
            ScanPage(pages, rank, SignedChild(node, rowId, i).value).value;
            Holds(all, rowId) ==> Holds(below, rowId) && FindCell(all, rowId) == FindCell(below, rowId)
    decreases |node.pivots| - i
  {
    if i == |node.pivots| {
      ScanAscends(pages, rank, node.rightmost, lo, hi);
      RowsFromEnd(pages, rank, node, limit);
    } else {
      var child, key := node.pivots[i].child.value, Signed(node.pivots[i].key.value);
      ScanAscends(pages, rank, child, lo, key);
      ScanFromAscends(pages, rank, node, limit, i + 1, key, hi);
      SignedChildFinds(pages, rank, node, limit, i + 1, key, hi, rowId);
      RowsFromStep(pages, rank, node, limit, i);
      var rows, rest := ScanPage(pages, rank, child).value, RowsFrom(pages, rank, node, limit, i + 1).value;
      HoldsConcat(rows, rest, rowId);
      FindCellConcat(rows, rest, rowId);
      if Holds(rows, rowId) { HeldInRange(rows, lo, key, rowId); }
      if Holds(rest, rowId) { HeldInRange(rest, key, hi, rowId); }
    }
  }

  /** The scan's answer to a lookup. */
  ghost function ScanAnswer(pages: Pages, rank: nat -> nat, p: nat, rowId: u64): Option<Row>
    requires Ranked(pages, rank) && ScanPage(pages, rank, p).Ok?
  {
    FindCell(ScanPage(pages, rank, p).value, rowId)
  }

  lemma {:induction false} ChildForOk(pages: Pages, rank: nat -> nat, node: Node, limit: nat, i: nat, lo: int, hi: int,
      rowId: u64)
    requires Ranked(pages, rank) && node.InteriorTable? && Below(node, rank, limit) && i <= |node.pivots|
    requires WellFormedFrom(pages, rank, node, limit, i, lo, hi)
    ensures ChildFor(node, rowId, i).Ok? && IsChild(node, i, ChildFor(node, rowId, i).value)
    decreases |node.pivots| - i
  {
    if i < |node.pivots| {
      ChildForOk(pages, rank, node, limit, i + 1, Signed(node.pivots[i].key.value), hi, rowId);
    }
  }

  /** On a well-formed tree a lookup never fails, finds nothing that is not there, and agrees with the
      scan if and only if the row is absent or every page on its way compares keys as the format does. */
  lemma {:induction false} LookupIff(pages: Pages, rank: nat -> nat, p: nat, lo: int, hi: int, rowId: u64)
    requires Ranked(pages, rank) && WellFormed(pages, rank, p, lo, hi)
    ensures ScanPage(pages, rank, p).Ok? && GetRow(pages, rank, p, rowId).Ok?
    ensures ScanAnswer(pages, rank, p, rowId).None? ==> GetRow(pages, rank, p, rowId) == Ok(None)
    ensures GetRow(pages, rank, p, rowId) == Ok(ScanAnswer(pages, rank, p, rowId))
            <==> (ScanAnswer(pages, rank, p, rowId).Some? ==> SameWay(pages, rank, p, rowId))
    decreases rank(p)
  {
    ScanAscends(pages, rank, p, lo, hi);
    var rows := ScanPage(pages, rank, p).value;
    FindCellIff(rows, rowId);
    if pages[p].InteriorTable? {
      var node := pages[p];
      assert Below(node, rank, rank(p));
      assert RowsFrom(pages, rank, node, rank(p), 0) == ScanPage(pages, rank, p);
      ChildForOk(pages, rank, node, rank(p), 0, lo, hi, rowId);
      SignedChildFinds(pages, rank, node, rank(p), 0, lo, hi, rowId);
      var c := ChildFor(node, rowId, 0).value;
      var l, h := ChildInTree(pages, rank, node, rank(p), 0, lo, hi, c, rowId);
      LookupIff(pages, rank, c, l, h, rowId);
      FindCellIff(ScanPage(pages, rank, c).value, rowId);
    }
  }

  // ----- Signs ----------------------------------------------------------------

  /** As a signed number the varint is negative. */
  predicate Negative(v: u64) { v > MAX_I64 }

  /** The keys that a signed search of the page looks at, from pivot `i` on, have the row id's sign. */
  predicate SignsAgree(node: Node, rowId: u64, i: nat)
    requires node.InteriorTable? && i <= |node.pivots|
    decreases |node.pivots| - i
  {
    i < |node.pivots| && node.pivots[i].key.Ok? ==>
      var key := node.pivots[i].key.value;
      Negative(key) == Negative(rowId) && (Signed(rowId) <= Signed(key) || SignsAgree(node, rowId, i + 1))
  }

  /** On the signed way down to the row id every key looked at has its sign. */
  ghost predicate SignsAgreeOnWay(pages: Pages, rank: nat -> nat, p: nat, rowId: u64)
    requires Ranked(pages, rank)
    decreases rank(p)
  {
    p in pages && pages[p].InteriorTable? ==>
      assert Below(pages[p], rank, rank(p));
      && SignsAgree(pages[p], rowId, 0)
      && (SignedChild(pages[p], rowId, 0).Ok? ==>
          SignsAgreeOnWay(pages, rank, SignedChild(pages[p], rowId, 0).value, rowId))
  }

  lemma {:induction false} SignsSameChild(pages: Pages, rank: nat -> nat, node: Node, limit: nat, i: nat, lo: int,
      hi: int, rowId: u64)
    requires Ranked(pages, rank) && node.InteriorTable? && Below(node, rank, limit) && i <= |node.pivots|
    requires WellFormedFrom(pages, rank, node, limit, i, lo, hi) && SignsAgree(node, rowId, i)
    ensures ChildFor(node, rowId, i) == SignedChild(node, rowId, i)
    decreases |node.pivots| - i
  {
    if i < |node.pivots| && Signed(rowId) > Signed(node.pivots[i].key.value) {
      SignsSameChild(pages, rank, node, limit, i + 1, Signed(node.pivots[i].key.value), hi, rowId);
    }
  }

  /** Where a sign differs, the unsigned search descends into a child that does not hold the row. */
  lemma {:induction false} OtherSignMisses(pages: Pages, rank: nat -> nat, node: Node, limit: nat, i: nat, lo: int,
      hi: int, rowId: u64)
    requires Ranked(pages, rank) && node.InteriorTable? && Below(node, rank, limit) && i <= |node.pivots|
    requires WellFormedFrom(pages, rank, node, limit, i, lo, hi) && !SignsAgree(node, rowId, i)
    ensures ChildFor(node, rowId, i).Ok? && ScanPage(pages, rank, ChildFor(node, rowId, i).value).Ok?
    ensures !Holds(ScanPage(pages, rank, ChildFor(node, rowId, i).value).value, rowId)
    decreases |node.pivots| - i
  {
    var child, key := node.pivots[i].child.value, node.pivots[i].key.value;
    if rowId <= key {
      ScanAscends(pages, rank, child, lo, Signed(key));
      if Holds(ScanPage(pages, rank, child).value, rowId) {
        HeldInRange(ScanPage(pages, rank, child).value, lo, Signed(key), rowId);
      }
    } else if Negative(key) == Negative(rowId) {
      OtherSignMisses(pages, rank, node, limit, i + 1, Signed(key), hi, rowId);
    } else {
      ChildForOk(pages, rank, node, limit, i + 1, Signed(key), hi, rowId);
      var c := ChildFor(node, rowId, i + 1).value;
      var l, h := ChildInTree(pages, rank, node, limit, i + 1, Signed(key), hi, c, rowId);
      if Holds(ScanPage(pages, rank, c).value, rowId) {
        ScanFromAscends(pages, rank, node, limit, i + 1, Signed(key), hi);
        HeldInRange(RowsFrom(pages, rank, node, limit, i + 1).value, Signed(key), hi, rowId);
      }
    }
  }

  /** For a row the tree holds, both ways are one exactly when the signs agree. */
  lemma {:induction false} SameWayIff(pages: Pages, rank: nat -> nat, p: nat, lo: int, hi: int, rowId: u64)
    requires Ranked(pages, rank) && WellFormed(pages, rank, p, lo, hi)
    requires ScanPage(pages, rank, p).Ok? && Holds(ScanPage(pages, rank, p).value, rowId)
    ensures SameWay(pages, rank, p, rowId) <==> SignsAgreeOnWay(pages, rank, p, rowId)
    decreases rank(p)
  {
    if pages[p].InteriorTable? {
      var node := pages[p];
      assert Below(node, rank, rank(p));
      assert RowsFrom(pages, rank, node, rank(p), 0) == ScanPage(pages, rank, p);
      SignedChildFinds(pages, rank, node, rank(p), 0, lo, hi, rowId);
      var c := SignedChild(node, rowId, 0).value;
      var l, h := ChildInTree(pages, rank, node, rank(p), 0, lo, hi, c, rowId);
      SameWayIff(pages, rank, c, l, h, rowId);
      if SignsAgree(node, rowId, 0) {
        SignsSameChild(pages, rank, node, rank(p), 0, lo, hi, rowId);
      } else {
        OtherSignMisses(pages, rank, node, rank(p), 0, lo, hi, rowId);
      }
    }
  }

  /** The lookup finds what the scan lists exactly when the row is absent or every key a signed search
      looks at on the way to it has the sign of the row id. */
  lemma LookupSignsIff(pages: Pages, rank: nat -> nat, p: nat, lo: int, hi: int, rowId: u64)
    requires Ranked(pages, rank) && WellFormed(pages, rank, p, lo, hi)
    ensures ScanPage(pages, rank, p).Ok? && GetRow(pages, rank, p, rowId).Ok?
    ensures GetRow(pages, rank, p, rowId) == Ok(ScanAnswer(pages, rank, p, rowId))
            <==> (ScanAnswer(pages, rank, p, rowId).Some? ==> SignsAgreeOnWay(pages, rank, p, rowId))
  {
    LookupIff(pages, rank, p, lo, hi, rowId);
    FindCellIff(ScanPage(pages, rank, p).value, rowId);
    if ScanAnswer(pages, rank, p, rowId).Some? { SameWayIff(pages, rank, p, lo, hi, rowId); }
  }

  // ----- Non-negative row ids ----------------------------------------------

  ghost predicate NonNegativeKeys(pages: Pages) {
    forall p {:trigger pages[p]} :: p in pages && pages[p].InteriorTable? ==>
      forall i :: 0 <= i < |pages[p].pivots| && pages[p].pivots[i].key.Ok? ==> pages[p].pivots[i].key.value <= MAX_I64
  }

  lemma {:induction false} SameChild(node: Node, rowId: u64, i: nat)
    requires node.InteriorTable? && i <= |node.pivots| && rowId <= MAX_I64
    requires forall j :: 0 <= j < |node.pivots| ==>
             node.pivots[j].child.Ok? && node.pivots[j].key.Ok? && node.pivots[j].key.value <= MAX_I64
    ensures ChildFor(node, rowId, i) == SignedChild(node, rowId, i)
    decreases |node.pivots| - i
  {
    if i < |node.pivots| { SameChild(node, rowId, i + 1); }
  }

  lemma {:induction false} PivotsDecode(pages: Pages, rank: nat -> nat, node: Node, limit: nat, i: nat, lo: int,
      hi: int, j: nat)
    requires Ranked(pages, rank) && node.InteriorTable? && Below(node, rank, limit) && i <= j < |node.pivots|
    requires WellFormedFrom(pages, rank, node, limit, i, lo, hi)
    ensures node.pivots[j].child.Ok? && node.pivots[j].key.Ok?
    decreases |node.pivots| - i
  {
    if i < j { PivotsDecode(pages, rank, node, limit, i + 1, Signed(node.pivots[i].key.value), hi, j); }
  }

  lemma {:induction false} NonNegativeSameWay(pages: Pages, rank: nat -> nat, p: nat, lo: int, hi: int, rowId: u64)
    requires Ranked(pages, rank) && WellFormed(pages, rank, p, lo, hi) && NonNegativeKeys(pages) && rowId <= MAX_I64
    ensures SameWay(pages, rank, p, rowId)
    decreases rank(p)
  {
    if pages[p].InteriorTable? {
      var node := pages[p];
      assert Below(node, rank, rank(p));
      forall j | 0 <= j < |node.pivots| ensures node.pivots[j].child.Ok? && node.pivots[j].key.Ok? {
        PivotsDecode(pages, rank, node, rank(p), 0, lo, hi, j);
      }
      SameChild(node, rowId, 0);
      ChildForOk(pages, rank, node, rank(p), 0, lo, hi, rowId);
      var c := ChildFor(node, rowId, 0).value;
      var l, h := ChildInTree(pages, rank, node, rank(p), 0, lo, hi, c, rowId);
      NonNegativeSameWay(pages, rank, c, l, h, rowId);
    }
  }

  /** On a well-formed tree whose keys are not negative, a lookup of a non-negative id returns the row
      the scan lists with it, or nothing when the scan lists none. */
  lemma LookupMatchesScan(pages: Pages, rank: nat -> nat, p: nat, lo: int, hi: int, rowId: u64)
    requires Ranked(pages, rank) && WellFormed(pages, rank, p, lo, hi) && NonNegativeKeys(pages) && rowId <= MAX_I64
    ensures ScanPage(pages, rank, p).Ok? && GetRow(pages, rank, p, rowId) == Ok(ScanAnswer(pages, rank, p, rowId))
  {
    LookupIff(pages, rank, p, lo, hi, rowId);
    NonNegativeSameWay(pages, rank, p, lo, hi, rowId);
  }

  // ----- A negative row id -------------------------------------------------

  const MINUS_ONE: u64 := 0xffff_ffff_ffff_ffff

  /** Row -1 in the left leaf of a root with key 5. */
  function TwoLeaves(row: Row): Pages {
    map[1 := InteriorTable([Pivot(Ok(2), Ok(5))], 3), 2 := LeafTable([Ok(Cell(MINUS_ONE, row))]), 3 := LeafTable([])]
  }

  function RootFirst(): nat -> nat { p => if p == 1 then 1 else 0 }

  lemma TwoLeavesWellFormed(row: Row)
    ensures Ranked(TwoLeaves(row), RootFirst()) && WellFormed(TwoLeaves(row), RootFirst(), 1, MIN_I64 - 1, MAX_I64)
    ensures Holds(ScanPage(TwoLeaves(row), RootFirst(), 2).value, MINUS_ONE) &&
            ScanAnswer(TwoLeaves(row), RootFirst(), 2, MINUS_ONE) == Some(row)
  {
    var pages, rank := TwoLeaves(row), RootFirst();
    var cells := AllCells(pages[2].cells).value;
    assert cells[0] == Cell(MINUS_ONE, row) && |cells| == 1;
    assert WellFormed(pages, rank, 2, MIN_I64 - 1, 5);
    assert WellFormed(pages, rank, 3, 5, MAX_I64);
    assert WellFormedFrom(pages, rank, pages[1], 1, 1, 5, MAX_I64);
  }

  /** The format puts row -1 left of key 5, and there the scan finds it; the lookup goes right. */
  lemma NegativeRowMissed(row: Row)
    ensures Ranked(TwoLeaves(row), RootFirst()) && WellFormed(TwoLeaves(row), RootFirst(), 1, MIN_I64 - 1, MAX_I64)
    ensures ScanPage(TwoLeaves(row), RootFirst(), 1).Ok? &&
            ScanAnswer(TwoLeaves(row), RootFirst(), 1, MINUS_ONE) == Some(row)
    ensures GetRow(TwoLeaves(row), RootFirst(), 1, MINUS_ONE) == Ok(None)
  {
    var pages, rank := TwoLeaves(row), RootFirst();
    TwoLeavesWellFormed(row);
    var root := pages[1];
    SignedChildFinds(pages, rank, root, 1, 0, MIN_I64 - 1, MAX_I64, MINUS_ONE);
    var l, h := ChildInTree(pages, rank, root, 1, 0, MIN_I64 - 1, MAX_I64, 2, MINUS_ONE);
    assert RowsFrom(pages, rank, root, 1, 0) == ScanPage(pages, rank, 1);
    assert ChildFor(root, MINUS_ONE, 0) == Ok(3);
    assert GetRow(pages, rank, 3, MINUS_ONE) == Ok(None);
  }
}
