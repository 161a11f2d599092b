/** What a full scan of a table B-tree lists: the cells of all leaf pages below the root. */
module TableBtreeScans {
  import opened Common
  import opened TableBtree
  import opened TableBtreeReads

  /** Page `q` is page `p` or lies below it. */
  ghost predicate Reaches(pages: Pages, rank: nat -> nat, p: nat, q: nat)
    requires Ranked(pages, rank)
    decreases rank(p)
  {
    p == q ||
    (p in pages && pages[p].InteriorTable? &&
      exists c :: IsChild(pages[p], 0, c) && rank(c) < rank(p) && Reaches(pages, rank, c, q))
  }

  /** A page the scan gets through: a leaf whose cells all decode, or an interior page whose links do. */
  predicate Readable(pages: Pages, p: nat) {
    p in pages && !pages[p].OtherPage? &&
    (pages[p].LeafTable? ==> forall i :: 0 <= i < |pages[p].cells| ==> pages[p].cells[i].Ok?) &&
    (pages[p].InteriorTable? ==> forall i :: 0 <= i < |pages[p].pivots| ==> pages[p].pivots[i].child.Ok?)
  }

  predicate InLeaf(pages: Pages, p: nat, cell: Cell) { p in pages && pages[p].LeafTable? && Ok(cell) in pages[p].cells }

  /** The scan succeeds exactly when every page below the root is readable. */
  lemma {:induction false} ScanSucceedsIff(pages: Pages, rank: nat -> nat, p: nat)
    requires Ranked(pages, rank)
    ensures ScanPage(pages, rank, p).Ok? <==> forall q :: Reaches(pages, rank, p, q) ==> Readable(pages, q)
    decreases rank(p), 1
  {
    if Readable(pages, p) && pages[p].InteriorTable? {
      ScanOfChildren(pages, rank, p);
      var children := Children(pages[p], 0).value;
      forall c | c in children
        ensures ScanPage(pages, rank, c).Ok? <==> forall q :: Reaches(pages, rank, c, q) ==> Readable(pages, q)
      {
        ScanSucceedsIff(pages, rank, c);
      }
      if forall q :: Reaches(pages, rank, p, q) ==> Readable(pages, q) {
        forall c, q | c in children && Reaches(pages, rank, c, q) ensures Readable(pages, q) {
          assert IsChild(pages[p], 0, c) && Reaches(pages, rank, p, q);
        }
      }
    } else {
      assert Reaches(pages, rank, p, p);
    }
  }

  /** When it succeeds it lists a cell exactly when a leaf page below the root holds it. */
  lemma {:induction false} ScanHoldsIff(pages: Pages, rank: nat -> nat, p: nat, cell: Cell)
    requires Ranked(pages, rank) && ScanPage(pages, rank, p).Ok?
    ensures cell in ScanPage(pages, rank, p).value <==>
            exists q :: Reaches(pages, rank, p, q) && InLeaf(pages, q, cell)
    decreases rank(p)
  {
    if pages[p].LeafTable? {
      if Ok(cell) in pages[p].cells {
        var i :| 0 <= i < |pages[p].cells| && pages[p].cells[i] == Ok(cell);
        assert ScanPage(pages, rank, p).value[i] == cell;
        assert Reaches(pages, rank, p, p);
      }
    } else {
      ScanOfChildren(pages, rank, p);
      var children := Children(pages[p], 0).value;
      forall c | c in children
        ensures cell in ScanPage(pages, rank, c).value <==>
                exists q :: Reaches(pages, rank, c, q) && InLeaf(pages, q, cell)
      {
        ScanHoldsIff(pages, rank, c, cell);
      }
    }
  }

  /** An interior page's scan takes every child once, in order. */
  lemma ScanOfChildren(pages: Pages, rank: nat -> nat, p: nat)
    requires Ranked(pages, rank) && Readable(pages, p) && pages[p].InteriorTable?
    ensures Children(pages[p], 0).Ok?
    ensures forall c :: c in Children(pages[p], 0).value <==> IsChild(pages[p], 0, c)
    ensures forall c :: c in Children(pages[p], 0).value ==> rank(c) < rank(p)
    ensures ScanPage(pages, rank, p).Ok? <==>
            forall c :: c in Children(pages[p], 0).value ==> ScanPage(pages, rank, c).Ok?
    ensures ScanPage(pages, rank, p).Ok? ==>
            forall cell :: cell in ScanPage(pages, rank, p).value <==>
              exists c :: c in Children(pages[p], 0).value && cell in ScanPage(pages, rank, c).value
  {
    var node := pages[p];
    assert Below(node, rank, rank(p));
    var children := Children(node, 0).value;
    ChildrenBelow(node, rank, rank(p));
    forall c ensures c in children <==> IsChild(node, 0, c) {
      if IsChild(node, 0, c) && c != node.rightmost {
        var j :| 0 <= j < |node.pivots| && node.pivots[j].child == Ok(c);
        assert children[j - 0] == c;
      }
      if c in children {
        var k :| 0 <= k < |children| && children[k] == c;
        if k < |node.pivots| { assert children[k - 0] == node.pivots[k].child.value; }
      }
      assert children[|node.pivots|] == node.rightmost;
    }
    ScanOfList(pages, rank, children, rank(p));
  }

  lemma {:induction false} ScanOfList(pages: Pages, rank: nat -> nat, list: seq<nat>, limit: nat)
    requires Ranked(pages, rank) && forall i :: 0 <= i < |list| ==> rank(list[i]) < limit
    ensures ScanPages(pages, rank, list, limit).Ok? <==> forall c :: c in list ==> ScanPage(pages, rank, c).Ok?
    ensures ScanPages(pages, rank, list, limit).Ok? ==>
            forall cell :: cell in ScanPages(pages, rank, list, limit).value <==>
              exists c :: c in list && cell in ScanPage(pages, rank, c).value
  {
    if list != [] {
      ScanOfList(pages, rank, list[1..], limit);
      assert list[0] in list && forall c :: c in list <==> c == list[0] || c in list[1..];
    }
  }

  lemma {:induction false} FoundIsThere(cells: seq<Cell>, rowId: u64)
    ensures FindCell(cells, rowId).Some? ==> Cell(rowId, FindCell(cells, rowId).value) in cells
  {
    if cells != [] && cells[0].rowId != rowId { FoundIsThere(cells[1..], rowId); }
  }

  /** Even on a tree that is not well formed a lookup only returns rows that lie in the tree under that id. */
  lemma {:induction false} LookupInTree(pages: Pages, rank: nat -> nat, p: nat, rowId: u64)
    requires Ranked(pages, rank)
    ensures var r := GetRow(pages, rank, p, rowId);
            r.Ok? && r.value.Some? ==>
              exists q :: Reaches(pages, rank, p, q) && InLeaf(pages, q, Cell(rowId, r.value.value))
    decreases rank(p)
  {
    var r := GetRow(pages, rank, p, rowId);
    if r.Ok? && r.value.Some? {
      if pages[p].LeafTable? {
        var cells := AllCells(pages[p].cells).value;
        FoundIsThere(cells, rowId);
        var i :| 0 <= i < |cells| && cells[i] == Cell(rowId, r.value.value);
        assert pages[p].cells[i] == Ok(cells[i]);
        assert Reaches(pages, rank, p, p);
      } else {
        assert Below(pages[p], rank, rank(p));
        var c := ChildFor(pages[p], rowId, 0).value;
        LookupInTree(pages, rank, c, rowId);
        assert IsChild(pages[p], 0, c);
      }
    }
  }
}
