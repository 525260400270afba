/**
 * Table reconstruction of `src/parse.rs` (`parse_blocks`, `extract_text_from_cell`):
 * the flat list of document-analysis blocks becomes a row-major grid of cell texts.
 */
module Blocks {
  import opened Wrappers
  import opened Text

  // -------------------------------------------------------------- the input

  /** The block kinds the reconstruction distinguishes; every other kind is `OtherBlock`. */
  datatype BlockType = Cell | Word | OtherBlock

  datatype RelationshipType = Child | OtherRelationship

  datatype Relationship = Relationship(relType: Option<RelationshipType>, ids: Option<seq<string>>)

  /** A document-analysis block; row and column indices are 1-based when present. */
  datatype Block = Block(
    id: Option<string>,
    blockType: Option<BlockType>,
    rowIndex: Option<nat>,
    columnIndex: Option<nat>,
    text: Option<string>,
    relationships: Option<seq<Relationship>>)

  predicate IsCell(b: Block) { b.blockType == Some(Cell) }

  // ------------------------------------------------------------- the lookup

  /** The id -> block map, built in list order so that a later block replaces an earlier one. */
  function Lookup(blocks: seq<Block>): (m: map<string, Block>)
    decreases |blocks|
  {
    if blocks == [] then map[]
    else
      var m := Lookup(blocks[..|blocks| - 1]);
      var b := blocks[|blocks| - 1];
      if b.id.Some? then m[b.id.value := b] else m
  }

  /** The lookup holds exactly the ids that occur, each mapped to a block carrying it. */
  lemma {:induction false} LookupMembers(blocks: seq<Block>, k: string)
    ensures k in Lookup(blocks) <==> exists b :: b in blocks && b.id == Some(k)
    ensures k in Lookup(blocks) ==> Lookup(blocks)[k] in blocks && Lookup(blocks)[k].id == Some(k)
    decreases |blocks|
  {
    if blocks != [] {
      var init := blocks[..|blocks| - 1];
      LookupMembers(init, k);
      assert blocks == init + [blocks[|blocks| - 1]];
    }
  }

  /** For a repeated id, the last block carrying it wins. */
  lemma {:induction false} LookupLastWins(blocks: seq<Block>, i: nat)
    requires i < |blocks| && blocks[i].id.Some?
    requires forall j :: i < j < |blocks| ==> blocks[j].id != blocks[i].id
    ensures blocks[i].id.value in Lookup(blocks) && Lookup(blocks)[blocks[i].id.value] == blocks[i]
    decreases |blocks|
  {
    if i < |blocks| - 1 {
      var init := blocks[..|blocks| - 1];
      LookupLastWins(init, i);
    }
  }

  // ------------------------------------------------------------- cell text

  /** The ids a relationship contributes: those of a Child relationship, in order. */
  function RelationshipIds(rel: Relationship): seq<string> {
    if rel.relType == Some(Child) && rel.ids.Some? then rel.ids.value else []
  }

  /** The child ids of a list of relationships, in relationship order. */
  function ChildIds(rels: seq<Relationship>): seq<string>
    decreases |rels|
  {
    if rels == [] then []
    else ChildIds(rels[..|rels| - 1]) + RelationshipIds(rels[|rels| - 1])
  }

  /** An id whose block is a Word that has text. */
  predicate Contributes(id: string, lookup: map<string, Block>) {
    id in lookup && lookup[id].blockType == Some(Word) && lookup[id].text.Some?
  }

  /** The texts of the contributing ids, in order. */
  function Words(ids: seq<string>, lookup: map<string, Block>): seq<string>
    decreases |ids|
  {
    if ids == [] then []
    else
      var last := ids[|ids| - 1];
      Words(ids[..|ids| - 1], lookup) + (if Contributes(last, lookup) then [lookup[last].text.value] else [])
  }

  lemma {:induction false} WordsAppend(a: seq<string>, b: seq<string>, lookup: map<string, Block>)
    ensures Words(a + b, lookup) == Words(a, lookup) + Words(b, lookup)
    decreases |b|
  {
    if b != [] {
      var b', last := b[..|b| - 1], b[|b| - 1];
      var w := if Contributes(last, lookup) then [lookup[last].text.value] else [];
      assert (a + b)[..|a + b| - 1] == a + b';
      assert (a + b)[|a + b| - 1] == last;
      WordsAppend(a, b', lookup);
      calc {
        Words(a + b, lookup);
        Words(a + b', lookup) + w;
        Words(a, lookup) + Words(b', lookup) + w;
        Words(a, lookup) + (Words(b', lookup) + w);
      }
    } else {
      assert a + b == a;
    }
  }

  lemma WordsPrefixStep(ids: seq<string>, j: nat, lookup: map<string, Block>)
    requires j < |ids|
    ensures Words(ids[..j + 1], lookup) == Words(ids[..j], lookup)
      + (if Contributes(ids[j], lookup) then [lookup[ids[j]].text.value] else [])
  {
    assert ids[..j + 1][..j] == ids[..j];
  }

  lemma ChildIdsPrefixStep(rels: seq<Relationship>, i: nat)
    requires i < |rels|
    ensures ChildIds(rels[..i + 1]) == ChildIds(rels[..i]) + RelationshipIds(rels[i])
  {
    assert rels[..i + 1][..i] == rels[..i];
  }

  /**
   * The words of a list of ids: none exactly when no id contributes, each one the text of
   * a contributing id, and never more words than ids.
   */
  lemma {:induction false} WordsSpec(ids: seq<string>, lookup: map<string, Block>)
    ensures |Words(ids, lookup)| <= |ids|
    ensures Words(ids, lookup) == [] <==> forall k :: 0 <= k < |ids| ==> !Contributes(ids[k], lookup)
    ensures forall w :: w in Words(ids, lookup) ==>
      exists k :: 0 <= k < |ids| && Contributes(ids[k], lookup) && lookup[ids[k]].text == Some(w)
    decreases |ids|
  {
    if ids != [] {
      var init := ids[..|ids| - 1];
      WordsSpec(init, lookup);
      forall k | 0 <= k < |init| ensures ids[k] == init[k] { }
    }
  }

  /** The words of a cell, from its Child relationships only. */
  function CellWords(cell: Block, lookup: map<string, Block>): seq<string> {
    match cell.relationships
    case None => []
    case Some(rels) => Words(ChildIds(rels), lookup)
  }

  /** The text of a cell: its words joined by single spaces. */
  function CellText(cell: Block, lookup: map<string, Block>): string {
    Join(CellWords(cell, lookup))
  }

  /** A cell none of whose child ids names a Word with text has the empty text. */
  lemma CellTextEmpty(cell: Block, lookup: map<string, Block>)
    requires cell.relationships.Some? ==>
      forall id :: id in ChildIds(cell.relationships.value) ==> !Contributes(id, lookup)
    ensures CellText(cell, lookup) == ""
  {
    if cell.relationships.Some? {
      WordsSpec(ChildIds(cell.relationships.value), lookup);
    }
  }

  /** When no word contains a space, the cell text splits back into its words. */
  lemma CellTextSplits(cell: Block, lookup: map<string, Block>)
    requires CellWords(cell, lookup) != []
    requires forall w :: w in CellWords(cell, lookup) ==> ' ' !in w
    ensures Split(CellText(cell, lookup)) == CellWords(cell, lookup)
  {
    SplitJoin(CellWords(cell, lookup));
  }

  /** `extract_text_from_cell`: collect the words relationship by relationship, then join them. */
  method ExtractTextFromCell(cell: Block, lookup: map<string, Block>) returns (text: string)
    ensures text == CellText(cell, lookup)
  {
    var parts: seq<string> := [];
    if cell.relationships.Some? {
      var rels := cell.relationships.value;
      for i := 0 to |rels|
        invariant parts == Words(ChildIds(rels[..i]), lookup)
      {
        var rel := rels[i];
        ghost var before := parts;
        if rel.relType == Some(Child) && rel.ids.Some? {
          var ids := rel.ids.value;
          for j := 0 to |ids|
            invariant parts == before + Words(ids[..j], lookup)
          {
            WordsPrefixStep(ids, j, lookup);
            if ids[j] in lookup {
              var child := lookup[ids[j]];
              if child.blockType == Some(Word) && child.text.Some? {
                parts := parts + [child.text.value];
              }
            }
          }
          assert ids[..|ids|] == ids;
        }
        assert parts == before + Words(RelationshipIds(rel), lookup);
        WordsAppend(ChildIds(rels[..i]), RelationshipIds(rel), lookup);
        ChildIdsPrefixStep(rels, i);
      }
      assert rels[..|rels|] == rels;
    }
    text := Join(parts);
  }

  // ------------------------------------------------------------------- grid

  /** The Cell blocks, in list order. */
  function Cells(blocks: seq<Block>): (cells: seq<Block>)
    ensures |cells| <= |blocks|
    ensures forall b :: b in cells <==> b in blocks && IsCell(b)
    decreases |blocks|
  {
    if blocks == [] then []
    else
      var init := blocks[..|blocks| - 1];
      var b := blocks[|blocks| - 1];
      assert blocks == init + [b];
      Cells(init) + (if IsCell(b) then [b] else [])
  }

  /** Selecting cells distributes over concatenation: the cells keep their list order. */
  lemma {:induction false} CellsAppend(a: seq<Block>, b: seq<Block>)
    ensures Cells(a + b) == Cells(a) + Cells(b)
    decreases |b|
  {
    if b == [] {
      assert a + b == a;
    } else {
      var init, x := b[..|b| - 1], b[|b| - 1];
      var ab := a + b;
      assert ab[..|ab| - 1] == a + init && ab[|ab| - 1] == x;
      CellsAppend(a, init);
      var t := if IsCell(x) then [x] else [];
      calc {
        Cells(ab);
        Cells(a + init) + t;
        (Cells(a) + Cells(init)) + t;
        Cells(a) + (Cells(init) + t);
      }
    }
  }

  function Max(a: nat, b: nat): nat { if a < b then b else a }

  /** The largest present row index, 0 when none is present. */
  function MaxRow(cells: seq<Block>): (n: nat)
    ensures forall b :: b in cells && b.rowIndex.Some? ==> b.rowIndex.value <= n
    ensures n == 0 || exists b :: b in cells && b.rowIndex == Some(n)
    decreases |cells|
  {
    if cells == [] then 0
    else
      var init := cells[..|cells| - 1];
      assert cells == init + [cells[|cells| - 1]];
      Max(MaxRow(init), cells[|cells| - 1].rowIndex.GetOr(0))
  }

  /** The largest present column index, 0 when none is present. */
  function MaxCol(cells: seq<Block>): (n: nat)
    ensures forall b :: b in cells && b.columnIndex.Some? ==> b.columnIndex.value <= n
    ensures n == 0 || exists b :: b in cells && b.columnIndex == Some(n)
    decreases |cells|
  {
    if cells == [] then 0
    else
      var init := cells[..|cells| - 1];
      assert cells == init + [cells[|cells| - 1]];
      Max(MaxCol(init), cells[|cells| - 1].columnIndex.GetOr(0))
  }

  /** Maxima depend only on which cells occur, not on their order or repetition. */
  lemma MaxSameMembers(a: seq<Block>, b: seq<Block>)
    requires forall x :: x in a <==> x in b
    ensures MaxRow(a) == MaxRow(b) && MaxCol(a) == MaxCol(b)
  {
  }

  /** `n - 1` saturating at 0. */
  function SaturatingPred(n: nat): nat { if n == 0 then 0 else n - 1 }

  /** The 0-based row a cell is written to: a missing index counts as 1. */
  function RowPosition(b: Block): nat { SaturatingPred(b.rowIndex.GetOr(1)) }

  /** The 0-based column a cell is written to: a missing index counts as 1. */
  function ColumnPosition(b: Block): nat { SaturatingPred(b.columnIndex.GetOr(1)) }

  predicate IsGrid(g: seq<seq<string>>, rows: nat, cols: nat) {
    |g| == rows && forall i :: 0 <= i < |g| ==> |g[i]| == cols
  }

  function Blank(rows: nat, cols: nat): (g: seq<seq<string>>)
    ensures IsGrid(g, rows, cols)
    ensures forall i, j :: 0 <= i < rows && 0 <= j < cols ==> g[i][j] == ""
  {
    seq(rows, _ => seq(cols, _ => ""))
  }

  /** One step of the fill: write the cell's text at its position if that lies inside the grid. */
  function Place(g: seq<seq<string>>, cell: Block, lookup: map<string, Block>, rows: nat, cols: nat): (h: seq<seq<string>>)
    requires IsGrid(g, rows, cols)
    ensures IsGrid(h, rows, cols)
  {
    var r, c := RowPosition(cell), ColumnPosition(cell);
    if r < rows && c < cols then g[r := g[r][c := CellText(cell, lookup)]] else g
  }

  /** The blank grid after every cell has been placed, in list order. */
  function Fill(cells: seq<Block>, lookup: map<string, Block>, rows: nat, cols: nat): (g: seq<seq<string>>)
    ensures IsGrid(g, rows, cols)
    decreases |cells|
  {
    if cells == [] then Blank(rows, cols)
    else Place(Fill(cells[..|cells| - 1], lookup, rows, cols), cells[|cells| - 1], lookup, rows, cols)
  }

  /** The grid `parse_blocks` returns. */
  function BlocksGrid(blocks: seq<Block>): (g: seq<seq<string>>)
    ensures var cells := Cells(blocks);
      if cells == [] then g == [] else IsGrid(g, MaxRow(cells), MaxCol(cells))
  {
    var cells := Cells(blocks);
    if cells == [] then [] else Fill(cells, Lookup(blocks), MaxRow(cells), MaxCol(cells))
  }

  /** Cell `b` is placed at row `r`, column `c`. */
  predicate PlacedAt(b: Block, r: nat, c: nat) {
    RowPosition(b) == r && ColumnPosition(b) == c
  }

  /** Placing a cell changes its own position, if inside the grid, and no other. */
  lemma PlaceAt(g: seq<seq<string>>, cell: Block, lookup: map<string, Block>, rows: nat, cols: nat, r: nat, c: nat)
    requires IsGrid(g, rows, cols) && r < rows && c < cols
    ensures Place(g, cell, lookup, rows, cols)[r][c]
      == if PlacedAt(cell, r, c) then CellText(cell, lookup) else g[r][c]
  {
  }

  /** A position no cell is placed at holds "". */
  lemma {:induction false} FillAtEmpty(cells: seq<Block>, lookup: map<string, Block>, rows: nat, cols: nat, r: nat, c: nat)
    requires r < rows && c < cols
    requires forall k :: 0 <= k < |cells| ==> !PlacedAt(cells[k], r, c)
    ensures Fill(cells, lookup, rows, cols)[r][c] == ""
    decreases |cells|
  {
    if cells != [] {
      var init := cells[..|cells| - 1];
      assert forall k :: 0 <= k < |init| ==> init[k] == cells[k];
      FillAtEmpty(init, lookup, rows, cols, r, c);
      PlaceAt(Fill(init, lookup, rows, cols), cells[|cells| - 1], lookup, rows, cols, r, c);
    }
  }

  /** A position holds the text of the last cell placed there: later cells overwrite earlier ones. */
  lemma {:induction false} FillAtLast(cells: seq<Block>, lookup: map<string, Block>, rows: nat, cols: nat, k: nat)
    requires k < |cells| && RowPosition(cells[k]) < rows && ColumnPosition(cells[k]) < cols
    requires forall m :: k < m < |cells| ==> !PlacedAt(cells[m], RowPosition(cells[k]), ColumnPosition(cells[k]))
    ensures Fill(cells, lookup, rows, cols)[RowPosition(cells[k])][ColumnPosition(cells[k])] == CellText(cells[k], lookup)
    decreases |cells|
  {
    var init, last := cells[..|cells| - 1], cells[|cells| - 1];
    var r, c := RowPosition(cells[k]), ColumnPosition(cells[k]);
    PlaceAt(Fill(init, lookup, rows, cols), last, lookup, rows, cols, r, c);
    if k < |cells| - 1 {
      assert forall m :: k < m < |init| ==> init[m] == cells[m];
      FillAtLast(init, lookup, rows, cols, k);
    }
  }

  /** If every cell placed at a position is the same block `x`, that position holds `x`'s text. */
  lemma {:induction false} FillAtUnique(cells: seq<Block>, lookup: map<string, Block>, rows: nat, cols: nat, x: Block)
    requires x in cells
    requires RowPosition(x) < rows && ColumnPosition(x) < cols
    requires forall y :: y in cells && PlacedAt(y, RowPosition(x), ColumnPosition(x)) ==> y == x
    ensures Fill(cells, lookup, rows, cols)[RowPosition(x)][ColumnPosition(x)] == CellText(x, lookup)
    decreases |cells|
  {
    var init, last := cells[..|cells| - 1], cells[|cells| - 1];
    assert cells == init + [last];
    PlaceAt(Fill(init, lookup, rows, cols), last, lookup, rows, cols, RowPosition(x), ColumnPosition(x));
    if last != x {
      FillAtUnique(init, lookup, rows, cols, x);
    }
  }

  /** The cells around a Cell block: those before it, the block itself, those after it. */
  lemma CellsAround(blocks: seq<Block>, i: nat)
    requires i < |blocks| && IsCell(blocks[i])
    ensures Cells(blocks) == Cells(blocks[..i]) + [blocks[i]] + Cells(blocks[i + 1..])
  {
    var x := blocks[i];
    var pre, post := blocks[..i], blocks[i + 1..];
    assert blocks == pre + [x] + post;
    CellsAppend(pre + [x], post);
    CellsAppend(pre, [x]);
    assert [x][..0] == [];
  }

  /** The Cell blocks after a Cell block are exactly the cells listed after it. */
  lemma LaterCells(blocks: seq<Block>, i: nat, r: nat, c: nat)
    requires i < |blocks| && IsCell(blocks[i])
    requires forall j :: i < j < |blocks| && IsCell(blocks[j]) ==> !PlacedAt(blocks[j], r, c)
    ensures |Cells(blocks[..i])| < |Cells(blocks)| && Cells(blocks)[|Cells(blocks[..i])|] == blocks[i]
    ensures forall m :: |Cells(blocks[..i])| < m < |Cells(blocks)| ==> !PlacedAt(Cells(blocks)[m], r, c)
  {
    var post := blocks[i + 1..];
    CellsAround(blocks, i);
    var cells := Cells(blocks);
    var k := |Cells(blocks[..i])|;
    forall m | k < m < |cells|
      ensures !PlacedAt(cells[m], r, c)
    {
      var y := cells[m];
      assert y == Cells(post)[m - k - 1];
      assert y in Cells(post);
      assert y in post && IsCell(y);
      var j :| 0 <= j < |post| && post[j] == y;
      assert blocks[i + 1 + j] == y;
    }
  }

  /**
   * Of the Cell blocks written at one position, the last in block order wins: a Cell block
   * inside the grid with no later Cell block at its position provides that position's text.
   */
  lemma BlocksGridLastWins(blocks: seq<Block>, i: nat)
    requires i < |blocks| && IsCell(blocks[i])
    requires RowPosition(blocks[i]) < MaxRow(Cells(blocks)) && ColumnPosition(blocks[i]) < MaxCol(Cells(blocks))
    requires forall j :: i < j < |blocks| && IsCell(blocks[j]) ==>
      !PlacedAt(blocks[j], RowPosition(blocks[i]), ColumnPosition(blocks[i]))
    ensures |BlocksGrid(blocks)| == MaxRow(Cells(blocks))
    ensures BlocksGrid(blocks)[RowPosition(blocks[i])][ColumnPosition(blocks[i])]
      == CellText(blocks[i], Lookup(blocks))
  {
    var cells := Cells(blocks);
    LaterCells(blocks, i, RowPosition(blocks[i]), ColumnPosition(blocks[i]));
    FillAtLast(cells, Lookup(blocks), MaxRow(cells), MaxCol(cells), |Cells(blocks[..i])|);
  }

  /** No Cell block at all gives the empty grid. */
  lemma BlocksGridNoCells(blocks: seq<Block>)
    requires forall b :: b in blocks ==> !IsCell(b)
    ensures BlocksGrid(blocks) == []
  {
  }

  /** No two different blocks carry the same id. */
  predicate UniqueIds(blocks: seq<Block>) {
    forall x, y :: x in blocks && y in blocks && x.id.Some? && x.id == y.id ==> x == y
  }

  /** No two different Cell blocks are placed at the same position. */
  predicate UniquePositions(blocks: seq<Block>) {
    forall x, y ::
      (x in blocks && y in blocks && IsCell(x) && IsCell(y) && PlacedAt(y, RowPosition(x), ColumnPosition(x)))
      ==> x == y
  }

  lemma LookupSameMembers(a: seq<Block>, b: seq<Block>)
    requires forall x :: x in a <==> x in b
    requires UniqueIds(a)
    ensures Lookup(a) == Lookup(b)
  {
    forall k | true
      ensures k in Lookup(a) <==> k in Lookup(b)
      ensures k in Lookup(a) ==> Lookup(a)[k] == Lookup(b)[k]
    {
      LookupMembers(a, k);
      LookupMembers(b, k);
    }
  }

  /** Filling with the same cells in another order gives the same grid when positions are unique. */
  lemma FillSameMembers(ca: seq<Block>, cb: seq<Block>, lookup: map<string, Block>, rows: nat, cols: nat)
    requires forall x :: x in ca <==> x in cb
    requires forall x, y :: (x in ca && y in ca && PlacedAt(y, RowPosition(x), ColumnPosition(x))) ==> x == y
    ensures Fill(ca, lookup, rows, cols) == Fill(cb, lookup, rows, cols)
  {
    var ga, gb := Fill(ca, lookup, rows, cols), Fill(cb, lookup, rows, cols);
    forall r, c | 0 <= r < rows && 0 <= c < cols ensures ga[r][c] == gb[r][c] {
      if x :| x in ca && PlacedAt(x, r, c) {
        FillAtUnique(ca, lookup, rows, cols, x);
        FillAtUnique(cb, lookup, rows, cols, x);
      } else {
        FillAtEmpty(ca, lookup, rows, cols, r, c);
        FillAtEmpty(cb, lookup, rows, cols, r, c);
      }
    }
    forall r | 0 <= r < rows ensures ga[r] == gb[r] { }
  }

  lemma SameMembers(a: seq<Block>, b: seq<Block>)
    requires multiset(a) == multiset(b)
    ensures forall x :: x in a <==> x in b
  {
    forall x ensures x in a <==> x in b {
      assert x in a <==> x in multiset(a);
      assert x in b <==> x in multiset(b);
    }
  }

  /**
   * Reordering the blocks does not change the grid, provided ids are unique and no two
   * different cells share a position.
   */
  lemma BlocksGridOrderIndependent(a: seq<Block>, b: seq<Block>)
    requires multiset(a) == multiset(b)
    requires UniqueIds(a) && UniquePositions(a)
    ensures BlocksGrid(a) == BlocksGrid(b)
  {
    SameMembers(a, b);
    var ca, cb := Cells(a), Cells(b);
    if ca != [] {
      assert ca[0] in cb;
      LookupSameMembers(a, b);
      MaxSameMembers(ca, cb);
      FillSameMembers(ca, cb, Lookup(a), MaxRow(ca), MaxCol(ca));
    }
  }

  const ExampleCellA := Block(Some("c1"), Some(Cell), Some(1), Some(1), None,
    Some([Relationship(Some(Child), Some(["w1"]))]))
  const ExampleCellB := Block(Some("c2"), Some(Cell), Some(1), Some(2), None,
    Some([Relationship(Some(Child), Some(["w2"]))]))
  const ExampleWordA := Block(Some("w1"), Some(Word), None, None, Some("A"), None)
  const ExampleWordB := Block(Some("w2"), Some(Word), None, None, Some("B"), None)
  const ExampleBlocks := [ExampleCellA, ExampleCellB, ExampleWordA, ExampleWordB]

  lemma ExampleCells()
    ensures Cells(ExampleBlocks) == [ExampleCellA, ExampleCellB]
  {
    var c1, c2, w1 := ExampleCellA, ExampleCellB, ExampleWordA;
    assert [c1][..0] == [];
    assert Cells([c1]) == [c1];
    assert [c1, c2][..1] == [c1];
    assert Cells([c1, c2]) == [c1, c2];
    assert [c1, c2, w1][..2] == [c1, c2];
    assert Cells([c1, c2, w1]) == [c1, c2];
    assert ExampleBlocks[..3] == [c1, c2, w1];
  }

  lemma ExampleLookup()
    ensures "w1" in Lookup(ExampleBlocks) && Lookup(ExampleBlocks)["w1"] == ExampleWordA
    ensures "w2" in Lookup(ExampleBlocks) && Lookup(ExampleBlocks)["w2"] == ExampleWordB
  {
    LookupLastWins(ExampleBlocks, 2);
    LookupLastWins(ExampleBlocks, 3);
  }

  /** A cell with one Child relationship naming one Word has that word's text. */
  lemma SingleWordText(cell: Block, id: string, lookup: map<string, Block>)
    requires cell.relationships == Some([Relationship(Some(Child), Some([id]))])
    requires id in lookup && lookup[id].blockType == Some(Word) && lookup[id].text.Some?
    ensures CellText(cell, lookup) == lookup[id].text.value
  {
    var rels := cell.relationships.value;
    assert rels[..0] == [];
    assert ChildIds(rels) == [id];
    assert [id][..0] == [];
    assert Words([id], lookup) == [lookup[id].text.value];
  }

  lemma ExampleTexts()
    ensures CellText(ExampleCellA, Lookup(ExampleBlocks)) == "A"
    ensures CellText(ExampleCellB, Lookup(ExampleBlocks)) == "B"
  {
    ExampleLookup();
    SingleWordText(ExampleCellA, "w1", Lookup(ExampleBlocks));
    SingleWordText(ExampleCellB, "w2", Lookup(ExampleBlocks));
  }

  lemma ExampleSize()
    ensures MaxRow([ExampleCellA, ExampleCellB]) == 1 && MaxCol([ExampleCellA, ExampleCellB]) == 2
  {
    var cells := [ExampleCellA, ExampleCellB];
    assert cells[..1] == [ExampleCellA] && [ExampleCellA][..0] == [];
  }

  lemma ExampleSizedFill()
    ensures BlocksGrid(ExampleBlocks) == Fill([ExampleCellA, ExampleCellB], Lookup(ExampleBlocks), 1, 2)
  {
    ExampleCells();
    ExampleSize();
  }

  lemma ExampleFilled()
    ensures Fill([ExampleCellA, ExampleCellB], Lookup(ExampleBlocks), 1, 2) == [["A", "B"]]
  {
    ExampleTexts();
    var cells := [ExampleCellA, ExampleCellB];
    var lookup := Lookup(ExampleBlocks);
    FillAtLast(cells, lookup, 1, 2, 0);
    FillAtLast(cells, lookup, 1, 2, 1);
    GridsEqual(Fill(cells, lookup, 1, 2), [["A", "B"]], 1, 2);
  }

  /** Two cells in row 1, columns 1 and 2, holding the words "A" and "B", give `[["A", "B"]]`. */
  lemma ExampleTwoCells()
    ensures BlocksGrid(ExampleBlocks) == [["A", "B"]]
  {
    ExampleSizedFill();
    ExampleFilled();
  }

  /** Placing one more cell extends the fill by one step. */
  lemma FillStep(cells: seq<Block>, k: nat, lookup: map<string, Block>, rows: nat, cols: nat)
    requires k < |cells|
    ensures Fill(cells[..k + 1], lookup, rows, cols) == Place(Fill(cells[..k], lookup, rows, cols), cells[k], lookup, rows, cols)
  {
    assert cells[..k + 1][..k] == cells[..k];
  }

  /** Two grids of the same shape that agree at every position are equal. */
  lemma GridsEqual(a: seq<seq<string>>, b: seq<seq<string>>, rows: nat, cols: nat)
    requires IsGrid(a, rows, cols) && IsGrid(b, rows, cols)
    requires forall i, j :: 0 <= i < rows && 0 <= j < cols ==> a[i][j] == b[i][j]
    ensures a == b
  {
    forall i | 0 <= i < rows ensures a[i] == b[i] {
      assert forall j :: 0 <= j < cols ==> a[i][j] == b[i][j];
    }
  }

  /** The rows of a two-dimensional buffer, top to bottom. */
  method GridRows(g: array2<string>) returns (rows: seq<seq<string>>)
    ensures IsGrid(rows, g.Length0, g.Length1)
    ensures forall i, j :: 0 <= i < g.Length0 && 0 <= j < g.Length1 ==> rows[i][j] == g[i, j]
  {
    rows := seq(g.Length0, i requires 0 <= i < g.Length0 reads g =>
      seq(g.Length1, j requires 0 <= j < g.Length1 reads g => g[i, j]));
  }

  /** One step of `parse_blocks`: write the cell's text into the buffer if its position lies inside. */
  method WriteCell(g: array2<string>, cell: Block, lookup: map<string, Block>, ghost before: seq<seq<string>>)
    requires IsGrid(before, g.Length0, g.Length1)
    requires forall i, j :: 0 <= i < g.Length0 && 0 <= j < g.Length1 ==> g[i, j] == before[i][j]
    modifies g
    ensures forall i, j :: 0 <= i < g.Length0 && 0 <= j < g.Length1 ==>
      g[i, j] == Place(before, cell, lookup, g.Length0, g.Length1)[i][j]
  {
    var row, col := RowPosition(cell), ColumnPosition(cell);
    var text := ExtractTextFromCell(cell, lookup);
    if row < g.Length0 && col < g.Length1 {
      g[row, col] := text;
    }
    forall i, j | 0 <= i < g.Length0 && 0 <= j < g.Length1 {
      PlaceAt(before, cell, lookup, g.Length0, g.Length1, i, j);
    }
  }

  /** `parse_blocks`: size the grid from the Cell blocks, then write each cell's text into it. */
  method ParseBlocks(blocks: seq<Block>) returns (grid: seq<seq<string>>)
    ensures grid == BlocksGrid(blocks)
  {
    var lookup := Lookup(blocks);
    var cells := Cells(blocks);
    if |cells| == 0 {
      return [];
    }
    var maxRow, maxCol := MaxRow(cells), MaxCol(cells);
    var g := new string[maxRow, maxCol]((i, j) => "");
    ghost var filled := Fill(cells[..0], lookup, maxRow, maxCol);
    assert cells[..0] == [];
    assert filled == Blank(maxRow, maxCol);
    assert forall i, j :: 0 <= i < maxRow && 0 <= j < maxCol ==> g[i, j] == filled[i][j];
    for k := 0 to |cells|
      invariant filled == Fill(cells[..k], lookup, maxRow, maxCol)
      invariant forall i, j :: 0 <= i < maxRow && 0 <= j < maxCol ==> g[i, j] == filled[i][j]
    {
      WriteCell(g, cells[k], lookup, filled);
      FillStep(cells, k, lookup, maxRow, maxCol);
      filled := Place(filled, cells[k], lookup, maxRow, maxCol);
    }
    assert cells[..|cells|] == cells;
    assert filled == BlocksGrid(blocks);
    grid := GridRows(g);
    GridsEqual(grid, filled, maxRow, maxCol);
  }
}
