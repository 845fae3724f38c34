/**
 * The coordinator's 20 by 20 city grid: every cell has a colour and a text
 * listing what stands there.
 */
module CityGrid {
  import opened Java

  datatype Color = Red | Green | Yellow | Blue | White

  datatype Cell = Cell(color: Color, data: JString)

  const Size: nat := 20

  /** The content of every cell of a new map. */
  const EmptyCell: Cell := Cell(White, [])

  predicate InGrid(x: int, y: int) {
    0 <= x < Size && 0 <= y < Size
  }

  class CityMap {
    const size: nat
    /** Indexed `[x, y]`. */
    const cells: array2<Cell>

    predicate Valid()
      reads this
    {
      size == Size && cells.Length0 == size && cells.Length1 == size
    }

    /** A new map: 20 by 20, every cell white and empty, filled row by row. */
    constructor()
      ensures Valid() && fresh(cells)
      ensures forall x, y | InGrid(x, y) :: cells[x, y] == EmptyCell
    {
      size := Size;
      var grid := new Cell[Size, Size];
      var row := 0;
      while row < Size
        invariant 0 <= row <= Size
        invariant forall x, y | 0 <= x < row && 0 <= y < Size :: grid[x, y] == EmptyCell
      {
        var column := 0;
        while column < Size
          invariant 0 <= column <= Size
          invariant forall x, y | 0 <= x < row && 0 <= y < Size :: grid[x, y] == EmptyCell
          invariant forall y | 0 <= y < column :: grid[row, y] == EmptyCell
        {
          grid[row, column] := EmptyCell;
          column := column + 1;
        }
        row := row + 1;
      }
      cells := grid;
    }

    /**
     * `getPosition`: the cell at (x, y); the array access throws outside
     * the grid.
     */
    function GetPosition(x: int, y: int): (r: Result<Cell>)
      requires Valid()
      reads this, cells
      ensures r.Ok? <==> InGrid(x, y)
      ensures r.Ok? ==> r.value == cells[x, y]
    {
      if InGrid(x, y) then Ok(cells[x, y]) else Throw(IndexOutOfBounds)
    }

    /**
     * `updatePosition`: inside the grid the cell at (x, y) becomes
     * (color, data); outside nothing happens. No other cell changes.
     */
    method UpdatePosition(x: int, y: int, data: JString, color: Color)
      requires Valid()
      modifies cells
      ensures Valid()
      ensures InGrid(x, y) ==> cells[x, y] == Cell(color, data)
      ensures forall i, j | InGrid(i, j) && (i, j) != (x, y) :: cells[i, j] == old(cells[i, j])
    {
      if 0 <= x < size && 0 <= y < size {
        cells[x, y] := Cell(color, data);
      }
    }
  }
}
