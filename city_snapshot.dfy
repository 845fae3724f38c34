/**
 * The snapshot of the city the coordinator broadcasts: a new grid on which
 * every location, then every customer, then every taxi is drawn. Drawing
 * appends the identifier to the cell's text, separated by ", ", and gives
 * the cell the drawer's colour.
 */
module CitySnapshot {
  import opened Java
  import opened Entities
  import opened CityGrid

  /** ", " */
  const Separator: JString := [0x2C, 0x20]

  /** Something drawn on the grid: an identifier, a position and a colour. */
  datatype Marker = Marker(identifier: JString, x: int, y: int, color: Color)

  /** Locations are drawn yellow. */
  function LocationMarkers(locations: seq<Location>): (r: seq<Marker>)
    ensures |r| == |locations|
    ensures forall i | 0 <= i < |r| ::
      r[i] == Marker(locations[i].identifier, locations[i].x, locations[i].y, Yellow)
  {
    seq(|locations|, i requires 0 <= i < |locations| =>
      Marker(locations[i].identifier, locations[i].x, locations[i].y, Yellow))
  }

  /** Customers are drawn blue. */
  function CustomerMarkers(customers: seq<Customer>): (r: seq<Marker>)
    ensures |r| == |customers|
    ensures forall i | 0 <= i < |r| ::
      r[i] == Marker(customers[i].identifier, customers[i].x, customers[i].y, Blue)
  {
    seq(|customers|, i requires 0 <= i < |customers| =>
      Marker(customers[i].identifier, customers[i].x, customers[i].y, Blue))
  }

  /** Taxis are drawn red when stopped and green otherwise. */
  function TaxiMarkers(taxis: seq<Taxi>): (r: seq<Marker>)
    ensures |r| == |taxis|
    ensures forall i | 0 <= i < |r| ::
      r[i].identifier == taxis[i].identifier && r[i].x == taxis[i].x && r[i].y == taxis[i].y &&
      (r[i].color == Red <==> taxis[i].state == Stopped) &&
      (r[i].color == Green <==> taxis[i].state != Stopped)
  {
    seq(|taxis|, i requires 0 <= i < |taxis| =>
      Marker(taxis[i].identifier, taxis[i].x, taxis[i].y, if taxis[i].state == Stopped then Red else Green))
  }

  /** One marker drawn on its cell: the identifier is appended, with a separator unless the cell is empty. */
  function Drawn(cell: Cell, m: Marker): Cell {
    Cell(m.color, if cell.data == [] then m.identifier else cell.data + Separator + m.identifier)
  }

  /** Cell (x, y), starting from `base`, after `markers` are drawn in order. */
  function Painted(base: Cell, markers: seq<Marker>, x: int, y: int): Cell {
    if |markers| == 0 then base
    else
      var before := Painted(base, markers[..|markers| - 1], x, y);
      var m := markers[|markers| - 1];
      if m.x == x && m.y == y then Drawn(before, m) else before
  }

  /** The markers that stand on (x, y), in drawing order. */
  function MarkersAt(markers: seq<Marker>, x: int, y: int): (r: seq<Marker>)
    ensures |r| <= |markers|
  {
    if |markers| == 0 then []
    else
      var m := markers[|markers| - 1];
      MarkersAt(markers[..|markers| - 1], x, y) + (if m.x == x && m.y == y then [m] else [])
  }

  function Identifiers(markers: seq<Marker>): (r: seq<JString>)
    ensures |r| == |markers|
    ensures forall i | 0 <= i < |r| :: r[i] == markers[i].identifier
  {
    seq(|markers|, i requires 0 <= i < |markers| => markers[i].identifier)
  }

  /** The identifiers separated by ", ". */
  function Listed(identifiers: seq<JString>): JString {
    if |identifiers| == 0 then []
    else if |identifiers| == 1 then identifiers[0]
    else Listed(identifiers[..|identifiers| - 1]) + Separator + identifiers[|identifiers| - 1]
  }

  lemma {:induction false} ListedEmpty(identifiers: seq<JString>)
    requires forall i | 0 <= i < |identifiers| :: identifiers[i] != []
    ensures Listed(identifiers) == [] <==> identifiers == []
  {
    if |identifiers| > 1 {
      assert |Listed(identifiers)| >= |Separator|;
    }
  }

  /**
   * On an empty cell, drawing lists the identifiers of the markers on that
   * cell, in drawing order and separated by ", ", as long as no identifier
   * is empty; the cell keeps the colour of the last marker drawn on it, and
   * stays white when none is.
   */
  lemma {:induction false} PaintedLists(markers: seq<Marker>, x: int, y: int)
    requires forall i | 0 <= i < |markers| :: markers[i].identifier != []
    ensures var at := MarkersAt(markers, x, y);
      Painted(EmptyCell, markers, x, y) ==
        Cell(if at == [] then White else at[|at| - 1].color, Listed(Identifiers(at)))
  {
    if |markers| > 0 {
      var n := |markers| - 1;
      var m := markers[n];
      PaintedLists(markers[..n], x, y);
      if m.x == x && m.y == y {
        var before := MarkersAt(markers[..n], x, y);
        var cell := Painted(EmptyCell, markers[..n], x, y);
        assert MarkersAt(markers, x, y) == before + [m];
        assert Painted(EmptyCell, markers, x, y) == Drawn(cell, m);
        IdentifiersAppend(before, m);
        var ids := Identifiers(before) + [m.identifier];
        assert Identifiers(MarkersAt(markers, x, y)) == ids;
        assert cell.data == Listed(Identifiers(before));
        if before == [] {
          assert ids == [m.identifier];
          assert Drawn(cell, m) == Cell(m.color, Listed(ids));
        } else {
          MarkersAtNamed(markers[..n], x, y);
          ListedEmpty(Identifiers(before));
          assert ids[..|ids| - 1] == Identifiers(before);
          assert Listed(ids) == cell.data + Separator + m.identifier;
          assert Drawn(cell, m) == Cell(m.color, Listed(ids));
        }
        assert MarkersAt(markers, x, y)[|MarkersAt(markers, x, y)| - 1] == m;
      } else {
        assert MarkersAt(markers, x, y) == MarkersAt(markers[..n], x, y);
        assert Painted(EmptyCell, markers, x, y) == Painted(EmptyCell, markers[..n], x, y);
      }
    }
  }

  lemma IdentifiersAppend(markers: seq<Marker>, m: Marker)
    ensures Identifiers(markers + [m]) == Identifiers(markers) + [m.identifier]
  {
  }

  /** The markers on a cell are among those drawn, so their identifiers are not empty either. */
  lemma {:induction false} MarkersAtNamed(markers: seq<Marker>, x: int, y: int)
    requires forall i | 0 <= i < |markers| :: markers[i].identifier != []
    ensures forall i | 0 <= i < |MarkersAt(markers, x, y)| :: MarkersAt(markers, x, y)[i].identifier != []
  {
    if |markers| > 0 {
      var n := |markers| - 1;
      var m := markers[n];
      MarkersAtNamed(markers[..n], x, y);
      var before := MarkersAt(markers[..n], x, y);
      var at := MarkersAt(markers, x, y);
      assert at == before + (if m.x == x && m.y == y then [m] else []);
      forall i | 0 <= i < |at| ensures at[i].identifier != [] {
        if i < |before| {
          assert at[i] == before[i];
        } else {
          assert at[i] == markers[n];
        }
      }
    }
  }

  /** Drawing one sequence after another is drawing their concatenation. */
  lemma {:induction false} PaintedAppend(base: Cell, a: seq<Marker>, b: seq<Marker>, x: int, y: int)
    ensures Painted(base, a + b, x, y) == Painted(Painted(base, a, x, y), b, x, y)
    decreases |b|
  {
    if |b| == 0 {
      assert a + b == a;
    } else {
      var n := |b| - 1;
      assert (a + b)[..|a + b| - 1] == a + b[..n];
      PaintedAppend(base, a, b[..n], x, y);
    }
  }

  predicate Outside(m: Marker) {
    !InGrid(m.x, m.y)
  }

  /**
   * Draws `markers` in order on `grid`, reading each cell before writing it
   * as the loops of `populateMap` do; the read of a cell outside the grid
   * throws, after the markers before it have been drawn.
   */
  method Plot(grid: CityMap, markers: seq<Marker>) returns (r: Result<()>)
    requires grid.Valid()
    modifies grid.cells
    ensures grid.Valid()
    ensures var k := FirstIndex(markers, Outside);
      (k < 0 ==> r == Ok(())) && (k >= 0 ==> r == Throw(IndexOutOfBounds)) &&
      forall x, y | InGrid(x, y) ::
        grid.cells[x, y] == Painted(old(grid.cells[x, y]), if k < 0 then markers else markers[..k], x, y)
  {
    var i := 0;
    while i < |markers|
      invariant 0 <= i <= |markers|
      invariant forall j | 0 <= j < i :: !Outside(markers[j])
      invariant forall x, y | InGrid(x, y) :: grid.cells[x, y] == Painted(old(grid.cells[x, y]), markers[..i], x, y)
    {
      var drawn := Draw(grid, markers[i]);
      if drawn.Throw? {
        FirstIndexIs(markers, Outside, i);
        return drawn;
      }
      forall x, y | InGrid(x, y)
        ensures grid.cells[x, y] == Painted(old(grid.cells[x, y]), markers[..i + 1], x, y)
      {
        assert markers[..i + 1][..i] == markers[..i];
      }
      i := i + 1;
    }
    assert markers[..i] == markers;
    r := Ok(());
  }

  /**
   * One marker drawn: its cell is read and written back with the identifier
   * appended and the marker's colour; outside the grid the read throws and
   * nothing changes.
   */
  method Draw(grid: CityMap, m: Marker) returns (r: Result<()>)
    requires grid.Valid()
    modifies grid.cells
    ensures grid.Valid()
    ensures r == if Outside(m) then Throw(IndexOutOfBounds) else Ok(())
    ensures forall x, y | InGrid(x, y) ::
      grid.cells[x, y] == if x == m.x && y == m.y then Drawn(old(grid.cells[x, y]), m) else old(grid.cells[x, y])
  {
    var current := grid.GetPosition(m.x, m.y);
    if current.Throw? {
      return Throw(current.error);
    }
    var content := if current.value.data == [] then m.identifier else current.value.data + Separator + m.identifier;
    grid.UpdatePosition(m.x, m.y, content, m.color);
    r := Ok(());
  }
}
