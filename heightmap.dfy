/**
 * The terrain heightmap: a width x height grid of elevations kept in one flat
 * buffer in row-major order, so cell (x, y) lives at index y * width + x.
 * Elevations are 32-bit floats in the program; they are only stored and
 * copied here, never computed with, so reals stand in for them.
 */
module Heightmaps {

  // ---------------------------------------------------------------------------
  // Row-major index arithmetic

  lemma MulMonotone(a: nat, b: nat, c: nat)
    requires a <= b
    ensures a * c <= b * c
  {
    var d := b - a;
    assert b * c == a * c + d * c;
  }

  lemma MulSucc(a: nat, c: nat)
    ensures (a + 1) * c == a * c + c
  {
  }

  /** Every cell of the grid has a flat index inside the buffer. */
  lemma CellIndexInBounds(x: nat, y: nat, width: nat, height: nat)
    requires x < width && y < height
    ensures y * width + x < width * height
  {
    MulSucc(y, width);
    MulMonotone(y + 1, height, width);
    assert height * width == width * height;
  }

  /** The flat index of cell (x, y): y * width + x. */
  function CellIndex(x: nat, y: nat, width: nat, height: nat): (i: nat)
    requires x < width && y < height
    ensures i < width * height
  {
    CellIndexInBounds(x, y, width, height);
    y * width + x
  }

  /** Distinct cells have distinct flat indices. */
  lemma CellIndexInjective(x1: nat, y1: nat, x2: nat, y2: nat, width: nat)
    requires x1 < width && x2 < width
    requires y1 * width + x1 == y2 * width + x2
    ensures x1 == x2 && y1 == y2
  {
    if y1 < y2 {
      MulSucc(y1, width);
      MulMonotone(y1 + 1, y2, width);
    } else if y2 < y1 {
      MulSucc(y2, width);
      MulMonotone(y2 + 1, y1, width);
    }
  }

  /** Flat index i is the cell (i mod width, i div width), and that cell lies in the grid. */
  lemma FlatIndexIsCell(i: nat, width: nat, height: nat)
    requires i < width * height
    ensures width > 0
    ensures i % width < width && i / width < height
    ensures (i / width) * width + i % width == i
  {
    var q := i / width;
    if q >= height {
      MulMonotone(height, q, width);
    }
  }

  class Heightmap {
    const width: nat
    const height: nat
    /** The flat row-major buffer; `data()` hands it out for direct reads and writes. */
    const data: array<real>

    ghost predicate Valid()
      reads this
    {
      data.Length == width * height
    }

    /** A heightmap of the given dimensions with every cell at elevation 0. */
    constructor(width: nat, height: nat)
      ensures this.width == width && this.height == height
      ensures Valid() && fresh(data)
      ensures forall i :: 0 <= i < data.Length ==> data[i] == 0.0
    {
      this.width := width;
      this.height := height;
      data := new real[width * height](_ => 0.0);
    }

    /** The number of cells, which is width times height. */
    function Size(): (n: nat)
      requires Valid()
      reads this
      ensures n == width * height
    {
      data.Length
    }

    /** The buffer's contents, as `data()` shows them. */
    function Cells(): (cells: seq<real>)
      reads this, data
      ensures |cells| == data.Length
    {
      data[..]
    }

    /** The elevation of cell (x, y); there is no bounds check, so the cell must lie in the grid. */
    function At(x: nat, y: nat): real
      requires Valid() && x < width && y < height
      reads this, data
    {
      data[CellIndex(x, y, width, height)]
    }

    /** Writing cell (x, y): that cell reads back the value, every other cell keeps its elevation. */
    method Set(x: nat, y: nat, value: real)
      requires Valid() && x < width && y < height
      modifies data
      ensures At(x, y) == value
      ensures forall x': nat, y': nat :: x' < width && y' < height && (x' != x || y' != y) ==> At(x', y') == old(At(x', y'))
      ensures Cells() == old(Cells())[CellIndex(x, y, width, height) := value]
    {
      data[CellIndex(x, y, width, height)] := value;
      forall x': nat, y': nat | x' < width && y' < height && (x' != x || y' != y)
        ensures At(x', y') == old(At(x', y'))
      {
        if CellIndex(x', y', width, height) == CellIndex(x, y, width, height) {
          CellIndexInjective(x', y', x, y, width);
        }
      }
    }

    /** A write through the buffer at flat index i, seen by `At` as cell (i mod width, i div width). */
    method SetFlat(i: nat, value: real)
      requires Valid() && i < data.Length
      modifies data
      ensures Cells() == old(Cells())[i := value]
      ensures width > 0 && i % width < width && i / width < height && At(i % width, i / width) == value
    {
      FlatIndexIsCell(i, width, height);
      data[i] := value;
    }

    /** Every cell takes the value; the dimensions stay as they were. */
    method Fill(value: real)
      requires Valid()
      modifies data
      ensures forall i :: 0 <= i < data.Length ==> data[i] == value
      ensures forall x: nat, y: nat :: x < width && y < height ==> At(x, y) == value
    {
      for i := 0 to data.Length
        invariant forall k :: 0 <= k < i ==> data[k] == value
      {
        data[i] := value;
      }
    }

    /** The buffer takes the given contents, cell for cell; used for writes made by code outside this model. */
    method Load(cells: seq<real>)
      requires Valid() && |cells| == data.Length
      modifies data
      ensures Cells() == cells
    {
      for i := 0 to data.Length
        invariant forall k :: 0 <= k < i ==> data[k] == cells[k]
      {
        data[i] := cells[i];
      }
    }
  }
}
