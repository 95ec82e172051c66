/**
 * The complex containers of ComplexArray.cs: a flat ComplexArray over a
 * `Complex[]`, a ComplexArray2D over a `Complex[,]`, and the ComplexArray1D
 * row and column views that read and write through to the shared 2-D array.
 * The element type is opaque; only its default value matters here.
 */
module ComplexArrays {
  import opened Wrappers
  import opened Quadrants

  /** System.Numerics.Complex, held but never computed with. */
  datatype Complex = Complex(re: real, im: real)

  /** default(Complex), which fills a freshly allocated array. */
  const Zero: Complex := Complex(0.0, 0.0)

  /** ComplexArray: a wrapper around one `Complex[]`. */
  class ComplexArray {
    const cells: array<Complex>

    /** `new ComplexArray(len)`: `len` default elements in a new array. */
    constructor (len: nat)
      ensures fresh(cells)
      ensures Length() == len
      ensures forall i :: 0 <= i < len ==> cells[i] == Zero
    {
      cells := new Complex[len](_ => Zero);
    }

    function Length(): nat {
      cells.Length
    }

    function Get(i: int): Complex
      requires 0 <= i < Length()
      reads cells
    {
      cells[i]
    }

    /** The indexer's setter: index `i` now holds `value`, every other index is unchanged. */
    method Set(i: int, value: Complex)
      requires 0 <= i < Length()
      modifies cells
      ensures cells[..] == old(cells[..])[i := value]
      ensures Get(i) == value
    {
      cells[i] := value;
    }
  }

  /** ComplexArray2D: a wrapper around one `Complex[,]`, handing out row and column views of it. */
  class ComplexArray2D {
    const cells: array2<Complex>

    /** `new ComplexArray2D(width, height)`: a new width-by-height array of default elements. */
    constructor (width: nat, height: nat)
      ensures fresh(cells)
      ensures GetLength(0) == Success(width) && GetLength(1) == Success(height)
      ensures forall i, j :: 0 <= i < width && 0 <= j < height ==> cells[i, j] == Zero
    {
      cells := new Complex[width, height]((_, _) => Zero);
    }

    /** Array.GetLength: the extent of dimension 0 or 1; any other dimension throws IndexOutOfRange. */
    function GetLength(dimension: int): (r: Result<nat, Exception>)
      ensures r.Success? <==> dimension == 0 || dimension == 1
      ensures r.Failure? ==> r.error == IndexOutOfRange
      ensures dimension == 0 ==> r.value == cells.Length0
      ensures dimension == 1 ==> r.value == cells.Length1
    {
      if dimension == 0 then Success(cells.Length0)
      else if dimension == 1 then Success(cells.Length1)
      else Failure(IndexOutOfRange)
    }

    function Get(i: int, j: int): Complex
      requires 0 <= i < cells.Length0 && 0 <= j < cells.Length1
      reads cells
    {
      cells[i, j]
    }

    /** The indexer's setter: cell (i, j) now holds `value`, every other cell is unchanged. */
    method Set(i: int, j: int, value: Complex)
      requires 0 <= i < cells.Length0 && 0 <= j < cells.Length1
      modifies cells
      ensures Cells(cells) == old(Cells(cells))[i := old(Cells(cells))[i][j := value]]
    {
      ghost var before := Cells(cells);
      cells[i, j] := value;
      GridsEqual(Cells(cells), before[i := before[i][j := value]], cells.Length1);
    }

    /**
     * GetRow(j): a view that shares this array; element i of it is cell (i, j),
     * and it has GetLength(0) elements.
     */
    method GetRow(j: int) returns (row: IComplexArray)
      ensures row.View? && fresh(row.view)
      ensures row.view.cells == cells && row.view.index == j && !row.view.isColumn
      ensures row.Length() == cells.Length0
      ensures 0 <= j < cells.Length1 ==> forall i :: 0 <= i < row.Length() ==> row.Get(i) == Get(i, j)
    {
      var view := new ComplexArray1D(cells, j, false);
      row := View(view);
    }

    /**
     * GetCol(i): a view that shares this array; element k of it is cell (i, k),
     * and it has GetLength(1) elements.
     */
    method GetCol(i: int) returns (col: IComplexArray)
      ensures col.View? && fresh(col.view)
      ensures col.view.cells == cells && col.view.index == i && col.view.isColumn
      ensures col.Length() == cells.Length1
      ensures 0 <= i < cells.Length0 ==> forall k :: 0 <= k < col.Length() ==> col.Get(k) == Get(i, k)
    {
      var view := new ComplexArray1D(cells, i, true);
      col := View(view);
    }
  }

  /**
   * ComplexArray2D.ComplexArray1D: one line of a shared `Complex[,]`.  A column
   * view fixes the first index to `index`, a row view fixes the second.
   */
  class ComplexArray1D {
    const cells: array2<Complex>
    const index: int
    const isColumn: bool

    /** The view keeps the array it was given, not a copy; `index` is not checked here. */
    constructor (arr: array2<Complex>, index: int, isCol: bool)
      ensures cells == arr && this.index == index && isColumn == isCol
    {
      cells := arr;
      this.index := index;
      isColumn := isCol;
    }

    function Length(): nat {
      if isColumn then cells.Length1 else cells.Length0
    }

    /** The cell of the shared array that element `i` of the view stands for. */
    function Cell(i: int): (int, int) {
      if isColumn then (index, i) else (i, index)
    }

    /** Element `i` can be read or written without an IndexOutOfRange: both coordinates of its cell are in range. */
    predicate Addressable(i: int) {
      0 <= Cell(i).0 < cells.Length0 && 0 <= Cell(i).1 < cells.Length1
    }

    function Get(i: int): (r: Complex)
      requires Addressable(i)
      reads cells
      ensures r == cells[Cell(i).0, Cell(i).1]
    {
      if isColumn then cells[index, i] else cells[i, index]
    }

    /** The indexer's setter: exactly the one cell behind element `i` of the shared array changes. */
    method Set(i: int, value: Complex)
      requires Addressable(i)
      modifies cells
      ensures cells[Cell(i).0, Cell(i).1] == value
      ensures forall r, c :: 0 <= r < cells.Length0 && 0 <= c < cells.Length1 && (r, c) != Cell(i) ==>
        cells[r, c] == old(cells[r, c])
    {
      if isColumn {
        cells[index, i] := value;
      } else {
        cells[i, index] := value;
      }
    }
  }

  /** IComplexArray: either a flat ComplexArray or a line view of a 2-D array. */
  datatype IComplexArray = Flat(flat: ComplexArray) | View(view: ComplexArray1D) {
    /** The array the elements live in. */
    function Repr(): set<object> {
      if Flat? then {flat.cells} else {view.cells}
    }

    function Length(): nat {
      if Flat? then flat.Length() else view.Length()
    }

    predicate Addressable(i: int) {
      if Flat? then 0 <= i < flat.Length() else view.Addressable(i)
    }

    function Get(i: int): Complex
      requires Addressable(i)
      reads Repr()
    {
      if Flat? then flat.Get(i) else view.Get(i)
    }

    /** The interface's setter: element `i` now holds `value` and every other element keeps its value. */
    method Set(i: int, value: Complex)
      requires Addressable(i)
      modifies Repr()
      ensures Get(i) == value
      ensures forall k :: Addressable(k) && k != i ==> Get(k) == old(Get(k))
    {
      if Flat? {
        flat.Set(i, value);
      } else {
        view.Set(i, value);
      }
    }
  }

  /**
   * ComplexArrayHelpers.Clone: a new flat ComplexArray of the same length,
   * copied element by element.  Only a view whose elements all exist can be
   * read to the end without an IndexOutOfRange.
   */
  method Clone(input: IComplexArray) returns (output: IComplexArray)
    requires forall i :: 0 <= i < input.Length() ==> input.Addressable(i)
    ensures output.Flat? && fresh(output.flat) && fresh(output.flat.cells)
    ensures output.Length() == input.Length()
    ensures forall i :: 0 <= i < input.Length() ==> output.Get(i) == input.Get(i)
  {
    var copy := new ComplexArray(input.Length());
    output := Flat(copy);
    for i := 0 to input.Length()
      invariant forall k :: 0 <= k < i ==> copy.cells[k] == input.Get(k)
    {
      copy.Set(i, input.Get(i));
    }
  }

  /**
   * A clone is detached from its input: writing to the clone leaves every
   * element of the input as it was, whether the input is flat or a view.
   */
  method CloneIsDetached(input: IComplexArray, i: int, value: Complex) returns (output: IComplexArray)
    requires forall k :: 0 <= k < input.Length() ==> input.Addressable(k)
    requires 0 <= i < input.Length()
    ensures output.Flat? && output.Length() == input.Length() && output.Get(i) == value
    ensures forall k :: 0 <= k < input.Length() ==> input.Get(k) == old(input.Get(k))
  {
    output := Clone(input);
    output.Set(i, value);
  }

  /**
   * A write through a row view shows up in the 2-D indexer and in the column
   * view that crosses it, and in no other cell.
   */
  method RowWriteIsShared(a: ComplexArray2D, i: int, j: int, value: Complex)
    requires 0 <= i < a.cells.Length0 && 0 <= j < a.cells.Length1
    modifies a.cells
    ensures a.Get(i, j) == value
    ensures forall r, c :: 0 <= r < a.cells.Length0 && 0 <= c < a.cells.Length1 && (r, c) != (i, j) ==>
      a.Get(r, c) == old(a.Get(r, c))
  {
    var row := a.GetRow(j);
    var col := a.GetCol(i);
    row.view.Set(i, value);
    assert col.Get(j) == value;
  }

  /** A row view and a column view of the same array meet in exactly one cell, and read the same value there. */
  lemma ViewsCross(row: ComplexArray1D, col: ComplexArray1D, i: int, j: int)
    requires row.cells == col.cells && !row.isColumn && col.isColumn
    requires row.index == j && col.index == i
    requires row.Addressable(i)
    ensures col.Addressable(j)
    ensures row.Get(i) == col.Get(j) == row.cells[i, j]
  {
  }
}
