/**
  Typed extraction from a loosely typed instance or engine result: integer
  scalars, integer vectors, and integer or boolean matrices of a declared
  shape. A matrix may come nested (a list of row lists) or flat (the
  row-major payload the DZN reader leaves for array2d), and is reshaped in
  the second case.
*/
module Extract {
  import opened Wrappers
  import opened Text
  import opened PyValues
  import opened Errors

  type Data = map<string, Value>

  function Max0(n: int): nat {
    if n < 0 then 0 else n
  }

  // ---------------------------------------------------------------------
  // Scalars and vectors

  /** _require_int: a missing key is reported by name; otherwise int() of
      the stored value, or an error naming the key when int() fails. */
  function RequireInt(data: Data, key: string): (r: Result<int, Error>)
    ensures r.Success? <==> key in data && PyInt(data[key]).Some?
    ensures r.Success? ==> PyInt(data[key]) == Some(r.value)
    ensures key !in data ==> r == Failure(MissingKey(key))
    ensures key in data && r.Failure? ==> r.error == NotAnInteger(key)
    ensures r.Failure? ==> r.error.Class() == ValueError
  {
    if key !in data then Failure(MissingKey(key))
    else match PyInt(data[key])
      case Some(n) => Success(n)
      case None => Failure(NotAnInteger(key))
  }

  /** [int(x) for x in xs]: all of them, or None as soon as one fails. */
  function IntsOf(xs: seq<Value>): (r: Option<seq<int>>)
    ensures r.Some? <==> forall k :: 0 <= k < |xs| ==> PyInt(xs[k]).Some?
    ensures r.Some? ==> |r.value| == |xs| && forall k :: 0 <= k < |xs| ==> PyInt(xs[k]) == Some(r.value[k])
    decreases |xs|
  {
    if xs == [] then Some([])
    else match (PyInt(xs[0]), IntsOf(xs[1..]))
      case (Some(n), Some(ns)) => Some([n] + ns)
      case _ => None
  }

  /** _require_1d_int: the stored value must be a list of exactly size
      entries, each accepted by int(); the errors name the key. */
  function Require1dInt(data: Data, key: string, size: int): (r: Result<seq<int>, Error>)
    ensures r.Success? <==>
      key in data && data[key].VList? && |data[key].items| == size &&
      forall k :: 0 <= k < size ==> PyInt(data[key].items[k]).Some?
    ensures r.Success? ==>
      |r.value| == size && forall k :: 0 <= k < size ==> PyInt(data[key].items[k]) == Some(r.value[k])
    ensures key !in data ==> r == Failure(MissingKey(key))
    ensures key in data && !data[key].VList? ==> r == Failure(NotAList(key))
    ensures key in data && data[key].VList? && |data[key].items| != size ==> r == Failure(WrongLength(key, size))
    ensures r.Failure? ==> r.error.Class() == ValueError
  {
    if key !in data then Failure(MissingKey(key))
    else match data[key]
      case VList(xs) =>
        if |xs| != size then Failure(WrongLength(key, size))
        else (
          match IntsOf(xs)
          case Some(ns) => Success(ns)
          case None => Failure(NotIntegers(key)))
      case _ => Failure(NotAList(key))
  }

  // ---------------------------------------------------------------------
  // Booleans

  /** _parse_bool: a bool as it is; a number by int() truncation then != 0;
      a string by its stripped lower-case spelling; anything else fails. */
  function ParseBool(x: Value): (r: Result<bool, Error>)
    ensures x.VBool? ==> r == Success(x.b)
    ensures x.VInt? ==> r == Success(x.i != 0)
    ensures x.VFloat? ==> r == Success(Truncate(x.num, x.den) != 0)
    ensures x.VStr? ==>
      && (r == Success(true) <==> Lower(Strip(x.s)) in {"true", "t", "1"})
      && (r == Success(false) <==> Lower(Strip(x.s)) in {"false", "f", "0"})
    ensures r.Success? <==>
      x.VBool? || x.VInt? || x.VFloat? ||
      (x.VStr? && Lower(Strip(x.s)) in {"true", "t", "1", "false", "f", "0"})
    ensures r.Failure? ==> r.error == NotABoolean(x)
  {
    match x
    case VBool(b) => Success(b)
    case VInt(i) => Success(i != 0)
    case VFloat(n, d) => Success(Truncate(n, d) != 0)
    case VStr(s) =>
      (match BoolWord(Lower(Strip(s)))
       case Some(b) => Success(b)
       case None => Failure(NotABoolean(x)))
    case _ => Failure(NotABoolean(x))
  }

  /** The spellings _parse_bool accepts once stripped and lower-cased. */
  function BoolWord(t: string): (r: Option<bool>)
    ensures r == Some(true) <==> t in {"true", "t", "1"}
    ensures r == Some(false) <==> t in {"false", "f", "0"}
    ensures r.Some? <==> t in {"true", "t", "1", "false", "f", "0"}
  {
    if t in {"true", "t", "1"} then
      assert t !in {"false", "f", "0"} by {
        if |t| == 1 { assert t[0] == 't' || t[0] == '1'; }
      }
      Some(true)
    else if t in {"false", "f", "0"} then Some(false)
    else None
  }

  // ---------------------------------------------------------------------
  // Matrices

  /** isinstance(mat, list) and mat and all(isinstance(r, list) for r in mat) */
  predicate IsNested(v: Value) {
    v.VList? && v.items != [] && forall k :: 0 <= k < |v.items| ==> v.items[k].VList?
  }

  /** len(mat) == rows and every row has exactly cols entries. */
  predicate HasShape(mat: seq<Value>, rows: int, cols: int) {
    |mat| == rows && forall k :: 0 <= k < |mat| ==> mat[k].VList? && |mat[k].items| == cols
  }

  /** The cells of a flat list converted one at a time in order, the first
      failure ending the conversion. */
  function ConvertAll<T>(vs: seq<Value>, conv: Value -> Result<T, Error>): Result<seq<T>, Error>
    decreases |vs|
  {
    if vs == [] then Success([])
    else match conv(vs[0])
      case Failure(e) => Failure(e)
      case Success(x) =>
        match ConvertAll(vs[1..], conv)
        case Failure(e) => Failure(e)
        case Success(xs) => Success([x] + xs)
  }

  /** The conversion succeeds exactly when every cell converts, and then
      holds each cell's converted value at the cell's position. */
  lemma {:induction false} ConvertAllSpec<T>(vs: seq<Value>, conv: Value -> Result<T, Error>)
    ensures ConvertAll(vs, conv).Success? <==> forall k :: 0 <= k < |vs| ==> conv(vs[k]).Success?
    ensures ConvertAll(vs, conv).Success? ==>
      |ConvertAll(vs, conv).value| == |vs| &&
      forall k :: 0 <= k < |vs| ==> conv(vs[k]) == Success(ConvertAll(vs, conv).value[k])
    decreases |vs|
  {
    if vs != [] {
      ConvertAllSpec(vs[1..], conv);
      assert forall j :: 1 <= j < |vs| ==> vs[j] == vs[1..][j - 1];
    }
  }

  /** A successful conversion has one value per cell. */
  lemma {:induction false} ConvertAllLength<T>(vs: seq<Value>, conv: Value -> Result<T, Error>)
    ensures ConvertAll(vs, conv).Success? ==> |ConvertAll(vs, conv).value| == |vs|
    decreases |vs|
  {
    if vs != [] {
      ConvertAllLength(vs[1..], conv);
    }
  }

  /** Cell k of a successful conversion is that cell converted. */
  lemma CellConverted<T>(vs: seq<Value>, conv: Value -> Result<T, Error>, k: nat)
    requires ConvertAll(vs, conv).Success? && k < |vs|
    ensures k < |ConvertAll(vs, conv).value| && conv(vs[k]) == Success(ConvertAll(vs, conv).value[k])
  {
    ConvertAllSpec(vs, conv);
  }

  /** A failed conversion reports the error of the first failing cell. */
  lemma {:induction false} ConvertAllFirstFailure<T>(vs: seq<Value>, conv: Value -> Result<T, Error>)
    ensures ConvertAll(vs, conv).Failure? ==>
      exists k :: 0 <= k < |vs| && conv(vs[k]) == Failure(ConvertAll(vs, conv).error) &&
                  forall j :: 0 <= j < k ==> conv(vs[j]).Success?
    decreases |vs|
  {
    if vs != [] && conv(vs[0]).Success? && ConvertAll(vs, conv).Failure? {
      ConvertAllFirstFailure(vs[1..], conv);
      var k :| 0 <= k < |vs| - 1 && conv(vs[1..][k]) == Failure(ConvertAll(vs[1..], conv).error) &&
               forall j :: 0 <= j < k ==> conv(vs[1..][j]).Success?;
      assert conv(vs[k + 1]) == Failure(ConvertAll(vs, conv).error);
      assert forall j :: 0 <= j < k + 1 ==> conv(vs[j]).Success? by {
        forall j | 0 <= j < k + 1 ensures conv(vs[j]).Success? {
          if j > 0 { assert vs[j] == vs[1..][j - 1]; }
        }
      }
    }
  }

  /** Converting a + b: a's failure if a fails, else b's failure if b fails,
      else the two conversions joined. */
  lemma {:induction false} ConvertAllAppend<T>(a: seq<Value>, b: seq<Value>, conv: Value -> Result<T, Error>)
    ensures ConvertAll(a + b, conv) ==
      match ConvertAll(a, conv)
      case Failure(e) => Failure(e)
      case Success(xs) =>
        match ConvertAll(b, conv)
        case Failure(e) => Failure(e)
        case Success(ys) => Success(xs + ys)
    decreases |a|
  {
    if a == [] {
      assert a + b == b;
      assert ConvertAll(a, conv) == Success([]);
      if ConvertAll(b, conv).Success? {
        assert [] + ConvertAll(b, conv).value == ConvertAll(b, conv).value;
      }
    } else {
      var ab := a + b;
      assert ab[0] == a[0];
      assert ab[1..] == a[1..] + b;
      ConvertAllAppend(a[1..], b, conv);
      match conv(a[0])
      case Failure(e) =>
      case Success(x) =>
        var ra, rb := ConvertAll(a[1..], conv), ConvertAll(b, conv);
        if ra.Success? && rb.Success? {
          assert [x] + (ra.value + rb.value) == ([x] + ra.value) + rb.value;
        }
    }
  }

  lemma {:induction false} MulNonneg(a: int, b: int)
    requires a >= 0 && b >= 0
    ensures a * b >= 0
    decreases a
  {
    if a > 0 {
      MulNonneg(a - 1, b);
      assert a * b == (a - 1) * b + b;
    }
  }

  lemma MulBounds(i: int, rows: int, cols: int)
    requires 0 <= i < rows && cols >= 0
    ensures 0 <= i * cols && i * cols + cols <= rows * cols
  {
    MulNonneg(i, cols);
    MulNonneg(rows - i - 1, cols);
    assert (rows - i - 1) * cols == rows * cols - i * cols - cols;
  }

  lemma CellIndexBounds(i: int, j: int, rows: int, cols: int)
    requires 0 <= i < rows && 0 <= j < cols
    ensures 0 <= i * cols + j < rows * cols
  {
    MulBounds(i, rows, cols);
  }

  /** The rows x cols matrix read row-major from xs, built row by row:
      the last cols entries are the last row. */
  function Chunks<T>(xs: seq<T>, rows: nat, cols: nat): (m: seq<seq<T>>)
    requires |xs| == rows * cols
    ensures |m| == rows && forall i :: 0 <= i < rows ==> |m[i]| == cols
    decreases rows
  {
    if rows == 0 then []
    else
      assert (rows - 1) * cols == rows * cols - cols;
      Chunks(xs[..|xs| - cols], rows - 1, cols) + [xs[|xs| - cols..]]
  }

  /** Cell (i, j) of the reshaped matrix is entry i * cols + j of xs. */
  lemma {:induction false} ChunksCell<T>(xs: seq<T>, rows: nat, cols: nat, i: nat, j: nat)
    requires |xs| == rows * cols && i < rows && j < cols
    ensures i * cols + j < |xs| && Chunks(xs, rows, cols)[i][j] == xs[i * cols + j]
    decreases rows
  {
    MulBounds(i, rows, cols);
    assert (rows - 1) * cols == rows * cols - cols;
    if i < rows - 1 {
      MulBounds(i, rows - 1, cols);
      ChunksCell(xs[..|xs| - cols], rows - 1, cols, i, j);
    } else {
      assert i * cols == |xs| - cols;
    }
  }

  lemma ChunksSnoc<T>(xs: seq<T>, row: seq<T>, i: nat, cols: nat)
    requires |xs| == i * cols && |row| == cols
    ensures |xs + row| == (i + 1) * cols
    ensures Chunks(xs + row, i + 1, cols) == Chunks(xs, i, cols) + [row]
  {
    assert (i + 1) * cols == i * cols + cols;
    var ys := xs + row;
    assert ys[..|ys| - cols] == xs;
    assert ys[|ys| - cols..] == row;
  }

  /** A row-major flat list read as a rows x cols matrix: no matrix when
      rows <= 0, otherwise every cell converted in order, the first failure
      ending the read. */
  function Reshaped<T>(flat: seq<Value>, rows: int, cols: int, conv: Value -> Result<T, Error>)
    : (r: Result<seq<seq<T>>, Error>)
    requires rows * cols == |flat|
  {
    if rows <= 0 then Success([])
    else
      assert cols >= 0;
      ConvertAllLength(flat, conv);
      match ConvertAll(flat, conv)
      case Failure(e) => Failure(e)
      case Success(xs) => Success(Chunks(xs, rows, cols))
  }

  /** Converting a prefix of flat and then the next n cells is converting
      the longer prefix; a failure in the n cells is the failure of the
      whole of flat. */
  lemma ConvertNext<T>(flat: seq<Value>, idx: nat, n: nat, conv: Value -> Result<T, Error>)
    requires idx + n <= |flat| && ConvertAll(flat[..idx], conv).Success?
    ensures ConvertAll(flat[idx..idx + n], conv).Success? ==>
      ConvertAll(flat[..idx + n], conv) ==
        Success(ConvertAll(flat[..idx], conv).value + ConvertAll(flat[idx..idx + n], conv).value)
    ensures ConvertAll(flat[idx..idx + n], conv).Failure? ==>
      ConvertAll(flat, conv) == ConvertAll(flat[idx..idx + n], conv)
  {
    var done, next, upto := flat[..idx], flat[idx..idx + n], flat[..idx + n];
    assert done + next == upto;
    ConvertAllAppend(done, next, conv);
    if ConvertAll(next, conv).Failure? {
      var rest := flat[idx + n..];
      assert ConvertAll(upto, conv) == ConvertAll(next, conv);
      assert upto + rest == flat;
      ConvertAllAppend(upto, rest, conv);
    }
  }

  /** Cell (i, j) of a successful reshaping is entry i * cols + j of the
      flat list, converted. */
  lemma ReshapedCell<T>(flat: seq<Value>, rows: int, cols: int, conv: Value -> Result<T, Error>, i: nat, j: nat)
    requires rows * cols == |flat| && Reshaped(flat, rows, cols, conv).Success?
    requires i < rows && j < cols
    ensures i * cols + j < |flat| && i < |Reshaped(flat, rows, cols, conv).value|
    ensures j < |Reshaped(flat, rows, cols, conv).value[i]|
    ensures conv(flat[i * cols + j]) == Success(Reshaped(flat, rows, cols, conv).value[i][j])
  {
    ConvertAllLength(flat, conv);
    var xs := ConvertAll(flat, conv).value;
    ChunksCell(xs, rows, cols, i, j);
    CellConverted(flat, conv, i * cols + j);
  }

  /** The flat branch of _require_2d_int and _require_2d_bool: for each of
      the rows rows, convert the next cols cells and advance the cursor. */
  method ReshapeFlat<T>(flat: seq<Value>, rows: int, cols: int, conv: Value -> Result<T, Error>)
    returns (r: Result<seq<seq<T>>, Error>)
    requires rows * cols == |flat|
    ensures r == Reshaped(flat, rows, cols, conv)
  {
    if rows <= 0 {
      return Success([]);
    }
    assert cols >= 0;
    var out: seq<seq<T>> := [];
    var idx := 0;
    ghost var done: seq<T> := [];
    for i := 0 to rows
      invariant idx == i * cols && idx <= |flat|
      invariant ConvertAll(flat[..idx], conv) == Success(done)
      invariant |done| == i * cols && out == Chunks(done, i, cols)
    {
      MulBounds(i, rows, cols);
      var row := ConvertAll(flat[idx..idx + cols], conv);
      ConvertNext(flat, idx, cols, conv);
      if row.Failure? {
        return Failure(row.error);
      }
      ConvertAllLength(flat[idx..idx + cols], conv);
      ChunksSnoc(done, row.value, i, cols);
      out := out + [row.value];
      done := done + row.value;
      idx := idx + cols;
    }
    assert flat[..idx] == flat;
    return Success(out);
  }

  /** int() as a cell conversion inside a flat matrix: its failure escapes
      unreworded. */
  function IntCell(v: Value): Result<int, Error> {
    match PyInt(v)
    case Some(n) => Success(n)
    case None => Failure(CannotConvert(v))
  }

  /** [[int(v) for v in row] for row in mat] */
  function IntRows(mat: seq<Value>): (r: Option<seq<seq<int>>>)
    requires forall k :: 0 <= k < |mat| ==> mat[k].VList?
    ensures r.Some? <==> forall k :: 0 <= k < |mat| ==> IntsOf(mat[k].items).Some?
    ensures r.Some? ==> |r.value| == |mat| && forall k :: 0 <= k < |mat| ==> IntsOf(mat[k].items) == Some(r.value[k])
    decreases |mat|
  {
    if mat == [] then Some([])
    else match (IntsOf(mat[0].items), IntRows(mat[1..]))
      case (Some(row), Some(rest)) => Some([row] + rest)
      case _ =>
        assert forall k :: 1 <= k < |mat| ==> mat[k] == mat[1..][k - 1];
        None
  }

  /** What _require_2d_int returns. */
  function Int2d(data: Data, key: string, rows: int, cols: int): Result<seq<seq<int>>, Error> {
    if key !in data then Failure(MissingKey(key))
    else
      var mat := data[key];
      if IsNested(mat) then
        if !HasShape(mat.items, rows, cols) then Failure(WrongShape(key, rows, cols))
        else match IntRows(mat.items)
          case Some(m) => Success(m)
          case None => Failure(NotIntegers(key))
      else if mat.VList? && rows * cols == |mat.items| then Reshaped(mat.items, rows, cols, IntCell)
      else Failure(NotAMatrix(key, rows, cols))
  }

  /** _require_2d_int */
  method Require2dInt(data: Data, key: string, rows: int, cols: int) returns (r: Result<seq<seq<int>>, Error>)
    ensures r == Int2d(data, key, rows, cols)
  {
    if key !in data {
      return Failure(MissingKey(key));
    }
    var mat := data[key];
    if IsNested(mat) {
      if !HasShape(mat.items, rows, cols) {
        return Failure(WrongShape(key, rows, cols));
      }
      var m := IntRows(mat.items);
      if m.None? {
        return Failure(NotIntegers(key));
      }
      return Success(m.value);
    }
    if mat.VList? && rows * cols == |mat.items| {
      r := ReshapeFlat(mat.items, rows, cols, IntCell);
      return;
    }
    return Failure(NotAMatrix(key, rows, cols));
  }

  /** [[bool(v) for v in row] for row in mat] */
  function TruthRows(mat: seq<Value>): (m: seq<seq<bool>>)
    requires forall k :: 0 <= k < |mat| ==> mat[k].VList?
    ensures |m| == |mat|
    ensures forall i :: 0 <= i < |mat| ==> |m[i]| == |mat[i].items|
    ensures forall i, j :: 0 <= i < |mat| && 0 <= j < |mat[i].items| ==> m[i][j] == Truthy(mat[i].items[j])
  {
    seq(|mat|, i requires 0 <= i < |mat| =>
      seq(|mat[i].items|, j requires 0 <= j < |mat[i].items| => Truthy(mat[i].items[j])))
  }

  /** What _require_2d_bool returns: nested cells by truthiness, flat cells
      through ParseBool. */
  function Bool2d(data: Data, key: string, rows: int, cols: int): Result<seq<seq<bool>>, Error> {
    if key !in data then Failure(MissingKey(key))
    else
      var mat := data[key];
      if IsNested(mat) then
        if !HasShape(mat.items, rows, cols) then Failure(WrongShape(key, rows, cols))
        else Success(TruthRows(mat.items))
      else if mat.VList? && rows * cols == |mat.items| then Reshaped(mat.items, rows, cols, ParseBool)
      else Failure(NotAMatrix(key, rows, cols))
  }

  /** _require_2d_bool */
  method Require2dBool(data: Data, key: string, rows: int, cols: int) returns (r: Result<seq<seq<bool>>, Error>)
    ensures r == Bool2d(data, key, rows, cols)
  {
    if key !in data {
      return Failure(MissingKey(key));
    }
    var mat := data[key];
    if IsNested(mat) {
      if !HasShape(mat.items, rows, cols) {
        return Failure(WrongShape(key, rows, cols));
      }
      return Success(TruthRows(mat.items));
    }
    if mat.VList? && rows * cols == |mat.items| {
      r := ReshapeFlat(mat.items, rows, cols, ParseBool);
      return;
    }
    return Failure(NotAMatrix(key, rows, cols));
  }

  // ---------------------------------------------------------------------
  // What the matrix readers promise

  /** rows rows of cols entries each. */
  predicate IsMatrix<T>(m: seq<seq<T>>, rows: int, cols: int) {
    |m| == rows && forall i :: 0 <= i < |m| ==> |m[i]| == cols
  }

  /** The rows of m joined end to end: the row-major order. */
  function Flatten<T>(m: seq<seq<T>>): seq<T>
    decreases |m|
  {
    if m == [] then [] else Flatten(m[..|m| - 1]) + m[|m| - 1]
  }

  /** Reshaping the row-major order of a matrix gives the matrix back. */
  lemma {:induction false} FlattenChunks<T>(m: seq<seq<T>>, cols: nat)
    requires IsMatrix(m, |m|, cols)
    ensures |Flatten(m)| == |m| * cols
    ensures Chunks(Flatten(m), |m|, cols) == m
    decreases |m|
  {
    if m != [] {
      var init := m[..|m| - 1];
      FlattenChunks(init, cols);
      var xs := Flatten(m);
      assert xs == Flatten(init) + m[|m| - 1];
      assert |xs| == |m| * cols by {
        assert (|m| - 1) * cols + cols == |m| * cols;
      }
      assert xs[..|xs| - cols] == Flatten(init);
      assert xs[|xs| - cols..] == m[|m| - 1];
      assert init + [m[|m| - 1]] == m;
    }
  }

  function IntValue(n: int): Value { VInt(n) }

  function BoolValue(b: bool): Value { VBool(b) }

  /** A typed row as the loosely typed list that carries it. */
  function Cells<T>(xs: seq<T>, lift: T -> Value): (vs: seq<Value>)
    ensures |vs| == |xs| && forall k :: 0 <= k < |xs| ==> vs[k] == lift(xs[k])
  {
    seq(|xs|, k requires 0 <= k < |xs| => lift(xs[k]))
  }

  /** A matrix sent as a list of row lists. */
  function NestedValue<T>(m: seq<seq<T>>, lift: T -> Value): Value {
    VList(seq(|m|, i requires 0 <= i < |m| => VList(Cells(m[i], lift))))
  }

  /** A matrix sent as one flat row-major list, as the DZN reader leaves it. */
  function FlatValue<T>(m: seq<seq<T>>, lift: T -> Value): Value {
    VList(Cells(Flatten(m), lift))
  }

  lemma FlatNotNested<T>(m: seq<seq<T>>, lift: T -> Value)
    requires forall x :: !lift(x).VList?
    ensures !IsNested(FlatValue(m, lift))
  {
    var xs := Flatten(m);
    var v := FlatValue(m, lift);
    assert v.items == Cells(xs, lift);
    if xs != [] {
      assert v.items[0] == lift(xs[0]);
      assert !v.items[0].VList?;
    }
  }

  /** Reading back a flattened matrix through a conversion that undoes the
      lifting gives the matrix. */
  lemma ReshapedFlatten<T>(m: seq<seq<T>>, cols: nat, lift: T -> Value, conv: Value -> Result<T, Error>)
    requires IsMatrix(m, |m|, cols)
    requires forall x :: conv(lift(x)) == Success(x)
    ensures |Flatten(m)| == |m| * cols
    ensures Reshaped(Cells(Flatten(m), lift), |m|, cols, conv) == Success(m)
  {
    FlattenChunks(m, cols);
    var flat := Cells(Flatten(m), lift);
    var r := ConvertAll(flat, conv);
    ConvertAllSpec(flat, conv);
    assert forall k :: 0 <= k < |flat| ==> conv(flat[k]) == Success(Flatten(m)[k]);
    assert r.Success?;
    assert r.value == Flatten(m);
  }

  /** Whatever key the matrix sits under and whatever else the instance
      holds, an integer matrix sent nested or flat is read back unchanged. */
  lemma IntMatrixRoundTrip(data: Data, key: string, m: seq<seq<int>>, cols: nat)
    requires IsMatrix(m, |m|, cols)
    ensures Int2d(data[key := NestedValue(m, IntValue)], key, |m|, cols) == Success(m)
    ensures Int2d(data[key := FlatValue(m, IntValue)], key, |m|, cols) == Success(m)
  {
    var nested := NestedValue(m, IntValue);
    if m != [] {
      assert IsNested(nested);
      var r := IntRows(nested.items);
      forall k | 0 <= k < |m| ensures IntsOf(nested.items[k].items) == Some(m[k]) {
        var row := IntsOf(nested.items[k].items);
        assert row.Some? && row.value == m[k];
      }
      assert r.value == m;
    }
    FlatNotNested(m, IntValue);
    ReshapedFlatten(m, cols, IntValue, IntCell);
  }

  lemma BoolNestedRoundTrip(m: seq<seq<bool>>)
    ensures forall i :: 0 <= i < |m| ==> NestedValue(m, BoolValue).items[i].VList?
    ensures TruthRows(NestedValue(m, BoolValue).items) == m
  {
    var nested := NestedValue(m, BoolValue);
    var t := TruthRows(nested.items);
    forall i | 0 <= i < |m| ensures t[i] == m[i] {
      assert nested.items[i].items == Cells(m[i], BoolValue);
      forall j | 0 <= j < |m[i]| ensures t[i][j] == m[i][j] {
        assert nested.items[i].items[j] == VBool(m[i][j]);
      }
    }
  }

  /** The same for a boolean matrix. */
  lemma BoolMatrixRoundTrip(data: Data, key: string, m: seq<seq<bool>>, cols: nat)
    requires IsMatrix(m, |m|, cols)
    ensures Bool2d(data[key := NestedValue(m, BoolValue)], key, |m|, cols) == Success(m)
    ensures Bool2d(data[key := FlatValue(m, BoolValue)], key, |m|, cols) == Success(m)
  {
    if m != [] {
      BoolNestedRoundTrip(m);
      assert IsNested(NestedValue(m, BoolValue));
    }
    FlatNotNested(m, BoolValue);
    ReshapedFlatten(m, cols, BoolValue, ParseBool);
  }

  /** A successful integer matrix read has the declared shape: no rows
      when rows <= 0, else rows rows of cols cells. */
  lemma Int2dShape(data: Data, key: string, rows: int, cols: int)
    requires Int2d(data, key, rows, cols).Success?
    ensures IsMatrix(Int2d(data, key, rows, cols).value, Max0(rows), cols)
  {
    var v := data[key];
    if IsNested(v) {
      var m := IntRows(v.items).value;
      forall k | 0 <= k < |m| ensures |m[k]| == cols {
        assert IntsOf(v.items[k].items) == Some(m[k]);
      }
    }
  }

  /** The same for a boolean matrix. */
  lemma Bool2dShape(data: Data, key: string, rows: int, cols: int)
    requires Bool2d(data, key, rows, cols).Success?
    ensures IsMatrix(Bool2d(data, key, rows, cols).value, Max0(rows), cols)
  {
  }

  /** Each cell read from a nested list is int() of the cell at the same
      position. */
  lemma Int2dNestedCells(data: Data, key: string, rows: int, cols: int)
    requires Int2d(data, key, rows, cols).Success? && IsNested(data[key])
    ensures forall i, j :: 0 <= i < rows && 0 <= j < cols ==>
      j < |data[key].items[i].items| &&
      PyInt(data[key].items[i].items[j]) == Some(Int2d(data, key, rows, cols).value[i][j])
  {
    var v := data[key];
    var m := IntRows(v.items).value;
    forall i, j | 0 <= i < rows && 0 <= j < cols
      ensures j < |v.items[i].items| && PyInt(v.items[i].items[j]) == Some(m[i][j])
    {
      assert IntsOf(v.items[i].items) == Some(m[i]);
    }
  }

  /** Each cell read from a flat list is int() of entry i * cols + j. */
  lemma Int2dFlatCell(data: Data, key: string, rows: int, cols: int, i: nat, j: nat)
    requires Int2d(data, key, rows, cols).Success? && !IsNested(data[key])
    requires i < rows && j < cols
    ensures i * cols + j < |data[key].items|
    ensures PyInt(data[key].items[i * cols + j]) == Some(Int2d(data, key, rows, cols).value[i][j])
  {
    var v := data[key];
    assert v.VList? && rows * cols == |v.items|;
    assert Int2d(data, key, rows, cols) == Reshaped(v.items, rows, cols, IntCell);
    ReshapedCell(v.items, rows, cols, IntCell, i, j);
  }

  /** When an integer matrix is accepted: nested, it must have exactly the
      declared shape and only int()-convertible cells; otherwise it must be a
      list of exactly rows * cols entries, all convertible unless rows <= 0. */
  lemma Int2dSucceedsIff(data: Data, key: string, rows: int, cols: int)
    ensures Int2d(data, key, rows, cols).Success? <==>
      && key in data
      && (IsNested(data[key]) ==>
            && HasShape(data[key].items, rows, cols)
            && forall i, j :: 0 <= i < rows && 0 <= j < cols ==> PyInt(data[key].items[i].items[j]).Some?)
      && (!IsNested(data[key]) ==>
            && data[key].VList? && rows * cols == |data[key].items|
            && (rows <= 0 || forall k :: 0 <= k < |data[key].items| ==> PyInt(data[key].items[k]).Some?))
  {
    if key in data && IsNested(data[key]) && HasShape(data[key].items, rows, cols) {
      var mat := data[key].items;
      if forall i, j :: 0 <= i < rows && 0 <= j < cols ==> PyInt(mat[i].items[j]).Some? {
        forall k | 0 <= k < |mat| ensures IntsOf(mat[k].items).Some? {
          assert forall j :: 0 <= j < |mat[k].items| ==> PyInt(mat[k].items[j]).Some?;
        }
      } else {
        var i, j :| 0 <= i < rows && 0 <= j < cols && PyInt(mat[i].items[j]).None?;
        assert IntsOf(mat[i].items).None?;
      }
    }
    if key in data && !IsNested(data[key]) && data[key].VList? && rows * cols == |data[key].items| && rows > 0 {
      var items := data[key].items;
      ConvertAllSpec(items, IntCell);
      assert ConvertAll(items, IntCell).Success? <==> forall k :: 0 <= k < |items| ==> IntCell(items[k]).Success?;
    }
  }

  /** When a boolean matrix is accepted: nested, any cells of the declared
      shape will do, since truthiness never fails; otherwise it must be a
      list of exactly rows * cols entries, each one _parse_bool accepts
      unless rows <= 0. */
  lemma Bool2dSucceedsIff(data: Data, key: string, rows: int, cols: int)
    ensures Bool2d(data, key, rows, cols).Success? <==>
      && key in data
      && (IsNested(data[key]) ==> HasShape(data[key].items, rows, cols))
      && (!IsNested(data[key]) ==>
            && data[key].VList? && rows * cols == |data[key].items|
            && (rows <= 0 || forall k :: 0 <= k < |data[key].items| ==> ParseBool(data[key].items[k]).Success?))
  {
    if key in data && !IsNested(data[key]) && data[key].VList? && rows * cols == |data[key].items| && rows > 0 {
      ConvertAllSpec(data[key].items, ParseBool);
    }
  }

  // ---------------------------------------------------------------------
  // Exception classes

  /** Cell k is the first one int() refuses. */
  predicate FirstUnreadable(xs: seq<Value>, k: int) {
    0 <= k < |xs| && PyInt(xs[k]).None? && forall j :: 0 <= j < k ==> PyInt(xs[j]).Some?
  }

  /** The flat branch of _require_2d_int is taken, and the first cell int()
      refuses is not a string. */
  predicate FlatNonStringCell(data: Data, key: string, rows: int, cols: int) {
    && key in data && !IsNested(data[key]) && data[key].VList?
    && rows * cols == |data[key].items| && rows > 0
    && exists k :: 0 <= k < |data[key].items| && FirstUnreadable(data[key].items, k) && !data[key].items[k].VStr?
  }

  /** There is at most one first unreadable cell. */
  lemma FirstUnreadableUnique(xs: seq<Value>, k: int, k': int)
    requires FirstUnreadable(xs, k) && FirstUnreadable(xs, k')
    ensures k == k'
  {
  }

  /** A flat integer conversion fails exactly when some cell is unreadable,
      and then reports the first such cell: as TypeError exactly when that
      cell is not a string, and never as RuntimeError. */
  lemma FlatIntFailure(items: seq<Value>)
    ensures ConvertAll(items, IntCell).Failure? <==> exists k :: 0 <= k < |items| && FirstUnreadable(items, k)
    ensures ConvertAll(items, IntCell).Failure? ==>
      exists k :: 0 <= k < |items| && FirstUnreadable(items, k) && ConvertAll(items, IntCell).error == CannotConvert(items[k])
    ensures ConvertAll(items, IntCell).Failure? ==> ConvertAll(items, IntCell).error.Class() != RuntimeError
    ensures ConvertAll(items, IntCell).Failure? && ConvertAll(items, IntCell).error.Class() == TypeError <==>
      exists k :: 0 <= k < |items| && FirstUnreadable(items, k) && !items[k].VStr?
  {
    ConvertAllSpec(items, IntCell);
    if ConvertAll(items, IntCell).Failure? {
      ConvertAllFirstFailure(items, IntCell);
      var k :| 0 <= k < |items| && IntCell(items[k]) == Failure(ConvertAll(items, IntCell).error) &&
               forall j :: 0 <= j < k ==> IntCell(items[j]).Success?;
      assert FirstUnreadable(items, k);
      forall k' | 0 <= k' < |items| && FirstUnreadable(items, k') ensures k' == k {
        FirstUnreadableUnique(items, k, k');
      }
    } else {
      assert forall k :: 0 <= k < |items| ==> PyInt(items[k]).Some? by {
        forall k | 0 <= k < |items| ensures PyInt(items[k]).Some? {
          assert IntCell(items[k]).Success?;
        }
      }
    }
  }

  /** An integer matrix read never fails with RuntimeError. It fails with
      TypeError exactly when the flat branch meets a first unreadable cell
      that is not a string (None, a list or a dict); every other failure is
      a ValueError. */
  lemma Int2dErrorClass(data: Data, key: string, rows: int, cols: int)
    ensures Int2d(data, key, rows, cols).Failure? ==> Int2d(data, key, rows, cols).error.Class() != RuntimeError
    ensures Int2d(data, key, rows, cols).Failure? && Int2d(data, key, rows, cols).error.Class() == TypeError
      <==> FlatNonStringCell(data, key, rows, cols)
  {
    if key in data && !IsNested(data[key]) && data[key].VList? && rows * cols == |data[key].items| && rows > 0 {
      var items := data[key].items;
      assert Int2d(data, key, rows, cols) == ConvertFlat(items, rows, cols);
      FlatIntFailure(items);
    }
  }

  /** The flat branch of _require_2d_int with rows > 0. */
  function ConvertFlat(items: seq<Value>, rows: int, cols: int): Result<seq<seq<int>>, Error>
    requires rows * cols == |items| && rows > 0
  {
    Reshaped(items, rows, cols, IntCell)
  }

  /** A boolean matrix read fails only with ValueError. */
  lemma Bool2dErrorClass(data: Data, key: string, rows: int, cols: int)
    ensures Bool2d(data, key, rows, cols).Failure? ==> Bool2d(data, key, rows, cols).error.Class() == ValueError
  {
    if key in data && !IsNested(data[key]) && data[key].VList? && rows * cols == |data[key].items| && rows > 0 {
      ConvertAllFirstFailure(data[key].items, ParseBool);
    }
  }

  /** The flat list [[1], 2] read as one row of two: int() meets the list
      [1] and raises TypeError, which no handler rewords. */
  lemma FlatListCellIsTypeError()
    ensures Int2d(map["d" := VList([VList([VInt(1)]), VInt(2)])], "d", 1, 2) ==
      Failure(CannotConvert(VList([VInt(1)])))
    ensures CannotConvert(VList([VInt(1)])).Class() == TypeError
  {
    var items := [VList([VInt(1)]), VInt(2)];
    assert items[1] == VInt(2) && !IsNested(VList(items));
    assert IntCell(items[0]) == Failure(CannotConvert(VList([VInt(1)])));
    assert ConvertAll(items, IntCell) == Failure(CannotConvert(VList([VInt(1)])));
  }

  /** Dimensions whose product matches the length of a flat list are
      accepted even when both are negative; nothing is read and the cells
      are dropped. */
  lemma NegativeDimensionsDropCells()
    ensures Int2d(map["d" := VList([VInt(5), VInt(7)])], "d", -1, -2) == Success([])
  {
    var v := VList([VInt(5), VInt(7)]);
    assert v.items[0] == VInt(5);
  }

  /** A nested boolean matrix is read by truthiness and a flat one through
      ParseBool, so the string "false" reads as true in one form and as
      false in the other. */
  lemma BoolFormsDisagreeOnText()
    ensures Bool2d(map["a" := VList([VList([VStr("false")])])], "a", 1, 1) == Success([[true]])
    ensures Bool2d(map["a" := VList([VStr("false")])], "a", 1, 1) == Success([[false]])
  {
    var nested := VList([VList([VStr("false")])]);
    assert nested.items[0] == VList([VStr("false")]);
    assert IsNested(nested);
    assert HasShape(nested.items, 1, 1);
    var t := TruthRows(nested.items);
    assert |t| == 1 && |t[0]| == 1 && t[0][0] == Truthy(VStr("false"));
    var row: seq<bool> := [true];
    assert t[0] == row;
    assert t == [row];
    assert Bool2d(map["a" := nested], "a", 1, 1) == Success(t);
    var flat := VList([VStr("false")]);
    assert flat.items[0] == VStr("false");
    assert !IsNested(flat);
    assert Strip("false") == "false" by {
      assert Trimmed("false");
    }
    assert Lower("false") == "false" by {
      assert forall k :: 0 <= k < 5 ==> LowerChar("false"[k]) == "false"[k];
    }
    assert ParseBool(VStr("false")) == Success(false);
    var r := ConvertAll(flat.items, ParseBool);
    ConvertAllSpec(flat.items, ParseBool);
    assert ParseBool(flat.items[0]) == Success(false);
    assert r.Success? && |r.value| == 1 && r.value[0] == false;
    var expected: seq<bool> := [false];
    assert expected[0] == false;
    assert r.value == expected;
    assert Chunks([false], 1, 1) == [[false]];
  }

  // ---------------------------------------------------------------------
  // Engine results

  /** _require_result_int */
  function RequireResultInt(result: Data, key: string): (r: Result<int, Error>)
    ensures r.Success? <==> key in result && PyInt(result[key]).Some?
    ensures r.Success? ==> PyInt(result[key]) == Some(r.value)
    ensures key !in result ==> r == Failure(ResultMissingKey(key))
    ensures key in result && r.Failure? ==> r.error == ResultNotAnInteger(key)
    ensures r.Failure? ==> r.error.Class() == RuntimeError
  {
    if key !in result then Failure(ResultMissingKey(key))
    else match PyInt(result[key])
      case Some(n) => Success(n)
      case None => Failure(ResultNotAnInteger(key))
  }

  /** int(val[i][j]), or None where indexing or int() raises. */
  function Cell(val: Value, i: nat, j: nat): Option<int> {
    match Index(val, i)
    case None => None
    case Some(row) =>
      match Index(row, j)
      case None => None
      case Some(x) => PyInt(x)
  }

  /** _require_result_2d: [[int(val[i][j]) for j in range(cols)] for i in
      range(rows)]. Only the declared top-left block is read; a cell outside
      the stored value, or one int() refuses, fails the whole read. */
  function RequireResult2d(result: Data, key: string, rows: int, cols: int): (r: Result<seq<seq<int>>, Error>)
    ensures key !in result ==> r == Failure(ResultMissingKey(key))
    ensures key in result && r.Failure? ==> r.error == ResultNotAMatrix(key, rows, cols)
    ensures r.Failure? ==> r.error.Class() == RuntimeError
    ensures r.Success? ==> |r.value| == Max0(rows) && forall i :: 0 <= i < |r.value| ==> |r.value[i]| == Max0(cols)
    ensures r.Success? <==> key in result && forall i: nat, j: nat :: i < rows && j < cols ==> Cell(result[key], i, j).Some?
    ensures r.Success? ==> forall i: nat, j: nat :: i < Max0(rows) && j < Max0(cols) ==>
      Cell(result[key], i, j) == Some(r.value[i][j])
  {
    if key !in result then Failure(ResultMissingKey(key))
    else
      var val := result[key];
      if forall i: nat, j: nat :: i < rows && j < cols ==> Cell(val, i, j).Some? then
        Success(seq(Max0(rows), i requires 0 <= i < Max0(rows) =>
          seq(Max0(cols), j requires 0 <= j < Max0(cols) => Cell(val, i, j).value)))
      else Failure(ResultNotAMatrix(key, rows, cols))
  }
}
