/**
 * The column storage behind an archetype (src/ecs/traits.rs).
 *
 * In the Rust code a component list is a type-level HList `HCons<A, HCons<B, ...>>`
 * and its storage is the HList of one `Vec` per component type.  Here a storage is a
 * sequence of columns, one per component type, in the list's order; `V` is the type
 * of a component value.  The HList impls exist only for non-empty lists (the base
 * case is `HCons<HeadT, HNil>`), so every storage has at least one column.
 */
module EcsTraits {

  /** A column: a growable sequence of values of one component type. */
  type ComponentStorage<V> = seq<V>

  /** No element occurs twice. */
  predicate Distinct<X(==)>(s: seq<X>) {
    forall a, b :: 0 <= a < b < |s| ==> s[a] != s[b]
  }

  /** Every column holds exactly `n` rows. */
  predicate Uniform<V>(cols: seq<seq<V>>, n: nat) {
    forall k :: 0 <= k < |cols| ==> |cols[k]| == n
  }

  /** The length of the shortest column: the number of items a zip of the columns yields. */
  function MinLen<V>(cols: seq<seq<V>>): (m: nat)
    requires |cols| >= 1
    ensures forall k :: 0 <= k < |cols| ==> m <= |cols[k]|
    ensures forall n :: Uniform(cols, n) ==> m == n
    decreases |cols|
  {
    if |cols| == 1 then |cols[0]|
    else
      var rest := MinLen(cols[1..]);
      assert forall n :: Uniform(cols, n) ==> Uniform(cols[1..], n);
      if |cols[0]| <= rest then |cols[0]| else rest
  }

  /** The zip stops exactly when its shortest column runs out: some column has `MinLen` rows. */
  lemma {:induction false} MinLenAttained<V>(cols: seq<seq<V>>)
    requires |cols| >= 1
    ensures exists k :: 0 <= k < |cols| && MinLen(cols) == |cols[k]|
    decreases |cols|
  {
    if |cols| == 1 {
      assert MinLen(cols) == |cols[0]|;
    } else {
      MinLenAttained(cols[1..]);
      var k :| 0 <= k < |cols[1..]| && MinLen(cols[1..]) == |cols[1..][k]|;
      assert MinLen(cols) == |cols[0]| || MinLen(cols) == |cols[k + 1]|;
    }
  }

  // ---------------------------------------------------------------------------
  // ComponentList::{new_storage, push_to_storage, swap_remove_from_storage}
  // Each is defined by recursion over the component list, as the two Rust impls
  // (`HCons<HeadT, TailT>` and `HCons<HeadT, HNil>`) are.
  // ---------------------------------------------------------------------------

  /** `new_storage`: one empty column per component type. */
  function NewStorage<V>(width: nat): (cols: seq<seq<V>>)
    requires width >= 1
    ensures |cols| == width
    ensures Uniform(cols, 0)
    decreases width
  {
    if width == 1 then [[]] else [[]] + NewStorage(width - 1)
  }

  /** `push_to_storage`: field k of the instance goes to the end of column k. */
  function PushRow<V>(cols: seq<seq<V>>, row: seq<V>): (r: seq<seq<V>>)
    requires |cols| >= 1 && |row| == |cols|
    ensures |r| == |cols|
    ensures forall k :: 0 <= k < |cols| ==> r[k] == cols[k] + [row[k]]
    decreases |cols|
  {
    if |cols| == 1 then [cols[0] + [row[0]]]
    else [cols[0] + [row[0]]] + PushRow(cols[1..], row[1..])
  }

  /**
   * `Vec::swap_remove(i)`: the element at `i` is removed and the last element takes
   * its place; every other element stays where it was.  The Rust call panics when
   * `i` is out of range, hence the precondition.
   */
  function SwapRemove<V>(s: seq<V>, i: nat): (r: seq<V>)
    requires i < |s|
    ensures |r| == |s| - 1
    ensures i < |r| ==> r[i] == s[|s| - 1]
    ensures forall j :: 0 <= j < |r| && j != i ==> r[j] == s[j]
  {
    seq(|s| - 1, j requires 0 <= j < |s| - 1 => if j == i then s[|s| - 1] else s[j])
  }

  /** Swap-remove loses exactly the element at `i`: what remains is a permutation of the rest. */
  lemma SwapRemovePermutes<V>(s: seq<V>, i: nat)
    requires i < |s|
    ensures multiset(SwapRemove(s, i)) + multiset{s[i]} == multiset(s)
  {
    var r := SwapRemove(s, i);
    if i == |s| - 1 {
      assert r == s[..i];
      assert s == s[..i] + [s[i]];
    } else {
      assert r == s[..i] + [s[|s| - 1]] + s[i + 1 .. |s| - 1];
      assert s == s[..i] + [s[i]] + s[i + 1 .. |s| - 1] + [s[|s| - 1]];
    }
  }

  /**
   * `swap_remove_from_storage(i)`: swap-removes row `i` from every column and
   * returns the removed row (first component) and the new columns (second).
   */
  function SwapRemoveRow<V>(cols: seq<seq<V>>, i: nat): (r: (seq<V>, seq<seq<V>>))
    requires |cols| >= 1
    requires forall k :: 0 <= k < |cols| ==> i < |cols[k]|
    ensures |r.0| == |cols| && |r.1| == |cols|
    ensures forall k :: 0 <= k < |cols| ==> r.0[k] == cols[k][i] && r.1[k] == SwapRemove(cols[k], i)
    decreases |cols|
  {
    var value, column := cols[0][i], SwapRemove(cols[0], i);
    if |cols| == 1 then ([value], [column])
    else
      var tail := SwapRemoveRow(cols[1..], i);
      ([value] + tail.0, [column] + tail.1)
  }

  // ---------------------------------------------------------------------------
  // ToIter::to_iter and ToParIter::to_par_iter
  // ---------------------------------------------------------------------------

  /** `tails.zip(heads).map(|(tail, head)| tail.prepend(head))`; zip stops at the shorter side. */
  function ZipPrepend<V>(tails: seq<seq<V>>, heads: seq<V>): (r: seq<seq<V>>)
    ensures |r| == if |tails| <= |heads| then |tails| else |heads|
    ensures forall i :: 0 <= i < |r| ==> r[i] == [heads[i]] + tails[i]
  {
    var n := if |tails| <= |heads| then |tails| else |heads|;
    seq(n, i requires 0 <= i < n => [heads[i]] + tails[i])
  }

  /** Row `i` across all columns: element k is `cols[k][i]`. */
  function Row<V>(cols: seq<seq<V>>, i: nat): (row: seq<V>)
    requires forall k :: 0 <= k < |cols| ==> i < |cols[k]|
  {
    seq(|cols|, k requires 0 <= k < |cols| => cols[k][i])
  }

  /**
   * `to_iter` / `to_par_iter`: the columns zipped into row tuples.  The single-column
   * case zips `repeat(HNil)` with the column; the general case zips the tail's rows
   * with the head column and prepends the head value.
   */
  function Rows<V>(cols: seq<seq<V>>): (rows: seq<seq<V>>)
    requires |cols| >= 1
    ensures |rows| == MinLen(cols)
    ensures forall i :: 0 <= i < |rows| ==> |rows[i]| == |cols|
    ensures forall i, k :: 0 <= i < |rows| && 0 <= k < |cols| ==> rows[i][k] == cols[k][i]
    decreases |cols|
  {
    if |cols| == 1 then ZipPrepend(seq(|cols[0]|, _ => []), cols[0])
    else ZipPrepend(Rows(cols[1..]), cols[0])
  }

  lemma RowsAreRow<V>(cols: seq<seq<V>>, i: nat)
    requires |cols| >= 1 && i < MinLen(cols)
    ensures Rows(cols)[i] == Row(cols, i)
  {
  }

  // ---------------------------------------------------------------------------
  // How the storage operations look through the row view
  // ---------------------------------------------------------------------------

  /** Pushing a row onto equal-length columns appends exactly that row to the rows. */
  lemma {:induction false} RowsAfterPush<V>(cols: seq<seq<V>>, row: seq<V>, n: nat)
    requires |cols| >= 1 && |row| == |cols| && Uniform(cols, n)
    ensures Uniform(PushRow(cols, row), n + 1)
    ensures Rows(PushRow(cols, row)) == Rows(cols) + [row]
  {
    var pushed := PushRow(cols, row);
    assert Uniform(pushed, n + 1);
    var lhs, rhs := Rows(pushed), Rows(cols) + [row];
    forall i | 0 <= i < n + 1
      ensures lhs[i] == rhs[i]
    {
      forall k | 0 <= k < |cols|
        ensures lhs[i][k] == rhs[i][k]
      {
        assert lhs[i][k] == (cols[k] + [row[k]])[i];
      }
    }
  }

  /**
   * Swap-removing row `i` from equal-length columns returns row `i` and leaves the
   * rows that `Vec::swap_remove` would leave if applied to the sequence of rows.
   */
  lemma {:induction false} RowsAfterSwapRemove<V>(cols: seq<seq<V>>, i: nat, n: nat)
    requires |cols| >= 1 && Uniform(cols, n) && i < n
    ensures Uniform(SwapRemoveRow(cols, i).1, n - 1)
    ensures SwapRemoveRow(cols, i).0 == Rows(cols)[i]
    ensures Rows(SwapRemoveRow(cols, i).1) == SwapRemove(Rows(cols), i)
  {
    SwapRemoveRowUniform(cols, i, n);
    RowsAfterSwapRemoveAll(cols, i, n);
    RemovedRow(cols, i, n);
  }

  /** Swap-removing a row from columns of `n` rows leaves columns of `n - 1` rows. */
  lemma SwapRemoveRowUniform<V>(cols: seq<seq<V>>, i: nat, n: nat)
    requires |cols| >= 1 && Uniform(cols, n) && i < n
    ensures Uniform(SwapRemoveRow(cols, i).1, n - 1)
  {
    var after := SwapRemoveRow(cols, i).1;
    forall k | 0 <= k < |cols|
      ensures |after[k]| == n - 1
    {
      assert after[k] == SwapRemove(cols[k], i);
    }
  }

  /** The rows left after swap-removing row `i` are the rows with `Vec::swap_remove(i)` applied. */
  lemma RowsAfterSwapRemoveAll<V>(cols: seq<seq<V>>, i: nat, n: nat)
    requires |cols| >= 1 && Uniform(cols, n) && i < n
    requires Uniform(SwapRemoveRow(cols, i).1, n - 1)
    ensures Rows(SwapRemoveRow(cols, i).1) == SwapRemove(Rows(cols), i)
  {
    var before, lhs := Rows(cols), Rows(SwapRemoveRow(cols, i).1);
    assert |lhs| == n - 1 && |before| == n;
    forall j | 0 <= j < n - 1
      ensures lhs[j] == before[if j == i then n - 1 else j]
    {
      RowAfterSwapRemove(cols, i, n, j);
    }
    SwapRemoveByIndex(before, lhs, i);
  }

  /** A sequence that agrees with `SwapRemove(s, i)` at every index is `SwapRemove(s, i)`. */
  lemma SwapRemoveByIndex<X>(s: seq<X>, r: seq<X>, i: nat)
    requires i < |s| && |r| == |s| - 1
    requires forall j :: 0 <= j < |r| ==> r[j] == s[if j == i then |s| - 1 else j]
    ensures r == SwapRemove(s, i)
  {
    forall j | 0 <= j < |r|
      ensures r[j] == SwapRemove(s, i)[j]
    {
      SwapRemoveAt(s, i, j);
    }
  }


  /** The value swap-removing row `i` returns is row `i`. */
  lemma RemovedRow<V>(cols: seq<seq<V>>, i: nat, n: nat)
    requires |cols| >= 1 && Uniform(cols, n) && i < n
    ensures SwapRemoveRow(cols, i).0 == Rows(cols)[i]
  {
    var removed, row := SwapRemoveRow(cols, i).0, Rows(cols)[i];
    assert |removed| == |row| == |cols|;
    forall k | 0 <= k < |cols|
      ensures removed[k] == row[k]
    {
    }
  }

  /** Row `j` after swap-removing row `i` is the old row `j`, or the old last row when `j == i`. */
  lemma RowAfterSwapRemove<V>(cols: seq<seq<V>>, i: nat, n: nat, j: nat)
    requires |cols| >= 1 && Uniform(cols, n) && i < n && j < n - 1
    ensures Uniform(SwapRemoveRow(cols, i).1, n - 1)
    ensures Rows(SwapRemoveRow(cols, i).1)[j] == Rows(cols)[if j == i then n - 1 else j]
  {
    var after := SwapRemoveRow(cols, i).1;
    assert Uniform(after, n - 1);
    var src := if j == i then n - 1 else j;
    var now, before := Rows(after), Rows(cols);
    assert |now| == n - 1 && |before| == n;
    forall k | 0 <= k < |cols|
      ensures now[j][k] == before[src][k]
    {
      assert after[k] == SwapRemove(cols[k], i);
      SwapRemoveAt(cols[k], i, j);
    }
    assert |now[j]| == |before[src]|;
  }

  /** Element `j` after `SwapRemove(s, i)`. */
  lemma SwapRemoveAt<V>(s: seq<V>, i: nat, j: nat)
    requires i < |s| && j < |s| - 1
    ensures SwapRemove(s, i)[j] == if j == i then s[|s| - 1] else s[j]
  {
  }

  /**
   * Round trip: pushing a row and then swap-removing the last row returns the pushed
   * row and restores the storage exactly.
   */
  lemma {:induction false} PushThenSwapRemoveLast<V>(cols: seq<seq<V>>, row: seq<V>, n: nat)
    requires |cols| >= 1 && |row| == |cols| && Uniform(cols, n)
    ensures SwapRemoveRow(PushRow(cols, row), n) == (row, cols)
  {
    var pushed := PushRow(cols, row);
    var r := SwapRemoveRow(pushed, n);
    forall k | 0 <= k < |cols|
      ensures r.0[k] == row[k] && r.1[k] == cols[k]
    {
      assert pushed[k] == cols[k] + [row[k]];
      assert SwapRemove(pushed[k], n) == cols[k];
    }
    assert r.0 == row && r.1 == cols;
  }

  // ---------------------------------------------------------------------------
  // Column typing: the Rust types guarantee that column k only holds values of the
  // k-th component type.  `kind` gives the component type of a value.
  // ---------------------------------------------------------------------------

  /** Column k holds only values of type `shape[k]`. */
  predicate Typed<T(==), V>(cols: seq<seq<V>>, shape: seq<T>, kind: V -> T) {
    && |cols| == |shape|
    && forall k, i :: 0 <= k < |cols| && 0 <= i < |cols[k]| ==> kind(cols[k][i]) == shape[k]
  }

  /** Field k of a row has type `shape[k]`. */
  predicate RowTyped<T(==), V>(row: seq<V>, shape: seq<T>, kind: V -> T) {
    |row| == |shape| && forall k :: 0 <= k < |row| ==> kind(row[k]) == shape[k]
  }

  lemma NewStorageTyped<T, V>(shape: seq<T>, kind: V -> T)
    requires |shape| >= 1
    ensures Typed(NewStorage<V>(|shape|), shape, kind)
  {
  }

  lemma PushKeepsTyped<T, V>(cols: seq<seq<V>>, row: seq<V>, shape: seq<T>, kind: V -> T)
    requires |cols| >= 1 && Typed(cols, shape, kind) && RowTyped(row, shape, kind)
    ensures Typed(PushRow(cols, row), shape, kind)
  {
    var pushed := PushRow(cols, row);
    forall k, i | 0 <= k < |pushed| && 0 <= i < |pushed[k]|
      ensures kind(pushed[k][i]) == shape[k]
    {
      assert pushed[k] == cols[k] + [row[k]];
    }
  }

  lemma SwapRemoveKeepsTyped<T, V>(cols: seq<seq<V>>, i: nat, shape: seq<T>, kind: V -> T)
    requires |cols| >= 1 && forall k :: 0 <= k < |cols| ==> i < |cols[k]|
    requires Typed(cols, shape, kind)
    ensures RowTyped(SwapRemoveRow(cols, i).0, shape, kind)
    ensures Typed(SwapRemoveRow(cols, i).1, shape, kind)
  {
    var r := SwapRemoveRow(cols, i);
    forall k, j | 0 <= k < |r.1| && 0 <= j < |r.1[k]|
      ensures kind(r.1[k][j]) == shape[k]
    {
      SwapRemoveAt(cols[k], i, j);
    }
  }

  // ---------------------------------------------------------------------------
  // The storage as mutable state: `&mut Self::Storage`
  // ---------------------------------------------------------------------------

  /** The columns of one component list, updated in place by push and swap-remove. */
  class Storage<V> {
    /** Column k holds the values of the k-th component type; the width never changes. */
    const columns: array<seq<V>>

    /** `new_storage()` */
    constructor New(width: nat)
      requires width >= 1
      ensures fresh(columns)
      ensures columns[..] == NewStorage(width)
    {
      columns := new seq<V>[width](_ => []);
      new;
      assert forall k :: 0 <= k < width ==> columns[..][k] == NewStorage<V>(width)[k];
    }

    /** A storage built from given columns, as a struct literal does. */
    constructor FromColumns(cols: seq<seq<V>>)
      requires |cols| >= 1
      ensures fresh(columns)
      ensures columns[..] == cols
    {
      columns := new seq<V>[|cols|](k requires 0 <= k < |cols| => cols[k]);
    }

    /** `push_to_storage(self, instance)` */
    method Push(instance: seq<V>)
      requires columns.Length >= 1 && |instance| == columns.Length
      modifies columns
      ensures columns[..] == PushRow(old(columns[..]), instance)
    {
      var k := 0;
      while k < columns.Length
        invariant 0 <= k <= columns.Length
        invariant forall m :: 0 <= m < k ==> columns[m] == old(columns[m]) + [instance[m]]
        invariant forall m :: k <= m < columns.Length ==> columns[m] == old(columns[m])
      {
        columns[k] := columns[k] + [instance[k]];
        k := k + 1;
      }
    }

    /** `swap_remove_from_storage(self, index)` */
    method SwapRemoveAt(index: nat) returns (instance: seq<V>)
      requires columns.Length >= 1
      requires forall k :: 0 <= k < columns.Length ==> index < |columns[k]|
      modifies columns
      ensures (instance, columns[..]) == SwapRemoveRow(old(columns[..]), index)
    {
      instance := [];
      var k := 0;
      while k < columns.Length
        invariant 0 <= k <= columns.Length
        invariant |instance| == k
        invariant forall m :: 0 <= m < k ==> instance[m] == old(columns[m])[index]
        invariant forall m :: 0 <= m < k ==> columns[m] == SwapRemove(old(columns[m]), index)
        invariant forall m :: k <= m < columns.Length ==> columns[m] == old(columns[m])
      {
        instance := instance + [columns[k][index]];
        columns[k] := SwapRemove(columns[k], index);
        k := k + 1;
      }
      var expected := SwapRemoveRow(old(columns[..]), index);
      assert instance == expected.0;
      assert columns[..] == expected.1;
    }
  }
}
