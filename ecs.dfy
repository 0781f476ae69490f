/**
 * Archetypes and systems (src/ecs.rs).
 *
 * An archetype is an entity list plus the column storage of its component list.  A
 * system names an ordered list of component types and an update applied to each row
 * through mutable references to exactly those columns.  The Rust code selects the
 * columns by type with frunk's `Sculptor`; here a component type is a tag of type `T`,
 * a component list is a sequence of tags, and the selection is the sequence of column
 * indices that sculpting computes.
 */
module Ecs {
  import opened Wrappers
  import opened EcsTraits

  // ---------------------------------------------------------------------------
  // Entities
  // ---------------------------------------------------------------------------

  /** `Entity(usize)`: a plain row handle. */
  datatype Entity = Entity(id: nat)

  /** `Entity::from`: wraps the number unchanged. */
  function EntityFrom(value: nat): (e: Entity)
    ensures e.id == value
  {
    Entity(value)
  }

  // ---------------------------------------------------------------------------
  // `Archetype![S]`: the component list of a struct
  // ---------------------------------------------------------------------------

  /** A field of a struct deriving `frunk::Generic`: its name and its component type. */
  datatype Field<T> = Field(name: string, ty: T)

  /**
   * `<S as Generic>::Repr`: the HList of the field types in declaration order, which is
   * the component list `Archetype![S]` stores.
   */
  function ShapeOf<T>(fields: seq<Field<T>>): (shape: seq<T>)
    ensures |shape| == |fields|
    ensures forall k :: 0 <= k < |fields| ==> shape[k] == fields[k].ty
    decreases |fields|
  {
    if fields == [] then [] else [fields[0].ty] + ShapeOf(fields[1..])
  }

  // ---------------------------------------------------------------------------
  // Selecting a system's columns by type (frunk `pluck` / `Sculptor`)
  // ---------------------------------------------------------------------------

  /**
   * `pluck::<t, _>()` on the columns still available (`avail` holds their positions
   * in `shape`): the position in `avail` of the first one whose type is `t`.
   */
  function Pluck<T(==)>(shape: seq<T>, avail: seq<nat>, t: T): (r: Option<nat>)
    requires forall q :: 0 <= q < |avail| ==> avail[q] < |shape|
    ensures r.Some? ==> r.value < |avail| && shape[avail[r.value]] == t
    ensures r.Some? ==> forall q :: 0 <= q < r.value ==> shape[avail[q]] != t
    ensures r.None? <==> forall q :: 0 <= q < |avail| ==> shape[avail[q]] != t
    decreases |avail|
  {
    if avail == [] then None
    else if shape[avail[0]] == t then Some(0)
    else
      match Pluck(shape, avail[1..], t)
      case None => None
      case Some(q) => Some(q + 1)
  }

  /** `avail` with the entry at position `q` taken out. */
  function Without(avail: seq<nat>, q: nat): (r: seq<nat>)
    requires q < |avail|
    ensures |r| == |avail| - 1
    ensures forall p :: 0 <= p < |r| ==> r[p] == if p < q then avail[p] else avail[p + 1]
  {
    avail[..q] + avail[q + 1..]
  }

  /**
   * `sculpt()`: pluck the requested types one after the other, each from what the
   * previous plucks left over.  `None` when some requested type is not left, which is
   * a type error in Rust (the `CanApplySystem` bound does not hold).
   */
  function Sculpt<T(==)>(shape: seq<T>, avail: seq<nat>, req: seq<T>): (r: Option<seq<nat>>)
    requires forall q :: 0 <= q < |avail| ==> avail[q] < |shape|
    requires Distinct(avail)
    ensures r.Some? ==> |r.value| == |req| && Distinct(r.value)
    ensures r.Some? ==> forall j :: 0 <= j < |req| ==> r.value[j] in avail && shape[r.value[j]] == req[j]
    decreases |req|
  {
    if req == [] then Some([])
    else
      match Pluck(shape, avail, req[0])
      case None => None
      case Some(q) =>
        var rest := Without(avail, q);
        WithoutKeepsDistinct(avail, q);
        WithoutInRange(shape, avail, q);
        match Sculpt(shape, rest, req[1..])
        case None => None
        case Some(tail) =>
          assert forall j :: 0 <= j < |tail| ==> tail[j] in rest;
          Some([avail[q]] + tail)
  }

  /** The column positions of an archetype of shape `shape`, all available. */
  function AllColumns(width: nat): (avail: seq<nat>)
    ensures |avail| == width && forall q :: 0 <= q < width ==> avail[q] == q
  {
    seq(width, q => q)
  }

  /**
   * The selection for a system requiring `req` in an archetype of shape `shape`:
   * `indices[j]` is the column holding `req[j]`.  No column is selected twice, so the
   * mutable references handed to a system never alias.
   */
  function Select<T(==)>(shape: seq<T>, req: seq<T>): (indices: Option<seq<nat>>)
    ensures indices.Some? ==> |indices.value| == |req| && Distinct(indices.value)
    ensures indices.Some? ==> forall j :: 0 <= j < |req| ==>
      indices.value[j] < |shape| && shape[indices.value[j]] == req[j]
  {
    Sculpt(shape, AllColumns(|shape|), req)
  }

  /** The types among the available columns. */
  ghost predicate Offers<T>(shape: seq<T>, avail: seq<nat>, t: T)
    requires forall q :: 0 <= q < |avail| ==> avail[q] < |shape|
  {
    exists q :: 0 <= q < |avail| && shape[avail[q]] == t
  }

  /**
   * With pairwise distinct column types, sculpting succeeds exactly when the requested
   * types are pairwise distinct and each is offered by some available column.
   */
  lemma {:induction false} SculptSucceedsIff<T>(shape: seq<T>, avail: seq<nat>, req: seq<T>)
    requires Distinct(shape) && Distinct(avail)
    requires forall q :: 0 <= q < |avail| ==> avail[q] < |shape|
    ensures Sculpt(shape, avail, req).Some? <==>
      Distinct(req) && forall j :: 0 <= j < |req| ==> Offers(shape, avail, req[j])
    decreases |req|
  {
    if req != [] {
      var t := req[0];
      match Pluck(shape, avail, t)
      case None =>
        assert !Offers(shape, avail, t);
      case Some(q) =>
        var rest := Without(avail, q);
        WithoutKeepsDistinct(avail, q);
        SculptSucceedsIff(shape, rest, req[1..]);
        forall u
          ensures Offers(shape, rest, u) <==> Offers(shape, avail, u) && u != t
        {
          OffersWithout(shape, avail, q, u);
        }
        SculptStep(shape, avail, q, req);
    }
  }

  /** Taking an entry out keeps the remaining positions distinct and in range. */
  lemma WithoutKeepsDistinct(avail: seq<nat>, q: nat)
    requires Distinct(avail) && q < |avail|
    ensures Distinct(Without(avail, q))
    ensures forall p :: 0 <= p < |Without(avail, q)| ==> Without(avail, q)[p] in avail
    ensures avail[q] !in Without(avail, q)
  {
    var rest := Without(avail, q);
    forall p | 0 <= p < |rest|
      ensures rest[p] in avail && rest[p] != avail[q]
    {
      var src := if p < q then p else p + 1;
      assert rest[p] == avail[src];
    }
  }

  /** After plucking position `q`, the columns left over offer the old types minus its type. */
  lemma OffersWithout<T>(shape: seq<T>, avail: seq<nat>, q: nat, u: T)
    requires Distinct(shape) && Distinct(avail) && q < |avail|
    requires forall p :: 0 <= p < |avail| ==> avail[p] < |shape|
    ensures Offers(shape, Without(avail, q), u) <==> Offers(shape, avail, u) && u != shape[avail[q]]
  {
    WithoutKeepsDistinct(avail, q);
    WithoutInRange(shape, avail, q);
    if Offers(shape, Without(avail, q), u) {
      OffersWithoutOnlyOld(shape, avail, q, u);
    }
    if Offers(shape, avail, u) && u != shape[avail[q]] {
      OffersWithoutKeepsOthers(shape, avail, q, u);
    }
  }

  /** What the columns left over offer, the columns before offered, and not the plucked type. */
  lemma OffersWithoutOnlyOld<T>(shape: seq<T>, avail: seq<nat>, q: nat, u: T)
    requires Distinct(shape) && Distinct(avail) && q < |avail|
    requires forall p :: 0 <= p < |avail| ==> avail[p] < |shape|
    requires forall p :: 0 <= p < |Without(avail, q)| ==> Without(avail, q)[p] < |shape|
    requires forall p :: 0 <= p < |Without(avail, q)| ==> Without(avail, q)[p] != avail[q]
    requires Offers(shape, Without(avail, q), u)
    ensures Offers(shape, avail, u) && u != shape[avail[q]]
  {
    var rest := Without(avail, q);
    var p :| 0 <= p < |rest| && shape[rest[p]] == u;
    var src := if p < q then p else p + 1;
    assert rest[p] == avail[src];
    assert rest[p] != avail[q];
  }

  /** Every other type the columns offered before, the columns left over still offer. */
  lemma OffersWithoutKeepsOthers<T>(shape: seq<T>, avail: seq<nat>, q: nat, u: T)
    requires Distinct(avail) && q < |avail|
    requires forall p :: 0 <= p < |avail| ==> avail[p] < |shape|
    requires forall p :: 0 <= p < |Without(avail, q)| ==> Without(avail, q)[p] < |shape|
    requires Offers(shape, avail, u) && u != shape[avail[q]]
    ensures Offers(shape, Without(avail, q), u)
  {
    var rest := Without(avail, q);
    var p :| 0 <= p < |avail| && shape[avail[p]] == u;
    assert p != q;
    var dst := if p < q then p else p - 1;
    assert rest[dst] == avail[p];
  }

  /** The inductive step of `SculptSucceedsIff`, once the first type has been plucked. */
  lemma SculptStep<T>(shape: seq<T>, avail: seq<nat>, q: nat, req: seq<T>)
    requires Distinct(avail) && |req| >= 1
    requires forall p :: 0 <= p < |avail| ==> avail[p] < |shape|
    requires Pluck(shape, avail, req[0]) == Some(q)
    requires Distinct(Without(avail, q))
    requires forall u :: Offers(shape, Without(avail, q), u) <==> Offers(shape, avail, u) && u != req[0]
    requires Sculpt(shape, Without(avail, q), req[1..]).Some? <==>
      Distinct(req[1..]) && forall j :: 0 <= j < |req| - 1 ==> Offers(shape, Without(avail, q), req[1..][j])
    ensures Sculpt(shape, avail, req).Some? <==>
      Distinct(req) && forall j :: 0 <= j < |req| ==> Offers(shape, avail, req[j])
  {
    var rest := Without(avail, q);
    WithoutInRange(shape, avail, q);
    SculptUnfold(shape, avail, q, req);
    assert shape[avail[q]] == req[0];
    assert Offers(shape, avail, req[0]);
    ConsDistinctOffered(shape, avail, rest, req);
  }

  /** The positions left after taking one out are still positions of `shape`. */
  lemma WithoutInRange<T>(shape: seq<T>, avail: seq<nat>, q: nat)
    requires q < |avail|
    requires forall p :: 0 <= p < |avail| ==> avail[p] < |shape|
    ensures forall p :: 0 <= p < |Without(avail, q)| ==> Without(avail, q)[p] < |shape|
  {
    var rest := Without(avail, q);
    forall p | 0 <= p < |rest|
      ensures rest[p] < |shape|
    {
      assert rest[p] == avail[if p < q then p else p + 1];
    }
  }

  /** One step of `Sculpt`: after the first pluck, it succeeds iff sculpting the rest does. */
  lemma SculptUnfold<T>(shape: seq<T>, avail: seq<nat>, q: nat, req: seq<T>)
    requires Distinct(avail) && |req| >= 1
    requires forall p :: 0 <= p < |avail| ==> avail[p] < |shape|
    requires Pluck(shape, avail, req[0]) == Some(q)
    requires Distinct(Without(avail, q))
    requires forall p :: 0 <= p < |Without(avail, q)| ==> Without(avail, q)[p] < |shape|
    ensures Sculpt(shape, avail, req).Some? <==> Sculpt(shape, Without(avail, q), req[1..]).Some?
  {
  }

  /** A list is distinct and offered iff its tail is, once its head is no longer offered. */
  lemma ConsDistinctOffered<T>(shape: seq<T>, avail: seq<nat>, rest: seq<nat>, req: seq<T>)
    requires |req| >= 1
    requires forall q :: 0 <= q < |avail| ==> avail[q] < |shape|
    requires forall q :: 0 <= q < |rest| ==> rest[q] < |shape|
    requires Offers(shape, avail, req[0])
    requires forall u :: Offers(shape, rest, u) <==> Offers(shape, avail, u) && u != req[0]
    ensures (Distinct(req) && forall j :: 0 <= j < |req| ==> Offers(shape, avail, req[j])) <==>
      (Distinct(req[1..]) && forall j :: 0 <= j < |req| - 1 ==> Offers(shape, rest, req[1..][j]))
  {
    var t := req[0];
    if Distinct(req) && forall j :: 0 <= j < |req| ==> Offers(shape, avail, req[j]) {
      forall j | 0 <= j < |req| - 1
        ensures Offers(shape, rest, req[1..][j])
      {
        assert req[j + 1] != t;
      }
    }
    if Distinct(req[1..]) && forall j :: 0 <= j < |req| - 1 ==> Offers(shape, rest, req[1..][j]) {
      forall j | 1 <= j < |req|
        ensures req[j] != t && Offers(shape, avail, req[j])
      {
        assert Offers(shape, rest, req[1..][j - 1]);
      }
      forall a, b | 0 <= a < b < |req|
        ensures req[a] != req[b]
      {
        if a > 0 {
          assert req[1..][a - 1] != req[1..][b - 1];
        }
      }
    }
  }

  /**
   * The `CanApplySystem` bound: in an archetype whose column types are distinct, a
   * system can be applied exactly when its component types are pairwise distinct and
   * every one of them is a column type of the archetype, whatever the order.
   */
  lemma SelectSucceedsIff<T>(shape: seq<T>, req: seq<T>)
    requires Distinct(shape)
    ensures Select(shape, req).Some? <==>
      Distinct(req) && forall j :: 0 <= j < |req| ==> req[j] in shape
  {
    var avail := AllColumns(|shape|);
    SculptSucceedsIff(shape, avail, req);
    forall u
      ensures Offers(shape, avail, u) <==> u in shape
    {
      if u in shape {
        var q :| 0 <= q < |shape| && shape[q] == u;
        assert shape[avail[q]] == u;
      }
    }
  }

  /** With distinct column types, a selection picks the one column holding each requested type. */
  lemma SelectFinds<T>(shape: seq<T>, req: seq<T>, j: nat, k: nat)
    requires Distinct(shape) && Select(shape, req).Some?
    requires j < |req| && k < |shape| && shape[k] == req[j]
    ensures Select(shape, req).value[j] == k
  {
  }

  // ---------------------------------------------------------------------------
  // Applying a system
  // ---------------------------------------------------------------------------

  /**
   * `System`: the component types the system declares (`Components`) and its
   * per-row update.  `update_instance` receives one mutable reference per declared
   * component, in declaration order; `update` maps the values behind them to the
   * values the system leaves there.
   */
  datatype System<T, !V> = System(components: seq<T>, update: seq<V> -> seq<V>)

  /** A reference tuple has one slot per component: the update writes back as many values. */
  ghost predicate KeepsArity<V(!new)>(f: seq<V> -> seq<V>) {
    forall row: seq<V> :: |f(row)| == |row|
  }

  /** The selected columns, in selection order. */
  function Pick<V>(cols: seq<seq<V>>, indices: seq<nat>): (picked: seq<seq<V>>)
    requires forall j :: 0 <= j < |indices| ==> indices[j] < |cols|
    ensures |picked| == |indices|
    ensures forall j :: 0 <= j < |indices| ==> picked[j] == cols[indices[j]]
  {
    seq(|indices|, j requires 0 <= j < |indices| => cols[indices[j]])
  }

  /** Rows the zip of the selected columns yields: the shortest selected column bounds it. */
  function RowCount<V>(cols: seq<seq<V>>, indices: seq<nat>): (n: nat)
    requires |indices| >= 1 && forall j :: 0 <= j < |indices| ==> indices[j] < |cols|
    ensures forall j :: 0 <= j < |indices| ==> n <= |cols[indices[j]]|
  {
    MinLen(Pick(cols, indices))
  }

  /** The selected rows run out exactly with the shortest selected column. */
  lemma RowCountAttained<V>(cols: seq<seq<V>>, indices: seq<nat>)
    requires |indices| >= 1 && forall j :: 0 <= j < |indices| ==> indices[j] < |cols|
    ensures exists j :: 0 <= j < |indices| && RowCount(cols, indices) == |cols[indices[j]]|
  {
    MinLenAttained(Pick(cols, indices));
  }

  /** The values in row `i` of the selected columns, in selection order. */
  function Gather<V>(cols: seq<seq<V>>, indices: seq<nat>, i: nat): (row: seq<V>)
    requires forall j :: 0 <= j < |indices| ==> indices[j] < |cols| && i < |cols[indices[j]]|
    ensures |row| == |indices|
    ensures forall j :: 0 <= j < |indices| ==> row[j] == cols[indices[j]][i]
  {
    seq(|indices|, j requires 0 <= j < |indices| => cols[indices[j]][i])
  }

  /** Where column `c` stands in the selection; `|indices|` when it is not selected. */
  function PosOf(indices: seq<nat>, c: nat): (j: nat)
    ensures j <= |indices|
    ensures j < |indices| ==> indices[j] == c
    ensures j == |indices| <==> c !in indices
    decreases |indices|
  {
    if indices == [] then 0
    else if indices[0] == c then 0
    else 1 + PosOf(indices[1..], c)
  }

  /** Selection is alias-free, so a selected column has exactly one position in it. */
  lemma PosOfSelected(indices: seq<nat>, j: nat)
    requires Distinct(indices) && j < |indices|
    ensures PosOf(indices, indices[j]) == j
    decreases j
  {
    if j > 0 {
      assert indices[0] != indices[j];
      assert indices[1..][j - 1] == indices[j];
      PosOfSelected(indices[1..], j - 1);
    }
  }

  /** One column after the system has run: column `c`, whose selection position is looked up. */
  function AppliedColumn<V(!new)>(cols: seq<seq<V>>, indices: seq<nat>, update: seq<V> -> seq<V>, n: nat, c: nat)
    : (col: seq<V>)
    requires forall j :: 0 <= j < |indices| ==> indices[j] < |cols| && n <= |cols[indices[j]]|
    requires KeepsArity(update) && c < |cols|
    ensures |col| == |cols[c]|
    ensures c !in indices ==> col == cols[c]
    ensures c in indices ==> forall i :: 0 <= i < n ==>
      col[i] == update(Gather(cols, indices, i))[PosOf(indices, c)]
    ensures forall i :: n <= i < |cols[c]| ==> col[i] == cols[c][i]
  {
    var j := PosOf(indices, c);
    if j == |indices| then cols[c]
    else
      seq(|cols[c]|, i requires 0 <= i < |cols[c]| =>
        if i < n then update(Gather(cols, indices, i))[j] else cols[c][i])
  }

  /**
   * The columns after the system has run on every row: row `i` of the selected
   * columns is replaced by `update` of that row; other columns, and rows past the
   * shortest selected column, keep their values.
   */
  function Applied<V(!new)>(cols: seq<seq<V>>, indices: seq<nat>, update: seq<V> -> seq<V>): (r: seq<seq<V>>)
    requires |indices| >= 1 && Distinct(indices)
    requires forall j :: 0 <= j < |indices| ==> indices[j] < |cols|
    requires KeepsArity(update)
    ensures |r| == |cols|
    ensures forall c :: 0 <= c < |cols| ==> |r[c]| == |cols[c]|
    ensures forall c :: 0 <= c < |cols| && c !in indices ==> r[c] == cols[c]
    ensures forall j, i :: 0 <= j < |indices| && 0 <= i < RowCount(cols, indices) ==>
      r[indices[j]][i] == update(Gather(cols, indices, i))[j]
    ensures forall j, i :: 0 <= j < |indices| && RowCount(cols, indices) <= i < |cols[indices[j]]| ==>
      r[indices[j]][i] == cols[indices[j]][i]
  {
    var n := RowCount(cols, indices);
    var r := seq(|cols|, c requires 0 <= c < |cols| => AppliedColumn(cols, indices, update, n, c));
    assert forall j :: 0 <= j < |indices| ==> PosOf(indices, indices[j]) == j by {
      forall j | 0 <= j < |indices| {
        PosOfSelected(indices, j);
      }
    }
    r
  }

  /**
   * Seen through `to_par_iter` over the selected columns, applying a system maps the
   * update over the row tuples, row by row.
   */
  lemma AppliedRows<V(!new)>(cols: seq<seq<V>>, indices: seq<nat>, update: seq<V> -> seq<V>)
    requires |indices| >= 1 && Distinct(indices)
    requires forall j :: 0 <= j < |indices| ==> indices[j] < |cols|
    requires KeepsArity(update)
    ensures Rows(Pick(Applied(cols, indices, update), indices)) ==
      seq(RowCount(cols, indices), i requires 0 <= i < RowCount(cols, indices) =>
        update(Rows(Pick(cols, indices))[i]))
  {
    var after := Applied(cols, indices, update);
    var before, now := Pick(cols, indices), Pick(after, indices);
    var n := RowCount(cols, indices);
    assert forall j :: 0 <= j < |indices| ==> |now[j]| == |before[j]|;
    assert MinLen(now) == n by {
      MinLenSameLengths(now, before);
    }
    var lhs := Rows(now);
    var rhs := seq(n, i requires 0 <= i < n => update(Rows(before)[i]));
    forall i | 0 <= i < n
      ensures lhs[i] == rhs[i]
    {
      RowsAreRow(before, i);
      assert Rows(before)[i] == Gather(cols, indices, i);
      forall j | 0 <= j < |indices|
        ensures lhs[i][j] == rhs[i][j]
      {
        assert lhs[i][j] == after[indices[j]][i];
      }
    }
  }

  /** A system whose update leaves every row as it is leaves the whole storage as it is. */
  lemma AppliedIdentity<V(!new)>(cols: seq<seq<V>>, indices: seq<nat>, update: seq<V> -> seq<V>)
    requires |indices| >= 1 && Distinct(indices)
    requires forall j :: 0 <= j < |indices| ==> indices[j] < |cols|
    requires forall row :: update(row) == row
    ensures KeepsArity(update)
    ensures Applied(cols, indices, update) == cols
  {
    var after := Applied(cols, indices, update);
    var n := RowCount(cols, indices);
    forall c | 0 <= c < |cols|
      ensures after[c] == cols[c]
    {
      if c in indices {
        var j := PosOf(indices, c);
        forall i | 0 <= i < |cols[c]|
          ensures after[c][i] == cols[c][i]
        {
          if i < n {
            assert after[indices[j]][i] == update(Gather(cols, indices, i))[j];
          }
        }
      }
    }
  }

  /** Columns of the same lengths zip to the same number of rows. */
  lemma {:induction false} MinLenSameLengths<V>(a: seq<seq<V>>, b: seq<seq<V>>)
    requires |a| == |b| >= 1
    requires forall j :: 0 <= j < |a| ==> |a[j]| == |b[j]|
    ensures MinLen(a) == MinLen(b)
    decreases |a|
  {
    if |a| > 1 {
      MinLenSameLengths(a[1..], b[1..]);
    }
  }

  /**
   * The columns outside the system's list and the selected values' types: a system
   * only ever sees values of its declared types, and if its update keeps those types,
   * every column keeps its type.
   */
  lemma GatherTyped<T, V>(cols: seq<seq<V>>, shape: seq<T>, req: seq<T>, kind: V -> T, i: nat)
    requires Typed(cols, shape, kind)
    requires Select(shape, req).Some? && |req| >= 1
    requires i < RowCount(cols, Select(shape, req).value)
    ensures RowTyped(Gather(cols, Select(shape, req).value, i), req, kind)
  {
  }

  lemma AppliedKeepsTyped<T, V(!new)>(cols: seq<seq<V>>, shape: seq<T>, system: System<T, V>, kind: V -> T)
    requires Typed(cols, shape, kind)
    requires Select(shape, system.components).Some? && |system.components| >= 1
    requires KeepsArity(system.update)
    requires forall row :: RowTyped(row, system.components, kind) ==>
      RowTyped(system.update(row), system.components, kind)
    ensures Typed(Applied(cols, Select(shape, system.components).value, system.update), shape, kind)
  {
    var indices := Select(shape, system.components).value;
    var after := Applied(cols, indices, system.update);
    var n := RowCount(cols, indices);
    forall c, i | 0 <= c < |after| && 0 <= i < |after[c]|
      ensures kind(after[c][i]) == shape[c]
    {
      if c in indices && i < n {
        var j := PosOf(indices, c);
        GatherTyped(cols, shape, system.components, kind, i);
        assert after[c][i] == system.update(Gather(cols, indices, i))[j];
      }
    }
  }

  // ---------------------------------------------------------------------------
  // The archetype
  // ---------------------------------------------------------------------------

  /**
   * The loop of `apply_system` after `i` rows: the selected columns hold the updated
   * values in rows before `i` and the old ones from `i` on; nothing else has changed.
   */
  ghost predicate Progress<V(!new)>(cur: seq<seq<V>>, before: seq<seq<V>>, indices: seq<nat>,
                                   update: seq<V> -> seq<V>, i: nat)
    requires |indices| >= 1 && Distinct(indices)
    requires forall j :: 0 <= j < |indices| ==> indices[j] < |before|
    requires KeepsArity(update)
  {
    && |cur| == |before|
    && i <= RowCount(before, indices)
    && (forall c :: 0 <= c < |cur| ==> |cur[c]| == |before[c]|)
    && (forall c :: 0 <= c < |cur| && c !in indices ==> cur[c] == before[c])
    && (forall j, r :: 0 <= j < |indices| && 0 <= r < i ==>
          cur[indices[j]][r] == Applied(before, indices, update)[indices[j]][r])
    && (forall j, r :: 0 <= j < |indices| && i <= r < |cur[indices[j]]| ==>
          cur[indices[j]][r] == before[indices[j]][r])
  }

  /** Updating row `i` of every selected column extends the progress by one row. */
  lemma ProgressStep<V(!new)>(cur: seq<seq<V>>, next: seq<seq<V>>, before: seq<seq<V>>,
                              indices: seq<nat>, update: seq<V> -> seq<V>, i: nat)
    requires |indices| >= 1 && Distinct(indices)
    requires forall j :: 0 <= j < |indices| ==> indices[j] < |before|
    requires KeepsArity(update)
    requires Progress(cur, before, indices, update, i) && i < RowCount(before, indices)
    requires |next| == |cur|
    requires forall c :: 0 <= c < |cur| && c !in indices ==> next[c] == cur[c]
    requires forall j :: 0 <= j < |indices| ==>
      next[indices[j]] == cur[indices[j]][i := update(Gather(cur, indices, i))[j]]
    ensures Progress(next, before, indices, update, i + 1)
  {
    assert Gather(cur, indices, i) == Gather(before, indices, i);
  }

  /** Once every row has been visited, the columns are the applied columns. */
  lemma ProgressDone<V(!new)>(cur: seq<seq<V>>, before: seq<seq<V>>, indices: seq<nat>,
                              update: seq<V> -> seq<V>)
    requires |indices| >= 1 && Distinct(indices)
    requires forall j :: 0 <= j < |indices| ==> indices[j] < |before|
    requires KeepsArity(update)
    requires Progress(cur, before, indices, update, RowCount(before, indices))
    ensures cur == Applied(before, indices, update)
  {
    var after := Applied(before, indices, update);
    forall c | 0 <= c < |cur|
      ensures cur[c] == after[c]
    {
      if c in indices {
        var j := PosOf(indices, c);
        assert cur[c] == cur[indices[j]];
      }
    }
  }

  /**
   * No requested type has two columns to choose from.  With two, Rust cannot infer
   * which one `pluck` means, and the call does not compile.
   */
  predicate Unambiguous<T(==)>(shape: seq<T>, req: seq<T>) {
    forall j, a, b :: 0 <= j < |req| && 0 <= a < b < |shape| && shape[a] == req[j] ==> shape[b] != req[j]
  }

  /** Distinct column types leave no request ambiguous. */
  lemma DistinctIsUnambiguous<T>(shape: seq<T>, req: seq<T>)
    requires Distinct(shape)
    ensures Unambiguous(shape, req)
  {
  }

  /**
   * `Archetype<ComponentListT>`: the entity list and the storage of the component
   * list `shape`.  Nothing ties the entity list's length to the columns' lengths.
   */
  class Archetype<T(==), V(!new)> {
    /** The component list: the column types, in order. */
    const shape: seq<T>
    /** `entity_list` */
    var entityList: seq<Entity>
    /** `components`: one column per entry of `shape`. */
    const components: Storage<V>

    ghost predicate Valid() {
      |shape| >= 1 && components.columns.Length == |shape|
    }

    /** `Archetype::default()`: no entities and one empty column per component type. */
    constructor Default(shape: seq<T>)
      requires |shape| >= 1
      ensures Valid() && this.shape == shape
      ensures entityList == [] && components.columns[..] == NewStorage(|shape|)
      ensures fresh(components) && fresh(components.columns)
    {
      this.shape := shape;
      entityList := [];
      components := new Storage.New(|shape|);
    }

    /** `Archetype { entity_list, components }`: a struct literal. */
    constructor Build(shape: seq<T>, entityList: seq<Entity>, cols: seq<seq<V>>)
      requires |shape| >= 1 && |cols| == |shape|
      ensures Valid() && this.shape == shape
      ensures this.entityList == entityList && components.columns[..] == cols
      ensures fresh(components) && fresh(components.columns)
    {
      this.shape := shape;
      this.entityList := entityList;
      components := new Storage.FromColumns(cols);
    }

    /**
     * `apply_system::<S>()`: the system's columns are selected by type, zipped into
     * row tuples of mutable references and the update runs on every row.  Rows are
     * independent and the selected columns distinct, so the rows are visited here one
     * after the other.
     */
    method ApplySystem(system: System<T, V>)
      requires Valid()
      requires |system.components| >= 1
      requires Select(shape, system.components).Some?
      requires Unambiguous(shape, system.components)
      requires KeepsArity(system.update)
      modifies components.columns
      ensures components.columns[..] ==
        Applied(old(components.columns[..]), Select(shape, system.components).value, system.update)
    {
      var indices := Select(shape, system.components).value;
      var cols := components.columns;
      ghost var before := cols[..];
      var n := RowCount(cols[..], indices);
      var i := 0;
      while i < n
        invariant 0 <= i <= n
        invariant Progress(cols[..], before, indices, system.update, i)
      {
        ghost var current := cols[..];
        var row := Gather(cols[..], indices, i);
        var values := system.update(row);
        forall j | 0 <= j < |indices| {
          cols[indices[j]] := cols[indices[j]][i := values[j]];
        }
        ProgressStep(current, cols[..], before, indices, system.update, i);
        i := i + 1;
      }
      ProgressDone(cols[..], before, indices, system.update);
    }
  }
}
