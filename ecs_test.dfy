/**
 * The systems and the scenario of src/ecs/test.rs.
 *
 * `Transform` and `DeltaTransform` hold a position, a rotation quaternion and a
 * scale.  The Rust fields are `f32`; here they are integers, which is exact for the
 * values the scenario uses.  A component value is one of the three component structs,
 * tagged by its type.
 */
module EcsTest {
  import opened Wrappers
  import opened EcsTraits
  import opened Ecs

  datatype Vec3 = Vec3(x: int, y: int, z: int)

  /** `Quaternion::new(w, i, j, k)` */
  datatype Quat = Quat(w: int, i: int, j: int, k: int)

  datatype Transform = Transform(position: Vec3, rotation: Quat, scale: Vec3)

  datatype DeltaTransform = DeltaTransform(position: Vec3, rotation: Quat, scale: Vec3)

  /** `Model {}`: no fields yet. */
  datatype Model = Model

  /** The component types: the tags a component list is made of. */
  datatype ComponentType = TransformType | DeltaTransformType | ModelType

  /** A value stored in some column. */
  datatype Component =
    | TransformValue(transform: Transform)
    | DeltaTransformValue(delta: DeltaTransform)
    | ModelValue(model: Model)

  function KindOf(v: Component): ComponentType {
    match v
    case TransformValue(_) => TransformType
    case DeltaTransformValue(_) => DeltaTransformType
    case ModelValue(_) => ModelType
  }

  // ---------------------------------------------------------------------------
  // Transform + DeltaTransform
  // ---------------------------------------------------------------------------

  function AddVec3(a: Vec3, b: Vec3): Vec3 {
    Vec3(a.x + b.x, a.y + b.y, a.z + b.z)
  }

  function AddQuat(a: Quat, b: Quat): Quat {
    Quat(a.w + b.w, a.i + b.i, a.j + b.j, a.k + b.k)
  }

  function SubVec3(a: Vec3, b: Vec3): Vec3 {
    Vec3(a.x - b.x, a.y - b.y, a.z - b.z)
  }

  function SubQuat(a: Quat, b: Quat): Quat {
    Quat(a.w - b.w, a.i - b.i, a.j - b.j, a.k - b.k)
  }

  /** `impl Add<DeltaTransform> for Transform`: position, rotation and scale add up componentwise. */
  function Add(t: Transform, d: DeltaTransform): (r: Transform)
    ensures r.position == AddVec3(t.position, d.position)
    ensures r.rotation == AddQuat(t.rotation, d.rotation)
    ensures r.scale == AddVec3(t.scale, d.scale)
  {
    Transform(AddVec3(t.position, d.position), AddQuat(t.rotation, d.rotation), AddVec3(t.scale, d.scale))
  }

  /** Taking a delta back off: the inverse of `Add`, used to state what adding does. */
  function Undo(t: Transform, d: DeltaTransform): Transform {
    Transform(SubVec3(t.position, d.position), SubQuat(t.rotation, d.rotation), SubVec3(t.scale, d.scale))
  }

  /** The delta that adds nothing. */
  const ZeroDelta := DeltaTransform(Vec3(0, 0, 0), Quat(0, 0, 0, 0), Vec3(0, 0, 0))

  /** Two deltas applied in turn: their sum. */
  function Compose(d1: DeltaTransform, d2: DeltaTransform): DeltaTransform {
    DeltaTransform(AddVec3(d1.position, d2.position), AddQuat(d1.rotation, d2.rotation),
      AddVec3(d1.scale, d2.scale))
  }

  /** Adding a delta is undone by taking it back off, and the zero delta moves nothing. */
  lemma AddUndo(t: Transform, d: DeltaTransform)
    ensures Undo(Add(t, d), d) == t
    ensures Add(Undo(t, d), d) == t
    ensures Add(t, ZeroDelta) == t
  {
  }

  /** Adding two deltas in turn is adding their sum, in either order. */
  lemma AddCompose(t: Transform, d1: DeltaTransform, d2: DeltaTransform)
    ensures Add(Add(t, d1), d2) == Add(t, Compose(d1, d2))
    ensures Add(Add(t, d1), d2) == Add(Add(t, d2), d1)
  {
  }

  /** `impl AddAssign`: `*self = *self + rhs`, the new value of the transform. */
  method AddAssign(t: Transform, d: DeltaTransform) returns (updated: Transform)
    ensures updated == Add(t, d)
    ensures Undo(updated, d) == t
  {
    updated := Add(t, d);
  }

  // ---------------------------------------------------------------------------
  // The archetypes
  // ---------------------------------------------------------------------------

  /** `struct Unit { transform, delta_transform, model }` */
  function UnitFields(): seq<Field<ComponentType>> {
    [Field("transform", TransformType), Field("delta_transform", DeltaTransformType), Field("model", ModelType)]
  }

  /** `struct Tile { transform, model }` */
  function TileFields(): seq<Field<ComponentType>> {
    [Field("transform", TransformType), Field("model", ModelType)]
  }

  /** The column list of `Archetype![Unit]`. */
  lemma UnitShape()
    ensures ShapeOf(UnitFields()) == [TransformType, DeltaTransformType, ModelType]
  {
    var s := ShapeOf(UnitFields());
    assert |s| == 3 && s[0] == TransformType && s[1] == DeltaTransformType && s[2] == ModelType;
  }

  /** The column list of `Archetype![Tile]`. */
  lemma TileShape()
    ensures ShapeOf(TileFields()) == [TransformType, ModelType]
  {
    var s := ShapeOf(TileFields());
    assert |s| == 2 && s[0] == TransformType && s[1] == ModelType;
  }

  // ---------------------------------------------------------------------------
  // The systems
  // ---------------------------------------------------------------------------

  /**
   * `MovementSystem::update_instance`: plucks the `DeltaTransform` and the
   * `Transform` out of the row and adds the delta to the transform.  A row of any
   * other form cannot reach it (the row is typed); it is left as it is.
   */
  function MovementUpdate(row: seq<Component>): (r: seq<Component>)
    ensures |r| == |row|
    ensures RowTyped(row, [TransformType, DeltaTransformType], KindOf) ==>
      r == [TransformValue(Add(row[0].transform, row[1].delta)), row[1]]
  {
    if |row| == 2 && row[0].TransformValue? && row[1].DeltaTransformValue? then
      [TransformValue(Add(row[0].transform, row[1].delta)), row[1]]
    else
      row
  }

  /** `MovementSystem`: components `(Transform, DeltaTransform)`. */
  function MovementSystem(): System<ComponentType, Component> {
    System([TransformType, DeltaTransformType], MovementUpdate)
  }

  /** `RenderSystem::update_instance` only logs: the row is written back as it was. */
  function RenderUpdate(row: seq<Component>): (r: seq<Component>)
    ensures r == row
  {
    row
  }

  /** `RenderSystem`: components `(Transform, Model)`. */
  function RenderSystem(): System<ComponentType, Component> {
    System([TransformType, ModelType], RenderUpdate)
  }

  lemma MovementKeepsArityAndTypes()
    ensures KeepsArity(MovementUpdate)
    ensures forall row :: RowTyped(row, [TransformType, DeltaTransformType], KindOf) ==>
      RowTyped(MovementUpdate(row), [TransformType, DeltaTransformType], KindOf)
  {
  }

  /*
   * Selection is by type: the movement system's `(Transform, DeltaTransform)` are the
   * first two columns of a unit, the render system's `(Transform, Model)` are both
   * columns of a tile or the first and last of a unit, and the movement system cannot
   * run on a tile, which has no `DeltaTransform` column.
   */

  lemma MovementSelectsOnUnit()
    ensures Select([TransformType, DeltaTransformType, ModelType], MovementSystem().components) == Some([0, 1])
  {
    var shape, req := [TransformType, DeltaTransformType, ModelType], MovementSystem().components;
    assert req == [TransformType, DeltaTransformType];
    assert Distinct(shape);
    assert req[0] in shape && req[1] in shape;
    SelectSucceedsIff(shape, req);
    SelectFinds(shape, req, 0, 0);
    SelectFinds(shape, req, 1, 1);
    assert Select(shape, req).value == [0, 1];
  }

  lemma RenderSelectsOnUnit()
    ensures Select([TransformType, DeltaTransformType, ModelType], RenderSystem().components) == Some([0, 2])
  {
    var shape, req := [TransformType, DeltaTransformType, ModelType], RenderSystem().components;
    assert req == [TransformType, ModelType];
    assert Distinct(shape);
    assert req[0] in shape && req[1] in shape;
    SelectSucceedsIff(shape, req);
    SelectFinds(shape, req, 0, 0);
    SelectFinds(shape, req, 1, 2);
    assert Select(shape, req).value == [0, 2];
  }

  lemma RenderSelectsOnTile()
    ensures Select([TransformType, ModelType], RenderSystem().components) == Some([0, 1])
  {
    var shape, req := [TransformType, ModelType], RenderSystem().components;
    assert req == [TransformType, ModelType];
    assert Distinct(shape);
    assert req[0] in shape && req[1] in shape;
    SelectSucceedsIff(shape, req);
    SelectFinds(shape, req, 0, 0);
    SelectFinds(shape, req, 1, 1);
    assert Select(shape, req).value == [0, 1];
  }

  /** Neither archetype has two columns of one type, so no system's request is ambiguous on them. */
  lemma ShapesAreUnambiguous(req: seq<ComponentType>)
    ensures Unambiguous([TransformType, DeltaTransformType, ModelType], req)
    ensures Unambiguous([TransformType, ModelType], req)
  {
    DistinctIsUnambiguous([TransformType, DeltaTransformType, ModelType], req);
    DistinctIsUnambiguous([TransformType, ModelType], req);
  }

  lemma MovementCannotRunOnTile()
    ensures Select([TransformType, ModelType], MovementSystem().components).None?
  {
    var shape, req := [TransformType, ModelType], MovementSystem().components;
    assert Distinct(shape);
    assert req[1] !in shape;
    SelectSucceedsIff(shape, req);
  }

  /**
   * Movement on any unit storage: each row's transform becomes transform + delta, for
   * as many rows as the two columns share; the delta and model columns, and any
   * transforms past the shorter column, are untouched.
   */
  lemma MovementMoves(cols: seq<seq<Component>>)
    requires Typed(cols, [TransformType, DeltaTransformType, ModelType], KindOf)
    ensures KeepsArity(MovementUpdate)
    ensures var after := Applied(cols, [0, 1], MovementUpdate);
      && var n := if |cols[0]| <= |cols[1]| then |cols[0]| else |cols[1]|;
      && after[1] == cols[1] && after[2] == cols[2]
      && |after[0]| == |cols[0]|
      && (forall i :: 0 <= i < n ==>
        after[0][i] == TransformValue(Add(cols[0][i].transform, cols[1][i].delta)))
      && (forall i :: n <= i < |cols[0]| ==> after[0][i] == cols[0][i])
  {
    MovementKeepsArityAndTypes();
    var after := Applied(cols, [0, 1], MovementUpdate);
    var n := MovementRowCount(cols);
    forall i | 0 <= i < n
      ensures after[0][i] == TransformValue(Add(cols[0][i].transform, cols[1][i].delta))
      ensures after[1][i] == cols[1][i]
    {
      MovementRow(cols, i);
    }
    assert 2 !in [0, 1];
    assert after[1] == cols[1] by {
      forall i | n <= i < |cols[1]|
        ensures after[1][i] == cols[1][i]
      {
        assert after[[0, 1][1]][i] == cols[[0, 1][1]][i];
      }
    }
    forall i | n <= i < |cols[0]|
      ensures after[0][i] == cols[0][i]
    {
      assert after[[0, 1][0]][i] == cols[[0, 1][0]][i];
    }
  }

  /** Movement runs over as many rows as the shorter of the transform and delta columns. */
  lemma MovementRowCount(cols: seq<seq<Component>>) returns (n: nat)
    requires |cols| >= 2
    ensures n == RowCount(cols, [0, 1])
    ensures n == if |cols[0]| <= |cols[1]| then |cols[0]| else |cols[1]|
  {
    n := RowCount(cols, [0, 1]);
    assert Pick(cols, [0, 1]) == [cols[0], cols[1]];
    assert MinLen([cols[1]]) == |cols[1]|;
  }

  /** One row of movement: the transform moves by the delta and the delta stays. */
  lemma MovementRow(cols: seq<seq<Component>>, i: nat)
    requires Typed(cols, [TransformType, DeltaTransformType, ModelType], KindOf)
    requires i < RowCount(cols, [0, 1])
    ensures KeepsArity(MovementUpdate)
    ensures Applied(cols, [0, 1], MovementUpdate)[0][i] == TransformValue(Add(cols[0][i].transform, cols[1][i].delta))
    ensures Applied(cols, [0, 1], MovementUpdate)[1][i] == cols[1][i]
  {
    MovementKeepsArityAndTypes();
    var indices := [0, 1];
    assert Distinct(indices);
    var after := Applied(cols, indices, MovementUpdate);
    var row := Gather(cols, indices, i);
    assert row == [cols[0][i], cols[1][i]];
    assert RowTyped(row, [TransformType, DeltaTransformType], KindOf);
    assert after[indices[0]][i] == MovementUpdate(row)[0];
    assert after[indices[1]][i] == MovementUpdate(row)[1];
  }

  // ---------------------------------------------------------------------------
  // `test_ecs`
  // ---------------------------------------------------------------------------

  const DeltaTransformBase := DeltaTransform(Vec3(-10, 4, 2), Quat(1, 0, 0, 0), Vec3(1, 1, 1))
  const TransformBase := Transform(Vec3(0, 0, 0), Quat(1, 0, 0, 0), Vec3(1, 1, 1))
  const ModelBase := Model
  const ComponentSizeUnit := 10
  const ComponentSizeTile := 10

  /** `std::iter::repeat_n(v, n).collect()` */
  function RepeatN<X>(v: X, n: nat): (s: seq<X>)
    ensures |s| == n && forall i :: 0 <= i < n ==> s[i] == v
  {
    seq(n, _ => v)
  }

  /** `vec![0,1,2,3].into_iter().map(|x| x.into()).collect()` */
  function EntitiesFrom(ids: seq<nat>): (es: seq<Entity>)
    ensures |es| == |ids| && forall k :: 0 <= k < |ids| ==> es[k].id == ids[k]
  {
    seq(|ids|, k requires 0 <= k < |ids| => EntityFrom(ids[k]))
  }

  /** The unit columns `test_ecs` starts from. */
  function UnitStart(n: nat): seq<seq<Component>> {
    [RepeatN(TransformValue(TransformBase), n),
     RepeatN(DeltaTransformValue(DeltaTransformBase), n),
     RepeatN(ModelValue(ModelBase), n)]
  }

  /** The tile columns `test_ecs` starts from. */
  function TileStart(n: nat): seq<seq<Component>> {
    [RepeatN(TransformValue(TransformBase), n), RepeatN(ModelValue(ModelBase), n)]
  }

  /** The transform every unit has once the base delta has been added to the base transform. */
  const MovedTransform := Transform(Vec3(-10, 4, 2), Quat(2, 0, 0, 0), Vec3(2, 2, 2))

  /** Movement on the scenario's units, however many rows they have, moves every transform and nothing else. */
  lemma UnitScenario(n: nat)
    ensures KeepsArity(MovementUpdate)
    ensures Applied(UnitStart(n), [0, 1], MovementUpdate) ==
      [RepeatN(TransformValue(MovedTransform), n), UnitStart(n)[1], UnitStart(n)[2]]
  {
    var cols := UnitStart(n);
    UnitStartTyped(n);
    MovementMoves(cols);
    var after := Applied(cols, [0, 1], MovementUpdate);
    UnitTransformsMove(n);
    assert after == [after[0], after[1], after[2]];
  }

  /** In the unit scenario every transform becomes the moved transform. */
  lemma UnitTransformsMove(n: nat)
    requires Typed(UnitStart(n), [TransformType, DeltaTransformType, ModelType], KindOf)
    ensures KeepsArity(MovementUpdate)
    ensures Applied(UnitStart(n), [0, 1], MovementUpdate)[0] == RepeatN(TransformValue(MovedTransform), n)
  {
    MovementKeepsArityAndTypes();
    var cols := UnitStart(n);
    var after := Applied(cols, [0, 1], MovementUpdate);
    var count := MovementRowCount(cols);
    assert count == n;
    forall i | 0 <= i < n
      ensures after[0][i] == TransformValue(MovedTransform)
    {
      MovementRow(cols, i);
      BaseMoves();
    }
  }

  lemma UnitStartTyped(n: nat)
    ensures Typed(UnitStart(n), [TransformType, DeltaTransformType, ModelType], KindOf)
  {
  }

  lemma BaseMoves()
    ensures Add(TransformBase, DeltaTransformBase) == MovedTransform
  {
  }

  /** The unit columns of `test_ecs` once movement has run on them. */
  lemma UnitsAfterMovement()
    ensures KeepsArity(MovementUpdate)
    ensures Applied(UnitStart(ComponentSizeUnit), [0, 1], MovementUpdate) == [
      RepeatN(TransformValue(MovedTransform), 10),
      RepeatN(DeltaTransformValue(DeltaTransformBase), 10),
      RepeatN(ModelValue(ModelBase), 10)]
  {
    UnitScenario(ComponentSizeUnit);
  }

  /** Movement can be applied to the unit archetype, on its first two columns. */
  lemma MovementAppliesToUnits()
    ensures Select(ShapeOf(UnitFields()), MovementSystem().components) == Some([0, 1])
    ensures Unambiguous(ShapeOf(UnitFields()), MovementSystem().components)
  {
    UnitShape();
    MovementSelectsOnUnit();
    ShapesAreUnambiguous(MovementSystem().components);
  }

  /** Rendering can be applied to the tile archetype, on both its columns. */
  lemma RenderAppliesToTiles()
    ensures Select(ShapeOf(TileFields()), RenderSystem().components) == Some([0, 1])
    ensures Unambiguous(ShapeOf(TileFields()), RenderSystem().components)
  {
    TileShape();
    RenderSelectsOnTile();
    ShapesAreUnambiguous(RenderSystem().components);
  }

  /**
   * `test_ecs`: a unit archetype and a tile archetype with four entities over ten rows
   * each; movement runs on the units, rendering on the tiles.  Every unit transform
   * moves by the base delta, giving position (-10, 4, 2), rotation (2, 0, 0, 0) and
   * scale (2, 2, 2); the deltas, the models and the tiles stay as they were, and the
   * entity lists keep their four entries beside ten-row columns.
   */
  method TestEcs() returns (unitEntities: seq<Entity>, unitCols: seq<seq<Component>>,
                            tileEntities: seq<Entity>, tileCols: seq<seq<Component>>)
    ensures unitCols == [
      RepeatN(TransformValue(MovedTransform), 10),
      RepeatN(DeltaTransformValue(DeltaTransformBase), 10),
      RepeatN(ModelValue(ModelBase), 10)]
    ensures tileCols == [RepeatN(TransformValue(TransformBase), 10), RepeatN(ModelValue(ModelBase), 10)]
    ensures unitEntities == tileEntities == [Entity(0), Entity(1), Entity(2), Entity(3)]
  {
    var entities := EntitiesFrom([0, 1, 2, 3]);
    assert entities == [Entity(0), Entity(1), Entity(2), Entity(3)];
    var unitShape, tileShape := ShapeOf(UnitFields()), ShapeOf(TileFields());
    var unitStart, tileStart := UnitStart(ComponentSizeUnit), TileStart(ComponentSizeTile);
    var unitArch := new Archetype.Build(unitShape, entities, unitStart);
    var tileArch := new Archetype.Build(tileShape, entities, tileStart);

    MovementAppliesToUnits();
    UnitsAfterMovement();
    unitArch.ApplySystem(MovementSystem());

    RenderAppliesToTiles();
    AppliedIdentity(tileStart, [0, 1], RenderUpdate);
    tileArch.ApplySystem(RenderSystem());

    unitEntities, unitCols := unitArch.entityList, unitArch.components.columns[..];
    tileEntities, tileCols := tileArch.entityList, tileArch.components.columns[..];
  }
}
