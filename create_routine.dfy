/**
 * The routine editor's cube list: cubes are added, updated by merging a
 * partial record over them, and deleted by id, and the routine is saved
 * only under a title that is not blank.
 */
module CreateRoutine {
  import opened Wrappers
  import opened JsText

  datatype Position = Position(x: int, y: int)
  datatype Size = Size(width: int, height: int)

  /** A cube on the canvas; `kind` is its `type`. */
  datatype Cube = Cube(id: int, kind: string, title: string, position: Position, size: Size, config: map<string, string>)

  /** The fields an `updates` object may carry; a missing field keeps the cube's value. */
  datatype CubeUpdate = CubeUpdate(
    id: Option<int>,
    kind: Option<string>,
    title: Option<string>,
    position: Option<Position>,
    size: Option<Size>,
    config: Option<map<string, string>>)

  const NoChange: CubeUpdate := CubeUpdate(None, None, None, None, None, None)

  /** `{ ...cube, ...updates }`: a field the update carries wins, any other field is the cube's. */
  function Merge(c: Cube, u: CubeUpdate): (r: Cube)
    ensures (u.id.Some? ==> r.id == u.id.value) && (u.id.None? ==> r.id == c.id)
    ensures (u.kind.Some? ==> r.kind == u.kind.value) && (u.kind.None? ==> r.kind == c.kind)
    ensures (u.title.Some? ==> r.title == u.title.value) && (u.title.None? ==> r.title == c.title)
    ensures (u.position.Some? ==> r.position == u.position.value) && (u.position.None? ==> r.position == c.position)
    ensures (u.size.Some? ==> r.size == u.size.value) && (u.size.None? ==> r.size == c.size)
    ensures (u.config.Some? ==> r.config == u.config.value) && (u.config.None? ==> r.config == c.config)
  {
    Cube(
      if u.id.Some? then u.id.value else c.id,
      if u.kind.Some? then u.kind.value else c.kind,
      if u.title.Some? then u.title.value else c.title,
      if u.position.Some? then u.position.value else c.position,
      if u.size.Some? then u.size.value else c.size,
      if u.config.Some? then u.config.value else c.config)
  }

  /** Merging nothing changes nothing, and merging the same fields twice is merging them once. */
  lemma MergeLaws(c: Cube, u: CubeUpdate)
    ensures Merge(c, NoChange) == c
    ensures Merge(Merge(c, u), u) == Merge(c, u)
    ensures u.kind.None? && u.size.None? && u.config.None? ==>
              Merge(c, u).kind == c.kind && Merge(c, u).size == c.size && Merge(c, u).config == c.config
  {
  }

  /**
   * The cube `addCube(type)` creates, with the timestamp id and the random
   * position as parameters.
   */
  function NewCube(id: int, kind: string, at: Position): Cube {
    Cube(id, kind, "New " + kind + " cube", at, Size(200, 120), map[])
  }

  /** `addCube`: one new cube at the end. */
  function AddCube(cubes: seq<Cube>, id: int, kind: string, at: Position): (r: seq<Cube>)
    ensures |r| == |cubes| + 1 && r[..|cubes|] == cubes
    ensures r[|cubes|].title == "New " + kind + " cube" && r[|cubes|].size == Size(200, 120) && r[|cubes|].config == map[]
    ensures r[|cubes|].id == id && r[|cubes|].kind == kind && r[|cubes|].position == at
  {
    cubes + [NewCube(id, kind, at)]
  }

  /** `updateCube`: every cube with the id gets the update merged over it. */
  function UpdateCube(cubes: seq<Cube>, id: int, u: CubeUpdate): (r: seq<Cube>)
    ensures |r| == |cubes|
    ensures forall i :: 0 <= i < |cubes| && cubes[i].id != id ==> r[i] == cubes[i]
    ensures forall i :: 0 <= i < |cubes| && cubes[i].id == id ==> r[i] == Merge(cubes[i], u)
  {
    seq(|cubes|, i requires 0 <= i < |cubes| => if cubes[i].id == id then Merge(cubes[i], u) else cubes[i])
  }

  /** `deleteCube`: every cube with the id goes. */
  function DeleteCube(cubes: seq<Cube>, id: int): (r: seq<Cube>)
    ensures |r| <= |cubes|
    ensures forall c :: c in r <==> c in cubes && c.id != id
  {
    if cubes == [] then []
    else (if cubes[0].id == id then [] else [cubes[0]]) + DeleteCube(cubes[1..], id)
  }

  /** Deleting works piecewise, so the cubes that stay keep their order. */
  lemma {:induction false} DeleteCubeAppend(a: seq<Cube>, b: seq<Cube>, id: int)
    ensures DeleteCube(a + b, id) == DeleteCube(a, id) + DeleteCube(b, id)
  {
    if a == [] {
      assert a + b == b;
    } else {
      assert (a + b)[0] == a[0];
      assert (a + b)[1..] == a[1..] + b;
      DeleteCubeAppend(a[1..], b, id);
    }
  }

  lemma {:induction false} DeleteCubeAbsent(cubes: seq<Cube>, id: int)
    requires forall i :: 0 <= i < |cubes| ==> cubes[i].id != id
    ensures DeleteCube(cubes, id) == cubes
  {
    if cubes != [] {
      DeleteCubeAbsent(cubes[1..], id);
      assert cubes == [cubes[0]] + cubes[1..];
    }
  }

  /** A cube added under a fresh id and deleted again leaves the list as it was. */
  lemma AddThenDelete(cubes: seq<Cube>, id: int, kind: string, at: Position)
    requires forall i :: 0 <= i < |cubes| ==> cubes[i].id != id
    ensures DeleteCube(AddCube(cubes, id, kind, at), id) == cubes
  {
    DeleteCubeAppend(cubes, [NewCube(id, kind, at)], id);
    DeleteCubeAbsent(cubes, id);
    assert DeleteCube([NewCube(id, kind, at)], id) == [] + DeleteCube([], id);
  }

  /** An update under an id no cube has changes nothing. */
  lemma UpdateAbsent(cubes: seq<Cube>, id: int, u: CubeUpdate)
    requires forall i :: 0 <= i < |cubes| ==> cubes[i].id != id
    ensures UpdateCube(cubes, id, u) == cubes
  {
  }

  /** Updating cubes and then deleting them is deleting them, as long as the update keeps the id. */
  lemma {:induction false} UpdateThenDelete(cubes: seq<Cube>, id: int, u: CubeUpdate)
    requires u.id.None?
    ensures DeleteCube(UpdateCube(cubes, id, u), id) == DeleteCube(cubes, id)
  {
    if cubes != [] {
      var r := UpdateCube(cubes, id, u);
      assert r[1..] == UpdateCube(cubes[1..], id, u);
      UpdateThenDelete(cubes[1..], id, u);
    }
  }

  /** An update that keeps the id, applied twice, is applied once. */
  lemma UpdateIdempotent(cubes: seq<Cube>, id: int, u: CubeUpdate)
    requires u.id.None? || u.id == Some(id)
    ensures UpdateCube(UpdateCube(cubes, id, u), id, u) == UpdateCube(cubes, id, u)
  {
    var once := UpdateCube(cubes, id, u);
    forall i | 0 <= i < |cubes| ensures UpdateCube(once, id, u)[i] == once[i] {
      MergeLaws(cubes[i], u);
    }
  }

  /** What `handleSave` hands to `onSave`. */
  datatype Routine = Routine(title: string, description: string, category: string, cubes: seq<Cube>)

  /**
   * `handleSave`: a title that is blank once trimmed is refused (the alert
   * is left out); otherwise the routine carries the form's values as typed.
   */
  function HandleSave(title: string, description: string, category: string, cubes: seq<Cube>): (r: Option<Routine>)
    ensures r.None? <==> AllSpace(title)
    ensures r.Some? ==> r.value == Routine(title, description, category, cubes)
  {
    if Trim(title) == "" then None
    else Some(Routine(title, description, category, cubes))
  }
}
