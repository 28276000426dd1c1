/** The fruit slicer's fruit table and the construction of a new fruit.
    The random numbers are parameters, each drawn from the range the game
    asks for. */
module FruitUtils {
  import opened Common

  /** One row of the fruit table. */
  datatype FruitKind = FruitKind(kind: string, points: int, color: string, size: int)

  const FruitTypes: seq<FruitKind> := [
    FruitKind("apple", 10, "red", 60),
    FruitKind("banana", 15, "yellow", 70),
    FruitKind("watermelon", 20, "green", 80),
    FruitKind("orange", 15, "orange", 60),
    FruitKind("pineapple", 25, "gold", 70)
  ]

  /** A fruit as the store keeps it; `x` and `y` are where it was spawned. */
  datatype Fruit = Fruit(id: string, x: int, y: int, velocityX: int, velocityY: int,
                         rotation: int, rotationSpeed: int, kind: string, points: int,
                         sliced: bool, size: int)

  /** Every row scores between 10 and 25 points and is 60 to 80 pixels
      wide, and no two rows share a name. */
  lemma TableBounds()
    ensures forall i :: 0 <= i < |FruitTypes| ==> 10 <= FruitTypes[i].points <= 25 && 60 <= FruitTypes[i].size <= 80
    ensures forall i, j :: 0 <= i < j < |FruitTypes| ==> FruitTypes[i].kind != FruitTypes[j].kind
  {
  }

  /** The random numbers one fruit needs, in the order they are drawn. */
  datatype FruitDraws = FruitDraws(typeIndex: int, id: string, x: int, velocityX: int, velocityY: int,
                                   rotation: int, rotationSpeed: int)

  /** Each draw lies in the inclusive range the constructor passes to the
      random helper. */
  predicate DrawsInRange(d: FruitDraws, windowWidth: int)
  {
    0 <= d.typeIndex <= |FruitTypes| - 1 &&
    100 <= d.x <= Max(windowWidth - 100, 300) &&
    -5 <= d.velocityX <= 5 && -25 <= d.velocityY <= -15 &&
    0 <= d.rotation <= 360 && -5 <= d.rotationSpeed <= 5
  }

  /** `createFruit`: name, points and size come from one row of the table;
      the fruit starts unsliced, 50 pixels below the window. */
  function CreateFruit(d: FruitDraws, windowWidth: int, windowHeight: int): (f: Fruit)
    requires 0 <= d.typeIndex < |FruitTypes|
    ensures !f.sliced && f.y == windowHeight + 50
    ensures exists i :: 0 <= i < |FruitTypes| &&
              f.kind == FruitTypes[i].kind && f.points == FruitTypes[i].points && f.size == FruitTypes[i].size
  {
    var row := FruitTypes[d.typeIndex];
    Fruit(d.id, d.x, windowHeight + 50, d.velocityX, d.velocityY, d.rotation, d.rotationSpeed,
          row.kind, row.points, false, row.size)
  }

  /** With draws in range, the fruit starts between 100 and
      `max(width - 100, 300)` across, moves strictly upward, and its points
      and size are those of a table row. */
  lemma CreateFruitRanges(d: FruitDraws, windowWidth: int, windowHeight: int)
    requires DrawsInRange(d, windowWidth)
    ensures var f := CreateFruit(d, windowWidth, windowHeight);
      100 <= f.x <= Max(windowWidth - 100, 300) &&
      -5 <= f.velocityX <= 5 && -5 <= f.rotationSpeed <= 5 &&
      -25 <= f.velocityY <= -15 && f.velocityY < 0 && 0 <= f.rotation <= 360 &&
      10 <= f.points <= 25 && 60 <= f.size <= 80
  {
    TableBounds();
  }

  /** `Array.prototype.find` over the table by name. */
  function FindKind(table: seq<FruitKind>, kind: string): (r: Option<FruitKind>)
    ensures r.Some? ==> r.value.kind == kind && r.value in table
    ensures r.None? <==> forall i :: 0 <= i < |table| ==> table[i].kind != kind
  {
    if table == [] then None
    else if table[0].kind == kind then Some(table[0])
    else FindKind(table[1..], kind)
  }

  /** `getFruitColor`. */
  function FruitColor(kind: string): (color: string)
  {
    match FindKind(FruitTypes, kind)
    case Some(row) => row.color
    case None => "gray"
  }

  /** A listed fruit gets its own row's colour (names are unique, so the
      first match is that row); any other name gets gray. */
  lemma FruitColorOfTable(kind: string)
    ensures forall i :: 0 <= i < |FruitTypes| && FruitTypes[i].kind == kind ==> FruitColor(kind) == FruitTypes[i].color
    ensures (forall i :: 0 <= i < |FruitTypes| ==> FruitTypes[i].kind != kind) ==> FruitColor(kind) == "gray"
  {
    TableBounds();
  }
}
