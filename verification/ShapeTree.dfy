/**
  Response shapes in scripts/verify-primitives.ts: buildShapeTree abstracts a JSON value to its
  shape, shapeToJsonExample makes an example value of a shape.
 */
module ShapeTree {
  import opened Wrappers

  datatype Json =
    | JNull | JString(s: string) | JNumber(n: real) | JBool(b: bool)
    | JArray(items: seq<Json>) | JObject(fields: map<string, Json>)

  /** A ShapeNode: its type, and the properties that type uses; arrays may lack items, objects fields. */
  datatype Shape =
    | NullShape
    | StringShape(s: Option<string>)
    | NumberShape(n: Option<real>)
    | BoolShape(b: Option<bool>)
    | EmptyArray
    | ArrayShape(items: Shape)
    | ObjectShape(fields: map<string, Shape>)
    | BareObject

  const MAX_SHAPE_DEPTH := 8
  const MAX_EXAMPLE_DEPTH := 4
  const ELLIPSIS := "..."

  /** buildShapeTree */
  function BuildShapeTree(v: Json, depth: nat): Shape
    decreases v
  {
    if depth > MAX_SHAPE_DEPTH then BareObject
    else
      match v
      case JNull => NullShape
      case JString(s) => StringShape(Some(s))
      case JNumber(n) => NumberShape(Some(n))
      case JBool(b) => BoolShape(Some(b))
      case JArray(items) => if items == [] then EmptyArray else ArrayShape(BuildShapeTree(items[0], depth + 1))
      case JObject(fields) => ObjectShape(map key | key in fields :: BuildShapeTree(fields[key], depth + 1))
  }

  function GetOr<T>(o: Option<T>, default: T): T {
    match o case Some(v) => v case None => default
  }

  /** shapeToJsonExample */
  function ShapeToJsonExample(shape: Shape, depth: nat): Json
    decreases shape
  {
    if depth > MAX_EXAMPLE_DEPTH then JString(ELLIPSIS)
    else
      match shape
      case NullShape => JNull
      case StringShape(s) => JString(GetOr(s, "string"))
      case NumberShape(n) => JNumber(GetOr(n, 0.0))
      case BoolShape(b) => JBool(GetOr(b, true))
      case EmptyArray => JArray([])
      case ArrayShape(items) => JArray([ShapeToJsonExample(items, depth + 1)])
      case ObjectShape(fields) => JObject(map key | key in fields :: ShapeToJsonExample(fields[key], depth + 1))
      case BareObject => JObject(map[])
  }

  /** What the example keeps of a value at `depth`: five levels below the root only the ellipsis
      survives, and of an array only the first item counts. */
  predicate Survives(v: Json, depth: nat)
    decreases v
  {
    if depth > MAX_EXAMPLE_DEPTH then v == JString(ELLIPSIS)
    else
      match v
      case JArray(items) => items != [] ==> Survives(items[0], depth + 1)
      case JObject(fields) => forall key :: key in fields ==> Survives(fields[key], depth + 1)
      case _ => true
  }

  /** The shape of the example of a value's shape is that shape again. */
  predicate KeepsShape(v: Json, depth: nat) {
    BuildShapeTree(ShapeToJsonExample(BuildShapeTree(v, depth), depth), depth) == BuildShapeTree(v, depth)
  }

  lemma ObjectKeepsShape(fields: map<string, Json>, depth: nat)
    requires depth <= MAX_EXAMPLE_DEPTH
    ensures KeepsShape(JObject(fields), depth) <==> forall key :: key in fields ==> KeepsShape(fields[key], depth + 1)
  {
    var shape := BuildShapeTree(JObject(fields), depth);
    var again := BuildShapeTree(ShapeToJsonExample(shape, depth), depth);
    assert again.fields.Keys == shape.fields.Keys == fields.Keys;
    forall key | key in fields ensures again.fields[key] == shape.fields[key] <==> KeepsShape(fields[key], depth + 1) {}
    if forall key :: key in fields ==> KeepsShape(fields[key], depth + 1) {
      assert again.fields == shape.fields;
    }
  }

  lemma ArrayKeepsShape(items: seq<Json>, depth: nat)
    requires depth <= MAX_EXAMPLE_DEPTH
    ensures KeepsShape(JArray(items), depth) <==> (items != [] ==> KeepsShape(items[0], depth + 1))
  {
  }

  /** That holds exactly when the value survives in the example. */
  lemma {:induction false} ExampleHasTheShapeExactly(v: Json, depth: nat)
    requires depth <= MAX_EXAMPLE_DEPTH + 1
    ensures KeepsShape(v, depth) <==> Survives(v, depth)
    decreases v
  {
    if depth <= MAX_EXAMPLE_DEPTH {
      match v
      case JArray(items) =>
        hide KeepsShape;
        ArrayKeepsShape(items, depth);
        if items != [] { ExampleHasTheShapeExactly(items[0], depth + 1); }
      case JObject(fields) =>
        hide KeepsShape;
        ObjectKeepsShape(fields, depth);
        forall key | key in fields ensures KeepsShape(fields[key], depth + 1) <==> Survives(fields[key], depth + 1) {
          ExampleHasTheShapeExactly(fields[key], depth + 1);
        }
      case _ =>
    }
  }

  /** How many levels of the value a shape looks at. */
  predicate NoDeeperThan(v: Json, levels: int)
    decreases v
  {
    levels >= 0 &&
    match v
    case JArray(items) => items != [] ==> NoDeeperThan(items[0], levels - 1)
    case JObject(fields) => forall key :: key in fields ==> NoDeeperThan(fields[key], levels - 1)
    case _ => true
  }

  /** In particular the example has the shape for every value at most four levels deep. */
  lemma {:induction false} ShallowValuesSurvive(v: Json, depth: nat)
    requires NoDeeperThan(v, MAX_EXAMPLE_DEPTH - depth)
    ensures Survives(v, depth)
    decreases v
  {
    match v
    case JArray(items) => if items != [] { ShallowValuesSurvive(items[0], depth + 1); }
    case JObject(fields) =>
      forall key | key in fields ensures Survives(fields[key], depth + 1) {
        ShallowValuesSurvive(fields[key], depth + 1);
      }
    case _ =>
  }

  lemma ShapeRetraction(v: Json)
    requires NoDeeperThan(v, 4)
    ensures BuildShapeTree(ShapeToJsonExample(BuildShapeTree(v, 0), 0), 0) == BuildShapeTree(v, 0)
  {
    ShallowValuesSurvive(v, 0);
    ExampleHasTheShapeExactly(v, 0);
  }

  /** `v` inside n arrays. */
  function Nested(n: nat, v: Json): Json {
    if n == 0 then v else JArray([Nested(n - 1, v)])
  }

  lemma {:induction false} NestedSurvives(n: nat, v: Json, depth: nat)
    requires depth + n <= MAX_EXAMPLE_DEPTH + 1
    ensures Survives(Nested(n, v), depth) <==> Survives(v, depth + n)
  {
    if n > 0 { NestedSurvives(n - 1, v, depth + 1); }
  }

  /** A number five levels down is lost: [[[[[7]]]]] comes back as [[[[["..."]]]]], of another shape. */
  lemma FifthLevelIsLost()
    ensures !KeepsShape(Nested(5, JNumber(7.0)), 0)
  {
    ExampleHasTheShapeExactly(Nested(5, JNumber(7.0)), 0);
    NestedSurvives(5, JNumber(7.0), 0);
  }

  /** The values agree as far as a shape looks: the same kind of value everywhere, the same scalars and
      names, of arrays only the first items, and nothing below the eighth level. */
  predicate Alike(v: Json, w: Json, depth: nat)
    decreases v
  {
    depth > 8 ||
    match v
    case JNull => w == JNull
    case JString(s) => w == JString(s)
    case JNumber(n) => w == JNumber(n)
    case JBool(b) => w == JBool(b)
    case JArray(items) => w.JArray? && (items == [] <==> w.items == []) && (items != [] ==> Alike(items[0], w.items[0], depth + 1))
    case JObject(fields) =>
      w.JObject? && fields.Keys == w.fields.Keys && forall key :: key in fields ==> Alike(fields[key], w.fields[key], depth + 1)
  }

  /** Two values have the same shape exactly when they are alike. */
  lemma {:induction false} SameShapeExactly(v: Json, w: Json, depth: nat)
    ensures BuildShapeTree(v, depth) == BuildShapeTree(w, depth) <==> Alike(v, w, depth)
    decreases v
  {
    if depth <= 8 && v.JArray? && w.JArray? && v.items != [] && w.items != [] {
      SameShapeExactly(v.items[0], w.items[0], depth + 1);
    } else if depth <= 8 && v.JObject? && w.JObject? && v.fields.Keys == w.fields.Keys {
      forall key | key in v.fields
        ensures BuildShapeTree(v.fields[key], depth + 1) == BuildShapeTree(w.fields[key], depth + 1) <==> Alike(v.fields[key], w.fields[key], depth + 1)
      {
        SameShapeExactly(v.fields[key], w.fields[key], depth + 1);
      }
      ObjectShapes(v.fields, w.fields, depth);
    } else if depth <= 8 && v.JObject? && w.JObject? {
      assert BuildShapeTree(v, depth).fields.Keys == v.fields.Keys && BuildShapeTree(w, depth).fields.Keys == w.fields.Keys;
    }
  }

  lemma ObjectShapes(a: map<string, Json>, b: map<string, Json>, depth: nat)
    requires depth <= 8 && a.Keys == b.Keys
    ensures BuildShapeTree(JObject(a), depth) == BuildShapeTree(JObject(b), depth) <==>
      forall key :: key in a ==> BuildShapeTree(a[key], depth + 1) == BuildShapeTree(b[key], depth + 1)
  {
    var s, t := BuildShapeTree(JObject(a), depth).fields, BuildShapeTree(JObject(b), depth).fields;
    assert s.Keys == t.Keys == a.Keys;
    forall key | key in a ensures s[key] == BuildShapeTree(a[key], depth + 1) && t[key] == BuildShapeTree(b[key], depth + 1) {
    }
    if forall key :: key in a ==> BuildShapeTree(a[key], depth + 1) == BuildShapeTree(b[key], depth + 1) {
      assert s == t;
    }
    if s == t {
      forall key | key in a ensures BuildShapeTree(a[key], depth + 1) == BuildShapeTree(b[key], depth + 1) {
        assert s[key] == t[key];
      }
    }
  }
}
