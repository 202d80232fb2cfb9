/** JSON values as the Python runtime sees them, and Python equality between them. */
module Json {

  datatype FloatValue = Finite(r: real) | PosInf | NegInf | NaN

  datatype Field = Field(key: string, value: Json)

  /** Objects keep the insertion order of the Python mapping. */
  datatype Json =
    | Null
    | Bool(b: bool)
    | Int(i: int)
    | Float(f: FloatValue)
    | Str(s: string)
    | Arr(items: seq<Json>)
    | Obj(fields: seq<Field>)

  datatype TypeName = TObject | TArray | TNull | TString | TBoolean | TInteger | TNumber

  function JsonType(v: Json): TypeName {
    match v
    case Null => TNull
    case Bool(_) => TBoolean
    case Int(_) => TInteger
    case Float(_) => TNumber
    case Str(_) => TString
    case Arr(_) => TArray
    case Obj(_) => TObject
  }

  predicate HasKey(fields: seq<Field>, key: string) {
    exists i | 0 <= i < |fields| :: fields[i].key == key
  }

  /** int | float, with bool excluded, and finite. */
  predicate IsFiniteNumber(v: Json) {
    v.Int? || (v.Float? && v.f.Finite?)
  }

  function NumberOf(v: Json): real
    requires IsFiniteNumber(v)
  {
    if v.Int? then v.i as real else v.f.r
  }

  /** Python counts True and False among the numbers when it compares. */
  function AsNumber(v: Json): FloatValue {
    match v
    case Bool(b) => Finite(if b then 1.0 else 0.0)
    case Int(i) => Finite(i as real)
    case Float(f) => f
    case _ => NaN
  }

  /** `==` between scalars: 1, 1.0 and True are equal, NaN equals nothing. */
  predicate PyEqual(a: Json, b: Json) {
    if (a.Bool? || a.Int? || a.Float?) && (b.Bool? || b.Int? || b.Float?) then
      AsNumber(a) == AsNumber(b) && !AsNumber(a).NaN?
    else
      a == b
  }

  /** `value in values` for a list of scalars. */
  predicate PyMember(v: Json, values: seq<Json>) {
    exists i | 0 <= i < |values| :: PyEqual(v, values[i])
  }
}
