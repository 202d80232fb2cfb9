/** Locating the provided values that have no meaning under a schema, for pruning rejected attempts from history. */
module InvalidPaths {
  import opened Json
  import opened Wrappers
  import opened Lexicographic
  import opened SchemaContract
  import opened SchemaValidation

  type Path = seq<string>

  predicate PathLess(a: Path, b: Path) {
    Precedes(StringLess, a, b)
  }

  predicate IsUnion(s: Schema)
    requires s.Schema?
  {
    UsesOneOf(s) || !s.anyOf.NoBranches?
  }

  predicate HasEmptyKey(fields: seq<Field>) {
    exists i | 0 <= i < |fields| :: fields[i].key == ""
  }

  /** An object whose legal subset is unambiguous: its fields are judged one by one. */
  predicate JudgedByField(v: Json, s: Schema) {
    && s.Schema? && !IsUnion(s) && s.typ == Is(TObject) && v.Obj?
    && (s.maxProperties.Is? ==> |v.fields| <= s.maxProperties.value)
    && !s.properties.BadProperties?
    && !HasEmptyKey(v.fields)
  }

  predicate IllegalKey(lex: Lexicon, key: string, s: Schema)
    requires s.Schema?
  {
    || lex.privateName(key)
    || (s.propertyNames.Is? && Violates(lex, Str(key), s.propertyNames.value))
  }

  // ---- _invalid_value_paths ----

  function PathsIn(lex: Lexicon, v: Json, s: Schema, at: Path): seq<Path>
    decreases s, 1
  {
    if JudgedByField(v, s) then FieldPaths(lex, v.fields, s, at) else [at]
  }

  function FieldPaths(lex: Lexicon, fields: seq<Field>, s: Schema, at: Path): seq<Path>
    requires s.Schema?
    decreases s, 0, 1, |fields|
  {
    if fields == [] then []
    else
      FieldPaths(lex, fields[..|fields| - 1], s, at)
        + PathsOfField(lex, fields[|fields| - 1], s, at + [fields[|fields| - 1].key])
  }

  function PathsOfField(lex: Lexicon, f: Field, s: Schema, at: Path): seq<Path>
    requires s.Schema?
    decreases s, 0, 0
  {
    var i := PropertyIndex(PropertyList(s), f.key);
    if IllegalKey(lex, f.key, s) then [at]
    else if s.properties.Properties? && i < |s.properties.list| then
      var child := s.properties.list[i].schema;
      if Violates(lex, f.value, child) then PathsIn(lex, f.value, child, at) else []
    else if ForbidsUndeclared(s) then [at]
    else if s.additional.Typed? && Violates(lex, f.value, s.additional.schema) then
      PathsIn(lex, f.value, s.additional.schema, at)
    else []
  }

  /** The same walk as the source runs it: one pass over the fields, appending paths. */
  method CollectPaths(lex: Lexicon, v: Json, s: Schema, at: Path) returns (paths: seq<Path>)
    ensures paths == PathsIn(lex, v, s, at)
    decreases s, 1
  {
    if !JudgedByField(v, s) {
      return [at];
    }
    paths := [];
    for k := 0 to |v.fields|
      invariant paths == FieldPaths(lex, v.fields[..k], s, at)
    {
      assert v.fields[..k + 1][..k] == v.fields[..k];
      var key := v.fields[k].key;
      var i := PropertyIndex(PropertyList(s), key);
      if IllegalKey(lex, key, s) {
        paths := paths + [at + [key]];
      } else if s.properties.Properties? && i < |s.properties.list| {
        if Violates(lex, v.fields[k].value, s.properties.list[i].schema) {
          var below := CollectPaths(lex, v.fields[k].value, s.properties.list[i].schema, at + [key]);
          paths := paths + below;
        }
      } else if ForbidsUndeclared(s) {
        paths := paths + [at + [key]];
      } else if s.additional.Typed? && Violates(lex, v.fields[k].value, s.additional.schema) {
        var below := CollectPaths(lex, v.fields[k].value, s.additional.schema, at + [key]);
        paths := paths + below;
      }
    }
    assert v.fields[..|v.fields|] == v.fields;
  }

  /** `_minimal_paths`: drop every path with a proper ancestor in the list, then sort without repetition. */
  function MinimalPaths(paths: seq<Path>): seq<Path> {
    SortedSet(PathLess, WithoutAncestors(paths, paths))
  }

  function WithoutAncestors(paths: seq<Path>, all: seq<Path>): seq<Path> {
    if paths == [] then []
    else if exists i | 0 <= i < |all| :: all[i] < paths[0] then WithoutAncestors(paths[1..], all)
    else [paths[0]] + WithoutAncestors(paths[1..], all)
  }

  /** `invalid_value_paths`. */
  function InvalidValuePaths(lex: Lexicon, v: Json, s: Schema): Result<seq<Path>> {
    if !ParameterContract(lex, s) then Raised
    else if !Violates(lex, v, s) then Ok([])
    else Ok(MinimalPaths(PathsIn(lex, v, s, [])))
  }

  // ---- what the paths are for ----

  /** A Python mapping, at every depth, holds each key once. */
  ghost predicate UniqueKeys(v: Json) {
    match v
    case Obj(fields) =>
      && (forall i, j | 0 <= i < j < |fields| :: fields[i].key != fields[j].key)
      && (forall i | 0 <= i < |fields| :: UniqueKeys(fields[i].value))
    case Arr(items) => forall i | 0 <= i < |items| :: UniqueKeys(items[i])
    case _ => true
  }

  /** The value with everything at a doomed path removed; `at` is the position of the value itself. */
  ghost function Delete(v: Json, at: Path, doomed: seq<Path>): Json
    decreases v, 0
  {
    match v
    case Obj(fields) => Obj(DeleteFields(v, fields, at, doomed))
    case _ => v
  }

  ghost function DeleteFields(v: Json, fields: seq<Field>, at: Path, doomed: seq<Path>): seq<Field>
    requires forall i | 0 <= i < |fields| :: fields[i].value < v
    decreases v, 0, |fields|
  {
    if fields == [] then []
    else
      var last := fields[|fields| - 1];
      var rest := DeleteFields(v, fields[..|fields| - 1], at, doomed);
      if at + [last.key] in doomed then rest
      else rest + [Field(last.key, Delete(last.value, at + [last.key], doomed))]
  }

  /** The only defects a value may have are missing required fields. */
  ghost predicate OnlyMissing(lex: Lexicon, v: Json, s: Schema)
    decreases s
  {
    if s.Schema? && !IsUnion(s) && s.typ == Is(TObject) then
      && v.Obj?
      && (s.maxProperties.Is? ==> |v.fields| <= s.maxProperties.value)
      && !s.properties.BadProperties?
      && (forall i | 0 <= i < |v.fields| :: !IllegalKey(lex, v.fields[i].key, s))
      && (ForbidsUndeclared(s) ==> forall i | 0 <= i < |v.fields| :: Declares(PropertyList(s), v.fields[i].key))
      && (s.properties.Properties? ==>
            forall i, j | 0 <= i < |v.fields| && 0 <= j < |s.properties.list| ::
              s.properties.list[j].name == v.fields[i].key ==>
                OnlyMissing(lex, v.fields[i].value, s.properties.list[j].schema))
      && (s.additional.Typed? ==>
            forall i | 0 <= i < |v.fields| ::
              Declares(PropertyList(s), v.fields[i].key) || OnlyMissing(lex, v.fields[i].value, s.additional.schema))
    else
      !Violates(lex, v, s)
  }

  /** Every required field is present, wherever the schema judges an object field by field. */
  ghost predicate NothingMissing(lex: Lexicon, v: Json, s: Schema)
    decreases s
  {
    s.Schema? && !IsUnion(s) && s.typ == Is(TObject) && v.Obj? ==>
      && (forall r | r in ListOf(s.required) :: HasKey(v.fields, r))
      && (s.properties.Properties? ==>
            forall i, j | 0 <= i < |v.fields| && 0 <= j < |s.properties.list| ::
              s.properties.list[j].name == v.fields[i].key ==>
                NothingMissing(lex, v.fields[i].value, s.properties.list[j].schema))
      && (s.additional.Typed? ==>
            forall i | 0 <= i < |v.fields| ::
              Declares(PropertyList(s), v.fields[i].key) || NothingMissing(lex, v.fields[i].value, s.additional.schema))
  }
}
