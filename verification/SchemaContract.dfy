/**
 The bounded JSON-Schema subset of the action boundary and the contract checker that admits a schema to it.
 A keyword is absent, well shaped, or present with a value of another JSON shape.
 */
module SchemaContract {
  import opened Json
  import opened Wrappers

  const MAX_DESCRIPTION := 240
  const MAX_OPTION_DOMAIN_ITEMS := 512
  const MAX_SCHEMA_DEPTH := 8
  const MAX_PROPERTIES := 128
  const MAX_UNION_BRANCHES := 128
  const MAX_PATTERN_LENGTH := 240

  datatype Keyword<+T> = Absent | Is(value: T) | Malformed

  datatype Property = Property(name: string, schema: Schema)

  datatype Properties = NoProperties | Properties(list: seq<Property>) | BadProperties

  /** The value of `oneOf` or `anyOf`. */
  datatype Branches = NoBranches | Branches(list: seq<Schema>) | BadBranches

  /** `additionalProperties`: a flag, a schema for the extra values, or something else. */
  datatype Additional = NoAdditional | Flag(allowed: bool) | Typed(schema: Schema) | BadAdditional

  datatype Schema =
    | NotAMapping
    | Schema(
        foreignKeys: bool,
        typ: Keyword<TypeName>,
        description: Keyword<string>,
        oneOf: Branches,
        anyOf: Branches,
        properties: Properties,
        required: Keyword<seq<string>>,
        additional: Additional,
        maxProperties: Keyword<int>,
        propertyNames: Keyword<Schema>,
        items: Keyword<Schema>,
        minItems: Keyword<int>,
        maxItems: Keyword<int>,
        enumeration: Keyword<seq<Json>>,
        constant: Option<Json>,
        minimum: Keyword<real>,
        maximum: Keyword<real>,
        minLength: Keyword<int>,
        maxLength: Keyword<int>,
        pattern: Keyword<string>)

  /** The schema without keywords. */
  const EMPTY := Schema(false, Absent, Absent, NoBranches, NoBranches, NoProperties, Absent, NoAdditional,
                        Absent, Absent, Absent, Absent, Absent, Absent, None, Absent, Absent, Absent, Absent, Absent)

  /** The text services the validators call: name privacy, regular expressions. Any choice of them is allowed. */
  datatype Lexicon = Lexicon(
    privateName: string -> bool,
    compiles: string -> bool,
    fullMatch: (string, string) -> bool)

  function ListOf<T>(k: Keyword<seq<T>>): seq<T> {
    if k.Is? then k.value else []
  }

  /** `schema.get("properties") or {}`. */
  function PropertyList(s: Schema): seq<Property>
    requires s.Schema?
  {
    if s.properties.Properties? then s.properties.list else []
  }

  predicate Declares(properties: seq<Property>, name: string) {
    exists i | 0 <= i < |properties| :: properties[i].name == name
  }

  lemma DeclaredName(properties: seq<Property>, name: string)
    ensures Declares(properties, name) <==> exists p :: p in properties && p.name == name
  {
    if i :| 0 <= i < |properties| && properties[i].name == name {
      assert properties[i] in properties;
    }
  }

  /** Where `properties.get(name)` finds its schema; the length of the list when it finds none. */
  function PropertyIndex(properties: seq<Property>, name: string): (i: nat)
    ensures i <= |properties|
    ensures i < |properties| ==> properties[i].name == name
    ensures i < |properties| <==> Declares(properties, name)
  {
    if properties == [] then 0
    else if properties[0].name == name then 0
    else
      var i := 1 + PropertyIndex(properties[1..], name);
      assert forall k | 1 <= k < |properties| :: properties[k] == properties[1..][k - 1];
      i
  }

  /** A Python mapping holds each key once. */
  predicate UniqueNames(properties: seq<Property>) {
    forall i, j | 0 <= i < j < |properties| :: properties[i].name != properties[j].name
  }

  predicate NoDuplicates<T(==)>(s: seq<T>) {
    forall i, j | 0 <= i < j < |s| :: s[i] != s[j]
  }

  predicate ScalarMatchesType(v: Json, t: TypeName) {
    match t
    case TNull => v.Null?
    case TString => v.Str?
    case TBoolean => v.Bool?
    case TInteger => v.Int?
    case TNumber => IsFiniteNumber(v)
    case _ => false
  }

  /** `set(schema) - allowed` is empty for a union node. */
  predicate OnlyUnionKeywords(s: Schema, root: bool)
    requires s.Schema?
  {
    && !s.foreignKeys
    && (root || s.typ.Absent?)
    && s.properties.NoProperties? && s.required.Absent? && s.additional.NoAdditional?
    && s.maxProperties.Absent? && s.propertyNames.Absent?
    && s.items.Absent? && s.minItems.Absent? && s.maxItems.Absent?
    && s.enumeration.Absent? && s.constant.None? && s.minimum.Absent? && s.maximum.Absent?
    && s.minLength.Absent? && s.maxLength.Absent? && s.pattern.Absent?
  }

  predicate WellFormed(lex: Lexicon, s: Schema, root: bool, depth: nat)
    decreases s, 1
  {
    && depth <= MAX_SCHEMA_DEPTH
    && s.Schema? && !s.foreignKeys
    && !(!s.oneOf.NoBranches? && !s.anyOf.NoBranches?)
    && if !s.oneOf.NoBranches? then
         WellFormedUnion(lex, s, s.oneOf, root, depth) && (|s.oneOf.list| > 1 ==> DistinctBranches(s.oneOf.list))
       else if !s.anyOf.NoBranches? then
         WellFormedUnion(lex, s, s.anyOf, root, depth)
       else
         && s.typ.Is? && (root ==> s.typ.value == TObject)
         && (s.description.Absent? || (s.description.Is? && |s.description.value| <= MAX_DESCRIPTION))
         && match s.typ.value
            case TObject => WellFormedObject(lex, s, depth)
            case TArray => WellFormedArray(lex, s, depth)
            case _ => WellFormedPrimitive(lex, s)
  }

  predicate WellFormedUnion(lex: Lexicon, s: Schema, variants: Branches, root: bool, depth: nat)
    requires s.Schema? && (variants == s.oneOf || variants == s.anyOf)
    decreases s, 0
  {
    && OnlyUnionKeywords(s, root)
    && (root ==> s.typ == Is(TObject))
    && variants.Branches? && 1 <= |variants.list| <= MAX_UNION_BRANCHES
    && forall i | 0 <= i < |variants.list| :: WellFormed(lex, variants.list[i], root, depth + 1)
  }

  /** The finite values each required, declared field may take in one branch. */
  function FiniteDiscriminants(s: Schema): map<string, set<Json>> {
    if !s.Schema? || s.typ != Is(TObject) || !s.properties.Properties? then map[]
    else DiscriminantsOf(s.properties.list, ListOf(s.required))
  }

  function DiscriminantsOf(properties: seq<Property>, required: seq<string>): map<string, set<Json>> {
    if properties == [] then map[]
    else
      var rest := DiscriminantsOf(properties[..|properties| - 1], required);
      var p := properties[|properties| - 1];
      if p.name in required && FiniteValues(p.schema) != {} then rest[p.name := FiniteValues(p.schema)] else rest
  }

  /** `const`, or else `enum`, read without looking at the declared type. */
  function FiniteValues(child: Schema): set<Json> {
    if !child.Schema? then {}
    else if child.constant.Some? then {child.constant.value}
    else set v | v in ListOf(child.enumeration)
  }

  predicate BranchesAreDisjoint(left: map<string, set<Json>>, right: map<string, set<Json>>) {
    exists name | name in left.Keys :: name in right.Keys && left[name] !! right[name]
  }

  predicate DistinctBranches(variants: seq<Schema>) {
    && (forall i | 0 <= i < |variants| :: FiniteDiscriminants(variants[i]) != map[])
    && forall i, j | 0 <= i < j < |variants| ::
         BranchesAreDisjoint(FiniteDiscriminants(variants[i]), FiniteDiscriminants(variants[j]))
  }

  predicate WellFormedObject(lex: Lexicon, s: Schema, depth: nat)
    requires s.Schema?
    decreases s, 0
  {
    && !s.properties.BadProperties? && !s.required.Malformed? && !s.maxProperties.Malformed?
       && !s.propertyNames.Malformed?
    && var properties, required := PropertyList(s), ListOf(s.required);
    && |properties| <= MAX_PROPERTIES
    && NoDuplicates(required)
    && (forall r | r in required :: Declares(properties, r))
    && (s.maxProperties.Is? ==> 0 <= s.maxProperties.value <= MAX_PROPERTIES && |required| <= s.maxProperties.value)
    && s.additional != Flag(true) && !s.additional.BadAdditional?
    && (if s.additional.Typed? then
          && s.maxProperties.Is? && s.propertyNames.Is?
          && WellFormed(lex, s.additional.schema, false, depth + 1)
          && WellFormed(lex, s.propertyNames.value, false, depth + 1)
          && s.propertyNames.value.typ == Is(TString) && !s.propertyNames.value.maxLength.Absent?
        else
          s.propertyNames.Absent?)
    && UniqueNames(properties)
    && (s.properties.Properties? ==>
          forall i | 0 <= i < |s.properties.list| ::
            && s.properties.list[i].name != "" && !lex.privateName(s.properties.list[i].name)
            && WellFormed(lex, s.properties.list[i].schema, false, depth + 1))
  }

  predicate WellFormedArray(lex: Lexicon, s: Schema, depth: nat)
    requires s.Schema?
    decreases s, 0
  {
    && s.properties.NoProperties? && s.required.Absent? && s.additional.NoAdditional?
    && s.maxProperties.Absent? && s.propertyNames.Absent?
    && s.items.Is?
    && !s.minItems.Malformed? && (s.minItems.Is? ==> s.minItems.value >= 0)
    && s.maxItems.Is? && MinItems(s) <= s.maxItems.value <= MAX_OPTION_DOMAIN_ITEMS
    && WellFormed(lex, s.items.value, false, depth + 1)
  }

  function MinItems(s: Schema): int
    requires s.Schema?
  {
    if s.minItems.Is? then s.minItems.value else 0
  }

  predicate WellFormedPrimitive(lex: Lexicon, s: Schema)
    requires s.Schema? && s.typ.Is?
  {
    var t := s.typ.value;
    && s.properties.NoProperties? && s.required.Absent? && s.additional.NoAdditional?
    && s.maxProperties.Absent? && s.propertyNames.Absent?
    && s.items.Absent? && s.minItems.Absent? && s.maxItems.Absent?
    && !s.enumeration.Malformed?
    && (s.enumeration.Is? ==>
          && 1 <= |s.enumeration.value| <= MAX_OPTION_DOMAIN_ITEMS
          && (forall v | v in s.enumeration.value :: ScalarMatchesType(v, t))
          && NoDuplicates(s.enumeration.value))
    && (s.constant.Some? ==> ScalarMatchesType(s.constant.value, t))
    && (s.enumeration.Is? && s.constant.Some? ==> PyMember(s.constant.value, s.enumeration.value))
    && !s.minimum.Malformed? && !s.maximum.Malformed?
    && (s.minimum.Is? && s.maximum.Is? ==> s.minimum.value <= s.maximum.value)
    && (!s.minimum.Absent? || !s.maximum.Absent? ==> t == TInteger || t == TNumber)
    && !s.minLength.Malformed? && (s.minLength.Is? ==> s.minLength.value >= 0)
    && !s.maxLength.Malformed? && (s.maxLength.Is? ==> s.maxLength.value >= 0)
    && (s.minLength.Is? && s.maxLength.Is? ==> s.minLength.value <= s.maxLength.value)
    && (!s.minLength.Absent? || !s.maxLength.Absent? || !s.pattern.Absent? ==> t == TString)
    && !s.pattern.Malformed?
    && (s.pattern.Is? ==> |s.pattern.value| <= MAX_PATTERN_LENGTH && lex.compiles(s.pattern.value))
  }

  /** `validate_parameter_schema_contract`. */
  predicate ParameterContract(lex: Lexicon, s: Schema) {
    WellFormed(lex, s, true, 0)
  }
}
